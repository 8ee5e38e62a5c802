/**
  The token repository the token service works against, as an abstract store:
  stored tokens by token key, and for each user the key of the token last saved
  for each device. Whether a store operation fails is decided by a fault
  oracle fixed when the store is made. A call fails as a whole, except where a
  single Redis command inside it fails on its own: the HSET after a token is
  stored, and the GET of a token key, whose error the program drops.
*/
module TokenStore {
  import opened Wrappers
  import opened AppErrors
  import opened AuthEntities
  import opened TokenDevice

  /**
    One call on the store, as recorded in its log, or one Redis command inside
    a call that the fault oracle is asked about on its own (`GetOp`, `IndexOp`;
    these are never logged).
  */
  datatype StoreOp =
    | SaveOp(record: TokenRecord)
    | FindTokenOp(key: string)
    | FindUserOp(userId: string)
    | FindUserDeviceOp(userId: string, device: string)
    | DeleteTokenOp(key: string)
    | DeleteUserOp(userId: string)
    | GetOp(key: string)
    | IndexOp(record: TokenRecord)

  datatype StoreState = StoreState(tokens: map<string, RawToken>, devices: map<string, map<string, string>>)

  /** A saved record read back: the record itself, without a refresh token. */
  function Stored(rec: TokenRecord): RawToken
  {
    RawToken(rec.device, rec.token, "", rec.payload, rec.userId, rec.expiresAt, rec.createdAt, rec.expiracy)
  }

  /** The device-to-key index of one user. */
  function DevicesOf(s: StoreState, userId: string): map<string, string>
  {
    if userId in s.devices then s.devices[userId] else map[]
  }

  function TokenByKey(s: StoreState, key: string): Option<RawToken>
  {
    if key in s.tokens then Some(s.tokens[key]) else None
  }

  /** The user's token for `device`; an index entry whose token is gone yields nothing. */
  function TokenOfDevice(s: StoreState, userId: string, device: string): Option<RawToken>
  {
    var index := DevicesOf(s, userId);
    if device in index then TokenByKey(s, index[device]) else None
  }

  /** The text of the error Redis gives for a GET on a key that holds nothing. */
  const RedisNil := "redis: nil"

  /** The user's tokens for valid devices, by device; entries for other devices are skipped. */
  function TokensOfUser(s: StoreState, userId: string): (m: map<string, RawToken>)
    ensures forall d :: d in m <==> IsValidTokenDevice(d) && TokenOfDevice(s, userId, d).Some?
    ensures forall d :: d in m ==> m[d] == TokenOfDevice(s, userId, d).value
  {
    var index := DevicesOf(s, userId);
    map d | d in index && IsValidTokenDevice(d) && index[d] in s.tokens :: s.tokens[index[d]]
  }

  /** Some valid device of the user's index names a key that holds no token. */
  predicate HasDangling(s: StoreState, userId: string)
  {
    var index := DevicesOf(s, userId);
    exists d :: d in index && IsValidTokenDevice(d) && index[d] !in s.tokens
  }

  /**
    The listing of the user's tokens: a valid device entry whose token is gone
    makes the GET of that key fail, and the whole listing with it.
  */
  function UserTokens(s: StoreState, userId: string): Result<map<string, RawToken>, AppError>
  {
    if HasDangling(s, userId) then Err(NewUnexpectedError(RedisNil)) else Ok(TokensOfUser(s, userId))
  }

  /** The listing succeeds exactly when every valid device entry of the user still leads to a token. */
  lemma {:induction false} UserTokensOkIff(s: StoreState, userId: string)
    ensures UserTokens(s, userId).Ok? <==>
      forall d :: d in DevicesOf(s, userId) && IsValidTokenDevice(d) ==> TokenOfDevice(s, userId, d).Some?
    ensures UserTokens(s, userId).Err? ==> UserTokens(s, userId).error == NewUnexpectedError(RedisNil)
  {
    if !HasDangling(s, userId) {
      forall d | d in DevicesOf(s, userId) && IsValidTokenDevice(d)
        ensures TokenOfDevice(s, userId, d).Some?
      {
      }
    }
  }

  /** The state after the SET of a saved record: the token is stored, the index is not yet updated. */
  function WithToken(s: StoreState, rec: TokenRecord): StoreState
  {
    s.(tokens := s.tokens[rec.token := Stored(rec)])
  }

  /** The state after the HSET of a saved record: the user's entry for its device names its key. */
  function Indexed(s: StoreState, rec: TokenRecord): StoreState
  {
    s.(devices := s.devices[rec.userId := DevicesOf(s, rec.userId)[rec.device := rec.token]])
  }

  /** A record saved in full. */
  function Saved(s: StoreState, rec: TokenRecord): StoreState
  {
    Indexed(WithToken(s, rec), rec)
  }

  /**
    The state after a token is deleted by key: the token goes, and the field
    named by the key is removed from its user's index. The index's fields are
    device names, so the device entry that pointed at the token stays.
  */
  function WithoutToken(s: StoreState, key: string): StoreState
  {
    if key !in s.tokens then s
    else
      var userId := s.tokens[key].userId;
      StoreState(s.tokens - {key},
                 if userId in s.devices then s.devices[userId := s.devices[userId] - {key}] else s.devices)
  }

  function WithoutUser(s: StoreState, userId: string): StoreState
  {
    var index := DevicesOf(s, userId);
    StoreState(s.tokens - set d | d in index :: index[d], s.devices - {userId})
  }

  /** A saved token is found by its key and by its user and device. */
  lemma {:induction false} SavedIsFound(s: StoreState, rec: TokenRecord)
    ensures TokenByKey(Saved(s, rec), rec.token) == Some(Stored(rec))
    ensures TokenOfDevice(Saved(s, rec), rec.userId, rec.device) == Some(Stored(rec))
  {
  }

  /**
    A save whose HSET fails leaves the token stored under its key, while
    every user's device index stays as it was: a device without an entry
    still has no token.
  */
  lemma {:induction false} HalfSavedIsFoundByKeyOnly(s: StoreState, rec: TokenRecord, userId: string, device: string)
    ensures TokenByKey(WithToken(s, rec), rec.token) == Some(Stored(rec))
    ensures DevicesOf(WithToken(s, rec), userId) == DevicesOf(s, userId)
    ensures device !in DevicesOf(s, userId) ==> TokenOfDevice(WithToken(s, rec), userId, device) == None
  {
  }

  /** Saving leaves every other key as it was. */
  lemma {:induction false} SaveKeepsOtherKeys(s: StoreState, rec: TokenRecord, key: string)
    requires key != rec.token
    ensures TokenByKey(Saved(s, rec), key) == TokenByKey(s, key)
  {
  }

  /** A deleted key is gone, and only that key. */
  lemma {:induction false} DeleteRemovesOnlyThatKey(s: StoreState, key: string, other: string)
    ensures TokenByKey(WithoutToken(s, key), key) == None
    ensures other != key ==> TokenByKey(WithoutToken(s, key), other) == TokenByKey(s, other)
  {
  }

  /**
    Saving a token for a valid device and then deleting it by key leaves the
    device entry pointing at nothing (unless the key happens to equal the
    device name), so listing the user's tokens fails from then on.
  */
  lemma {:induction false} DeletedTokenBreaksListing(s: StoreState, rec: TokenRecord)
    requires IsValidTokenDevice(rec.device) && rec.token != rec.device
    ensures var after := WithoutToken(Saved(s, rec), rec.token);
      && TokenByKey(after, rec.token) == None
      && rec.device in DevicesOf(after, rec.userId)
      && UserTokens(after, rec.userId) == Err(NewUnexpectedError(RedisNil))
  {
    var after := WithoutToken(Saved(s, rec), rec.token);
    assert DevicesOf(after, rec.userId)[rec.device] == rec.token;
    assert HasDangling(after, rec.userId);
  }

  /** After the user's tokens are deleted, none of them is found any more, and listing them succeeds. */
  lemma {:induction false} WithoutUserLeavesNone(s: StoreState, userId: string)
    ensures TokensOfUser(WithoutUser(s, userId), userId) == map[]
    ensures UserTokens(WithoutUser(s, userId), userId) == Ok(map[])
  {
    forall d
      ensures TokenOfDevice(WithoutUser(s, userId), userId, d).None?
    {
    }
  }

  class TokenRepository {
    var state: StoreState
    ghost var log: seq<StoreOp>
    const fault: StoreOp -> Option<AppError>

    constructor(initial: StoreState, fault: StoreOp -> Option<AppError>)
      ensures state == initial && log == [] && this.fault == fault
    {
      state := initial;
      log := [];
      this.fault := fault;
    }

    /** The answer to `op`: its fault if it has one, otherwise `value`. */
    function Answer<T>(op: StoreOp, value: T): (r: Result<T, AppError>)
      ensures r.Err? <==> fault(op).Some?
      ensures r.Err? ==> r.error == fault(op).value
      ensures r.Ok? ==> r.value == value
    {
      if fault(op).Some? then Err(fault(op).value) else Ok(value)
    }

    /**
      The token the program reads under `key`: a failed GET reads as an empty
      value, which the program takes for "no token", with the error dropped.
    */
    function TokenAt(s: StoreState, key: string): (t: Option<RawToken>)
      ensures fault(GetOp(key)).Some? ==> t == None
      ensures fault(GetOp(key)).None? ==> t == TokenByKey(s, key)
    {
      if fault(GetOp(key)).Some? then None else TokenByKey(s, key)
    }

    /** The user's token for `device` as the program reads it through the index. */
    function DeviceToken(s: StoreState, userId: string, device: string): (t: Option<RawToken>)
      ensures t.Some? ==> t == TokenOfDevice(s, userId, device)
      ensures device in DevicesOf(s, userId) && fault(GetOp(DevicesOf(s, userId)[device])).None? ==>
        t == TokenOfDevice(s, userId, device)
    {
      var index := DevicesOf(s, userId);
      if device in index then TokenAt(s, index[device]) else None
    }

    /** The error of a save: the SET's, or else the HSET's. */
    function SaveError(rec: TokenRecord): Option<AppError>
    {
      if fault(SaveOp(rec)).Some? then fault(SaveOp(rec)) else fault(IndexOp(rec))
    }

    /** The state after a save: unchanged if the SET fails, the token alone if the HSET fails. */
    function AfterSave(s: StoreState, rec: TokenRecord): StoreState
    {
      if fault(SaveOp(rec)).Some? then s
      else if fault(IndexOp(rec)).Some? then WithToken(s, rec)
      else Saved(s, rec)
    }

    /** The answer to a deletion of `key`: the GET of a missing key fails first, then the oracle decides. */
    function DeleteAnswer(s: StoreState, key: string): Result<bool, AppError>
    {
      if key !in s.tokens then Err(NewUnexpectedError(RedisNil)) else Answer(DeleteTokenOp(key), true)
    }

    /** The state after a deletion of `key`, which changes nothing when it fails. */
    function AfterDelete(s: StoreState, key: string): StoreState
    {
      if DeleteAnswer(s, key).Err? then s else WithoutToken(s, key)
    }

    /**
      Stores the token (SET), then indexes it under its user and device
      (HSET). A failed HSET leaves the token stored and returns its error.
    */
    method Save(rec: TokenRecord) returns (e: Option<AppError>)
      modifies this`state, this`log
      ensures log == old(log) + [SaveOp(rec)]
      ensures e == SaveError(rec)
      ensures state == AfterSave(old(state), rec)
      ensures e.None? ==> state == Saved(old(state), rec)
    {
      log := log + [SaveOp(rec)];
      e := fault(SaveOp(rec));
      if e.Some? {
        return;
      }
      state := WithToken(state, rec);
      e := fault(IndexOp(rec));
      if e.None? {
        state := Indexed(state, rec);
      }
    }

    /** Never an error: Ok(None) when no token is stored under `key` or its GET fails. */
    method FindByToken(key: string) returns (r: Result<Option<RawToken>, AppError>)
      modifies this`log
      ensures log == old(log) + [FindTokenOp(key)]
      ensures r == Ok(TokenAt(state, key))
    {
      log := log + [FindTokenOp(key)];
      r := Ok(TokenAt(state, key));
    }

    /** The oracle's error for the index read, otherwise the listing of the user's tokens. */
    method FindByUserID(userId: string) returns (r: Result<map<string, RawToken>, AppError>)
      modifies this`log
      ensures log == old(log) + [FindUserOp(userId)]
      ensures fault(FindUserOp(userId)).Some? ==> r == Err(fault(FindUserOp(userId)).value)
      ensures fault(FindUserOp(userId)).None? ==> r == UserTokens(state, userId)
    {
      log := log + [FindUserOp(userId)];
      if fault(FindUserOp(userId)).Some? {
        r := Err(fault(FindUserOp(userId)).value);
      } else {
        r := UserTokens(state, userId);
      }
    }

    method FindByUserIDAndDevice(userId: string, device: string) returns (r: Result<Option<RawToken>, AppError>)
      modifies this`log
      ensures log == old(log) + [FindUserDeviceOp(userId, device)]
      ensures r == Answer(FindUserDeviceOp(userId, device), DeviceToken(state, userId, device))
    {
      log := log + [FindUserDeviceOp(userId, device)];
      r := Answer(FindUserDeviceOp(userId, device), DeviceToken(state, userId, device));
    }

    /**
      Fails with "redis: nil" when no token is stored under `key`; otherwise
      the oracle's error, or Ok(true) with the token deleted.
    */
    method DeleteByToken(key: string) returns (r: Result<bool, AppError>)
      modifies this`state, this`log
      ensures log == old(log) + [DeleteTokenOp(key)]
      ensures r == DeleteAnswer(old(state), key)
      ensures state == AfterDelete(old(state), key)
    {
      log := log + [DeleteTokenOp(key)];
      if key !in state.tokens {
        return Err(NewUnexpectedError(RedisNil));
      }
      r := Answer(DeleteTokenOp(key), true);
      if r.Ok? {
        state := WithoutToken(state, key);
      }
    }

    method DeleteByUserID(userId: string) returns (e: Option<AppError>)
      modifies this`state, this`log
      ensures log == old(log) + [DeleteUserOp(userId)]
      ensures e == fault(DeleteUserOp(userId))
      ensures state == if e.Some? then old(state) else WithoutUser(old(state), userId)
    {
      log := log + [DeleteUserOp(userId)];
      e := fault(DeleteUserOp(userId));
      if e.None? {
        state := WithoutUser(state, userId);
      }
    }
  }
}
