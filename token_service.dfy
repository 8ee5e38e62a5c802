/**
  The token service: issuing a token for a user and device (reusing the
  existing key on request), reading tokens back from the store, deleting and
  renewing them, and the expiry test. The clock and the fresh token key are
  parameters; the token lifetime is a whole number of seconds fixed at
  construction.
*/
module TokenService {
  import opened Wrappers
  import opened AppErrors
  import opened AuthEntities
  import opened TokenDevice
  import opened TokenStore

  const NanosPerSecond := 1_000_000_000

  // ---------------------------------------------------------------------------
  // The user payload
  // ---------------------------------------------------------------------------

  /** The JSON object a token carries for its user. */
  function UserPayload(u: FakeUser): (p: Payload)
    ensures p.Keys == {"id", "username", "first_name", "last_name", "is_admin"}
    ensures p["last_name"].JNull? <==> u.lastName.None?
  {
    map["id" := JString(u.id), "username" := JString(u.username), "first_name" := JString(u.firstName),
        "last_name" := (if u.lastName.Some? then JString(u.lastName.value) else JNull),
        "is_admin" := JBool(u.isAdmin)]
  }

  function StringField(p: Payload, key: string): string
  {
    if key in p && p[key].JString? then p[key].s else ""
  }

  /**
    Decodes a payload into a user, ignoring decoding errors: a field that is
    absent, null or of another type keeps its zero value.
  */
  function DecodeUser(p: Payload): FakeUser
  {
    FakeUser(StringField(p, "id"), StringField(p, "first_name"),
             if "last_name" in p && p["last_name"].JString? then Some(p["last_name"].s) else None,
             StringField(p, "username"),
             "is_admin" in p && p["is_admin"].JBool? && p["is_admin"].b)
  }

  /** Decoding the payload of a user gives the user back. */
  lemma {:induction false} DecodeUserPayload(u: FakeUser)
    ensures DecodeUser(UserPayload(u)) == u
  {
  }

  /** What a stored token yields: the user comes from the payload, and so does the user identifier. */
  function FromRawToken(raw: RawToken): (t: Token)
    ensures t.user == DecodeUser(raw.payload) && t.userId == t.user.username
    ensures t.device == raw.device && t.token == raw.token && t.refreshToken == ""
    ensures t.expiresAt == raw.expiresAt && t.createdAt == raw.createdAt && t.expiracy == raw.expiracy
  {
    var user := DecodeUser(raw.payload);
    Token(raw.device, raw.token, "", user, user.username, raw.expiresAt, raw.createdAt, raw.expiracy)
  }

  /** A lookup answer with the stored token turned into a token. */
  function FindResult(r: Result<Option<RawToken>, AppError>): Result<Option<Token>, AppError>
  {
    match r
    case Err(e) => Err(e)
    case Ok(None) => Ok(None)
    case Ok(Some(raw)) => Ok(Some(FromRawToken(raw)))
  }

  // ---------------------------------------------------------------------------
  // Expiry
  // ---------------------------------------------------------------------------

  /** A token has expired when it has an expiry instant strictly before now. */
  predicate IsTokenExpired(t: Token, now: int)
  {
    t.expiresAt.Some? && t.expiresAt.value < now
  }

  // ---------------------------------------------------------------------------
  // The records saved for a new and a renewed token
  // ---------------------------------------------------------------------------

  /** The existing token's key is kept only when there is one and a renewal is asked for. */
  predicate Reuses(existing: Option<RawToken>, renew: Option<bool>)
  {
    existing.Some? && renew == Some(true)
  }

  function ChosenKey(existing: Option<RawToken>, renew: Option<bool>, freshKey: string): string
  {
    if Reuses(existing, renew) then existing.value.token else freshKey
  }

  /** The key of the existing token that is deleted before saving, if any. */
  function Dropped(existing: Option<RawToken>, renew: Option<bool>): Option<string>
  {
    if existing.Some? && !Reuses(existing, renew) then Some(existing.value.token) else None
  }

  /** A reused key means nothing is deleted; otherwise the key is fresh and any existing token goes. */
  lemma {:induction false} KeyChoice(existing: Option<RawToken>, renew: Option<bool>, freshKey: string)
    ensures Reuses(existing, renew) ==>
      Dropped(existing, renew) == None && ChosenKey(existing, renew, freshKey) == existing.value.token
    ensures !Reuses(existing, renew) ==>
      ChosenKey(existing, renew, freshKey) == freshKey
      && (Dropped(existing, renew).Some? <==> existing.Some?)
      && (existing.Some? ==> Dropped(existing, renew).value == existing.value.token)
  {
  }

  /** The record saved for a new token, created at `now` with a lifetime of `seconds` when expirable. */
  function NewTokenRecord(user: FakeUser, device: string, key: string, now: int, expirable: bool, seconds: int): TokenRecord
  {
    TokenRecord(device, key, UserPayload(user), user.username,
                if expirable then Some(now + seconds * NanosPerSecond) else None,
                now,
                if expirable then Some(seconds) else None)
  }

  /** The record saved for a renewed token: a new expiry instant only when the token has a lifetime. */
  function RenewedRecord(t: Token, now: int, seconds: int): TokenRecord
  {
    TokenRecord(t.device, t.token, UserPayload(t.user), t.userId,
                if t.expiracy.Some? then Some(now + seconds * NanosPerSecond) else None,
                t.createdAt, t.expiracy)
  }

  /**
    A new token read back carries the device, the key, the user, the
    username as user identifier, the creation instant, and an expiry exactly
    when it is expirable.
  */
  lemma {:induction false} NewTokenReadsBack(user: FakeUser, device: string, key: string, now: int, expirable: bool, seconds: int)
    ensures var t := FromRawToken(Stored(NewTokenRecord(user, device, key, now, expirable, seconds)));
      && t.device == device && t.token == key && t.user == user && t.userId == user.username && t.createdAt == now
      && (expirable ==> t.expiresAt == Some(now + seconds * NanosPerSecond) && t.expiracy == Some(seconds))
      && (!expirable ==> t.expiresAt == None && t.expiracy == None)
  {
    DecodeUserPayload(user);
  }

  /** A new token expires exactly when it is expirable and its lifetime has run out. */
  lemma {:induction false} NewTokenExpiry(user: FakeUser, device: string, key: string, now: int, expirable: bool, seconds: int, later: int)
    ensures IsTokenExpired(FromRawToken(Stored(NewTokenRecord(user, device, key, now, expirable, seconds))), later)
        <==> expirable && now + seconds * NanosPerSecond < later
  {
  }

  /** A token with a non-negative lifetime is not expired when it is made. */
  lemma {:induction false} NewTokenNotExpiredAtOnce(user: FakeUser, device: string, key: string, now: int, expirable: bool, seconds: int)
    requires seconds >= 0
    ensures !IsTokenExpired(FromRawToken(Stored(NewTokenRecord(user, device, key, now, expirable, seconds))), now)
  {
    NewTokenExpiry(user, device, key, now, expirable, seconds, now);
  }

  /**
    A renewed token read back keeps its device, key, user, creation instant
    and lifetime; it expires `seconds` after `now` if it has a lifetime and
    never otherwise. Its user identifier becomes the payload's username.
  */
  lemma {:induction false} RenewedReadsBack(t: Token, now: int, seconds: int)
    ensures FromRawToken(Stored(RenewedRecord(t, now, seconds)))
         == Token(t.device, t.token, "", t.user, t.user.username,
                  if t.expiracy.Some? then Some(now + seconds * NanosPerSecond) else None,
                  t.createdAt, t.expiracy)
  {
    DecodeUserPayload(t.user);
  }

  class TokenService {
    const repository: TokenRepository
    const expiringSeconds: int

    constructor(repository: TokenRepository, expiringSeconds: int)
      ensures this.repository == repository && this.expiringSeconds == expiringSeconds
    {
      this.repository := repository;
      this.expiringSeconds := expiringSeconds;
    }

    /** Ok(None) when no token is stored under `key`. */
    method FindByTokenKey(key: string) returns (r: Result<Option<Token>, AppError>)
      modifies repository`log
      ensures repository.log == old(repository.log) + [FindTokenOp(key)]
      ensures r == FindResult(Ok(repository.TokenAt(repository.state, key)))
    {
      var raw := repository.FindByToken(key);
      match raw {
        case Err(e) => r := Err(e);
        case Ok(None) => r := Ok(None);
        case Ok(Some(t)) => r := Ok(Some(FromRawToken(t)));
      }
    }

    method DeleteByToken(key: string) returns (r: Result<bool, AppError>)
      modifies repository`state, repository`log
      ensures repository.log == old(repository.log) + [DeleteTokenOp(key)]
      ensures key !in old(repository.state).tokens ==> r == Err(NewUnexpectedError(RedisNil))
      ensures key in old(repository.state).tokens ==> r == repository.Answer(DeleteTokenOp(key), true)
      ensures repository.state == repository.AfterDelete(old(repository.state), key)
    {
      r := repository.DeleteByToken(key);
    }

    /**
      Issues a token for `user` on `device`. An invalid device is refused
      before the store is consulted. A failed lookup is returned as is.
      Otherwise the existing token's key is reused when a renewal is asked
      for; if not, the existing token (if any) is deleted, whether or not the
      deletion succeeds, and `freshKey` is used. The new record is saved and
      the token is read back by its key; a read that fails gives no token.
    */
    method CreateByUser(user: FakeUser, device: string, expirable: bool, renew: Option<bool>, now: int, freshKey: string)
      returns (r: Result<Option<Token>, AppError>)
      modifies repository
      ensures !IsValidTokenDevice(device) ==>
        && r == Err(NewValidationError("device - invalid device"))
        && repository.state == old(repository.state) && repository.log == old(repository.log)
      ensures IsValidTokenDevice(device) && repository.fault(FindUserDeviceOp(user.username, device)).Some? ==>
        && r == Err(repository.fault(FindUserDeviceOp(user.username, device)).value)
        && repository.state == old(repository.state)
        && repository.log == old(repository.log) + [FindUserDeviceOp(user.username, device)]
      ensures IsValidTokenDevice(device) && repository.fault(FindUserDeviceOp(user.username, device)).None? ==>
        var existing := repository.DeviceToken(old(repository.state), user.username, device);
        var key := ChosenKey(existing, renew, freshKey);
        var rec := NewTokenRecord(user, device, key, now, expirable, expiringSeconds);
        var dropped := Dropped(existing, renew);
        var cleared := if dropped.Some? then repository.AfterDelete(old(repository.state), dropped.value)
                       else old(repository.state);
        var saveFault := repository.SaveError(rec);
        && repository.log == old(repository.log) + [FindUserDeviceOp(user.username, device)]
                             + (if dropped.Some? then [DeleteTokenOp(dropped.value)] else []) + [SaveOp(rec)]
                             + (if saveFault.Some? then [] else [FindTokenOp(key)])
        && repository.state == repository.AfterSave(cleared, rec)
        && r == (if saveFault.Some? then Err(saveFault.value)
                 else FindResult(Ok(repository.TokenAt(repository.state, key))))
    {
      if !IsValidTokenDevice(device) {
        return Err(NewValidationError("device - invalid device"));
      }
      var found := repository.FindByUserIDAndDevice(user.username, device);
      if found.Err? {
        return Err(found.error);
      }
      var existing := found.value;
      var key: string;
      if existing.Some? && renew == Some(true) {
        key := existing.value.token;
      } else {
        if existing.Some? {
          var _ := DeleteByToken(existing.value.token);
        }
        key := freshKey;
      }
      var rec := NewTokenRecord(user, device, key, now, expirable, expiringSeconds);
      var saved := repository.Save(rec);
      if saved.Some? {
        return Err(saved.value);
      }
      r := FindByTokenKey(key);
    }

    /**
      With no device list, deletes all of the user's tokens. With a list
      (even an empty one, whatever devices it names), reads the user's tokens,
      returning the listing's error if it fails, and deletes each one held for
      a valid device, ignoring failed deletions.
    */
    method DeleteByUserID(userId: string, devices: Option<seq<string>>) returns (e: Option<AppError>)
      modifies repository
      ensures devices.None? ==>
        && e == repository.fault(DeleteUserOp(userId))
        && repository.state == (if e.Some? then old(repository.state) else WithoutUser(old(repository.state), userId))
        && repository.log == old(repository.log) + [DeleteUserOp(userId)]
      ensures devices.Some? && repository.fault(FindUserOp(userId)).Some? ==>
        && e == repository.fault(FindUserOp(userId))
        && repository.state == old(repository.state)
        && repository.log == old(repository.log) + [FindUserOp(userId)]
      ensures devices.Some? && repository.fault(FindUserOp(userId)).None? && HasDangling(old(repository.state), userId) ==>
        && e == Some(NewUnexpectedError(RedisNil))
        && repository.state == old(repository.state)
        && repository.log == old(repository.log) + [FindUserOp(userId)]
      ensures devices.Some? && repository.fault(FindUserOp(userId)).None? && !HasDangling(old(repository.state), userId) ==>
        var m := TokensOfUser(old(repository.state), userId);
        && e == None
        && repository.state == (if DeviceApi in m then repository.AfterDelete(old(repository.state), m[DeviceApi].token)
                                else old(repository.state))
        && repository.log == old(repository.log) + [FindUserOp(userId)]
                             + (if DeviceApi in m then [DeleteTokenOp(m[DeviceApi].token)] else [])
    {
      if devices.None? {
        e := repository.DeleteByUserID(userId);
        return;
      }
      var found := repository.FindByUserID(userId);
      if found.Err? {
        return Some(found.error);
      }
      var tokens := found.value;
      ghost var s0 := repository.state;
      ghost var log0 := repository.log;
      var remaining := tokens.Keys;
      while remaining != {}
        invariant remaining <= tokens.Keys
        invariant repository.state == (if DeviceApi in tokens && DeviceApi !in remaining
                                       then repository.AfterDelete(s0, tokens[DeviceApi].token) else s0)
        invariant repository.log == log0 + (if DeviceApi in tokens && DeviceApi !in remaining
                                            then [DeleteTokenOp(tokens[DeviceApi].token)] else [])
        decreases remaining
      {
        var device :| device in remaining;
        if IsValidTokenDevice(device) {
          var _ := repository.DeleteByToken(tokens[device].token);
        }
        remaining := remaining - {device};
      }
      e := None;
    }

    /** Re-saves the token with a new expiry instant when it has a lifetime. */
    method RenewToken(t: Token, now: int) returns (e: Option<AppError>)
      modifies repository`state, repository`log
      ensures repository.log == old(repository.log) + [SaveOp(RenewedRecord(t, now, expiringSeconds))]
      ensures e == repository.SaveError(RenewedRecord(t, now, expiringSeconds))
      ensures repository.state == repository.AfterSave(old(repository.state), RenewedRecord(t, now, expiringSeconds))
      ensures e.None? ==> repository.state == Saved(old(repository.state), RenewedRecord(t, now, expiringSeconds))
    {
      e := repository.Save(RenewedRecord(t, now, expiringSeconds));
    }

    /** The user's tokens by device, each turned into a token. */
    method FindByUserID(userId: string) returns (r: Result<map<string, Token>, AppError>)
      modifies repository`log
      ensures repository.log == old(repository.log) + [FindUserOp(userId)]
      ensures repository.fault(FindUserOp(userId)).Some? ==> r == Err(repository.fault(FindUserOp(userId)).value)
      ensures repository.fault(FindUserOp(userId)).None? && HasDangling(repository.state, userId) ==>
        r == Err(NewUnexpectedError(RedisNil))
      ensures repository.fault(FindUserOp(userId)).None? && !HasDangling(repository.state, userId) ==>
        var m := TokensOfUser(repository.state, userId);
        r.Ok? && r.value.Keys == m.Keys && forall d :: d in r.value ==> r.value[d] == FromRawToken(m[d])
    {
      var found := repository.FindByUserID(userId);
      if found.Err? {
        return Err(found.error);
      }
      var raws := found.value;
      var tokens: map<string, Token> := map[];
      var remaining := raws.Keys;
      while remaining != {}
        invariant remaining <= raws.Keys
        invariant tokens.Keys == raws.Keys - remaining
        invariant forall d :: d in tokens ==> tokens[d] == FromRawToken(raws[d])
        decreases remaining
      {
        var device :| device in remaining;
        tokens := tokens[device := FromRawToken(raws[device])];
        remaining := remaining - {device};
      }
      r := Ok(tokens);
    }
  }
}
