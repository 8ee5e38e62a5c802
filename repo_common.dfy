/**
  What the three MongoDB repositories share: Go's 64-bit integers, the query
  options of a paginated listing and how they are derived from the page
  numbers, the search filter, the classification of insert errors, the
  decoding of a result cursor, and the answers the database driver gives.

  The driver itself is not modelled: each call into it is a parameter giving
  its answer for the query the repository built, so the properties below say
  which query is sent and how each possible answer is turned into a result.
*/
module RepoCommon {
  import opened Wrappers
  import opened AppErrors
  import opened Ids

  // ---------------------------------------------------------------------------
  // Go integers
  // ---------------------------------------------------------------------------

  const TwoTo63: int := 0x8000_0000_0000_0000
  const TwoTo64: int := 0x1_0000_0000_0000_0000

  newtype int64 = x: int | -0x8000_0000_0000_0000 <= x < 0x8000_0000_0000_0000

  /** Two's complement wrap-around of a 64-bit result. */
  function Wrap64(x: int): (r: int64)
    ensures (r as int - x) % TwoTo64 == 0
    ensures -TwoTo63 <= x < TwoTo63 ==> r as int == x
  {
    ((x + TwoTo63) % TwoTo64 - TwoTo63) as int64
  }

  // ---------------------------------------------------------------------------
  // Listing queries
  // ---------------------------------------------------------------------------

  /** Page numbers count from 1; `None` is a parameter that was not given. */
  datatype Query = Query(page: Option<int64>, pageSize: Option<int64>, search: Option<string>)

  datatype FindOptions = FindOptions(limit: Option<int64>, skip: Option<int64>)

  function Positive(x: Option<int64>): bool
  {
    x.Some? && x.value > 0
  }

  /** The number of documents before page `page`, computed in Go's wrapping `int`. */
  function Skip(page: int64, pageSize: int64): int64
  {
    Wrap64((page as int - 1) * pageSize as int)
  }

  /** The user and client rule: a whole page when both numbers are positive, else a limit alone. */
  function PagedOrLimited(q: Query): (o: FindOptions)
    ensures Positive(q.page) && Positive(q.pageSize) ==>
      o == FindOptions(q.pageSize, Some(Skip(q.page.value, q.pageSize.value)))
    ensures !Positive(q.page) && Positive(q.pageSize) ==> o == FindOptions(q.pageSize, None)
    ensures !Positive(q.pageSize) ==> o == FindOptions(None, None)
  {
    if Positive(q.page) && Positive(q.pageSize) then
      FindOptions(Some(q.pageSize.value), Some(Skip(q.page.value, q.pageSize.value)))
    else if Positive(q.pageSize) then FindOptions(Some(q.pageSize.value), None)
    else FindOptions(None, None)
  }

  /** The event rule: a whole page when both numbers are positive, no options otherwise. */
  function PagedOnly(q: Query): (o: FindOptions)
    ensures Positive(q.page) && Positive(q.pageSize) ==>
      o == FindOptions(q.pageSize, Some(Skip(q.page.value, q.pageSize.value)))
    ensures !(Positive(q.page) && Positive(q.pageSize)) ==> o == FindOptions(None, None)
  {
    if Positive(q.page) && Positive(q.pageSize) then
      FindOptions(Some(q.pageSize.value), Some(Skip(q.page.value, q.pageSize.value)))
    else FindOptions(None, None)
  }

  /** Consecutive pages of the same size do not overlap and leave no gap, while the offsets fit. */
  lemma {:induction false} PagesTile(page: int64, pageSize: int64)
    requires page > 0 && pageSize > 0 && page < 0x7fff_ffff_ffff_ffff
    requires (page as int) * (pageSize as int) < TwoTo63
    ensures Skip(page + 1, pageSize) as int == Skip(page, pageSize) as int + pageSize as int
    ensures Skip(1, pageSize) == 0
  {
    assert 0 <= (page as int - 1) * pageSize as int < (page as int) * (pageSize as int);
  }

  /** Beyond the 64-bit range the offset wraps around, as Go's `int` does. */
  lemma SkipWraps()
    ensures Skip(0x4000_0000_0000_0001, 2) == -0x8000_0000_0000_0000
  {
  }

  // ---------------------------------------------------------------------------
  // Filters
  // ---------------------------------------------------------------------------

  /** A case-insensitive regular-expression condition on one field. */
  datatype Regex = Regex(field: string, pattern: string, options: string)

  /** A query filter: equality conditions, and an alternative of regex conditions (absent when empty). */
  datatype Filter = Filter(equals: map<string, string>, anyOf: seq<Regex>)

  predicate Searching(search: Option<string>)
  {
    search.Some? && search.value != ""
  }

  /** The "$or" of a search: one case-insensitive condition per field, in order, or none. */
  function SearchConditions(fields: seq<string>, search: Option<string>): (c: seq<Regex>)
    ensures Searching(search) ==>
      |c| == |fields| && forall i :: 0 <= i < |c| ==> c[i] == Regex(fields[i], search.value, "i")
    ensures !Searching(search) ==> c == []
  {
    if Searching(search) then seq(|fields|, i requires 0 <= i < |fields| => Regex(fields[i], search.value, "i"))
    else []
  }

  // ---------------------------------------------------------------------------
  // Driver answers
  // ---------------------------------------------------------------------------

  datatype FindAnswer<T> = Found(doc: T) | NoDocuments | FindFailed(reason: string)

  datatype InsertAnswer = Inserted(insertedId: string) | InsertFailed(reason: string)

  /** The documents a cursor yields (`None` for one that does not decode), and whether it ends in error. */
  datatype Cursor<T> = Cursor(docs: seq<Option<T>>, failed: bool)

  datatype Paginated<T> = Paginated(items: seq<T>, totalCount: int64)

  /** A value written by an update. */
  datatype FieldValue = Text(s: string) | Flag(b: bool) | IdList(ids: seq<string>)

  // ---------------------------------------------------------------------------
  // Insert errors
  // ---------------------------------------------------------------------------

  predicate StartsWith(s: string, prefix: string)
  {
    |prefix| <= |s| && s[..|prefix|] == prefix
  }

  /** Substring search, front to back. */
  predicate Contains(s: string, sub: string)
    decreases |s|
  {
    StartsWith(s, sub) || (s != [] && Contains(s[1..], sub))
  }

  /** `sub` occurs in `s` at some position. */
  ghost predicate Occurs(s: string, sub: string)
  {
    exists i :: OccursAt(s, sub, i)
  }

  predicate OccursAt(s: string, sub: string, i: int)
  {
    0 <= i <= |s| - |sub| && s[i..i + |sub|] == sub
  }

  lemma {:induction false} ContainsOccurs(s: string, sub: string)
    ensures Contains(s, sub) <==> Occurs(s, sub)
    decreases |s|
  {
    if StartsWith(s, sub) {
      assert OccursAt(s, sub, 0);
    }
    if s != [] {
      ContainsOccurs(s[1..], sub);
      if Contains(s[1..], sub) {
        var j :| OccursAt(s[1..], sub, j);
        assert j + 1 + |sub| <= |s|;
        var u, v := s[j + 1..j + 1 + |sub|], s[1..][j..j + |sub|];
        assert forall k :: 0 <= k < |sub| ==> u[k] == v[k];
        assert u == v;
        assert OccursAt(s, sub, j + 1);
      }
      if Occurs(s, sub) {
        var i :| OccursAt(s, sub, i);
        if i > 0 {
          assert s[1..][i - 1..i - 1 + |sub|] == s[i..i + |sub|];
          assert OccursAt(s[1..], sub, i - 1);
        } else {
          assert s[..|sub|] == sub;
        }
      }
    } else if Occurs(s, sub) {
      assert |sub| == 0;
    }
  }

  /** The driver's message, replaced by `friendly` when it reports a duplicate key. */
  function InsertMessage(reason: string, duplicateMarker: string, friendly: string): (m: string)
    ensures Occurs(reason, duplicateMarker) ==> m == friendly
    ensures !Occurs(reason, duplicateMarker) ==> m == reason
  {
    ContainsOccurs(reason, duplicateMarker);
    if Contains(reason, duplicateMarker) then friendly else reason
  }

  // ---------------------------------------------------------------------------
  // Lookups by identifier
  // ---------------------------------------------------------------------------

  const InvalidIdMessage := "Invalid ID format"

  /**
    A lookup by the ObjectID an identifier spells; a malformed identifier is
    refused before any query. `db` is the store's answer for each ObjectID.
  */
  function FindById<T>(id: string, db: seq<byte> -> FindAnswer<T>, notFound: string, failed: string): (r: Result<T, AppError>)
    ensures !IsObjectIdHex(id) ==> r == Err(NewValidationError(InvalidIdMessage))
    ensures IsObjectIdHex(id) ==> var a := db(ObjectIdFromHex(id).value);
      && (a.Found? ==> r == Ok(a.doc))
      && (a.NoDocuments? ==> r == Err(NewNotFoundError(notFound)))
      && (a.FindFailed? ==> r == Err(NewUnexpectedError(failed)))
  {
    var oid := ObjectIdFromHex(id);
    if oid.Err? then Err(NewValidationError(InvalidIdMessage))
    else
      match db(oid.value)
      case Found(doc) => Ok(doc)
      case NoDocuments => Err(NewNotFoundError(notFound))
      case FindFailed(_) => Err(NewUnexpectedError(failed))
  }

  // ---------------------------------------------------------------------------
  // Listings
  // ---------------------------------------------------------------------------

  /** Messages of a listing, in the order its steps can fail. */
  datatype ListMessages = ListMessages(count: string, find: string, decode: string, cursor: string)

  predicate AllDecoded<T>(docs: seq<Option<T>>)
  {
    forall i :: 0 <= i < |docs| ==> docs[i].Some?
  }

  function Values<T>(docs: seq<Option<T>>): (v: seq<T>)
    requires AllDecoded(docs)
    ensures |v| == |docs| && forall i :: 0 <= i < |v| ==> v[i] == docs[i].value
  {
    seq(|docs|, i requires 0 <= i < |docs| && docs[i].Some? => docs[i].value)
  }

  /**
    The answer of a listing, given the store's answers to the count and to the
    find for this filter and these options: the first failing step decides the
    error; otherwise the decoded documents, in cursor order, with the count.
  */
  ghost predicate ListedAs<T>(r: Result<Paginated<T>, AppError>, filter: Filter, options: FindOptions,
                              count: Filter -> Option<int64>, find: (Filter, FindOptions) -> Option<Cursor<T>>,
                              msgs: ListMessages, checkCursor: bool)
  {
    && (count(filter).None? ==> r == Err(NewUnexpectedError(msgs.count)))
    && (count(filter).Some? && find(filter, options).None? ==> r == Err(NewUnexpectedError(msgs.find)))
    && (count(filter).Some? && find(filter, options).Some? && !AllDecoded(find(filter, options).value.docs)
        ==> r == Err(NewUnexpectedError(msgs.decode)))
    && (count(filter).Some? && find(filter, options).Some? && AllDecoded(find(filter, options).value.docs)
        && checkCursor && find(filter, options).value.failed
        ==> r == Err(NewUnexpectedError(msgs.cursor)))
    && (r.Ok? <==> count(filter).Some? && find(filter, options).Some? && AllDecoded(find(filter, options).value.docs)
                   && !(checkCursor && find(filter, options).value.failed))
    && (r.Ok? ==> r.value == Paginated(Values(find(filter, options).value.docs), count(filter).value))
  }

  /** There is exactly one such answer. */
  lemma {:induction false} ListedAsUnique<T>(r1: Result<Paginated<T>, AppError>, r2: Result<Paginated<T>, AppError>, filter: Filter,
                          options: FindOptions, count: Filter -> Option<int64>,
                          find: (Filter, FindOptions) -> Option<Cursor<T>>, msgs: ListMessages, checkCursor: bool)
    requires ListedAs(r1, filter, options, count, find, msgs, checkCursor)
    requires ListedAs(r2, filter, options, count, find, msgs, checkCursor)
    ensures r1 == r2
  {
  }

  /**
    Counts, then finds, then decodes every document of the cursor in order,
    stopping at the first that does not decode; when `checkCursor` holds, an
    error the cursor reports at the end fails the listing too.
  */
  method ListDocuments<T>(filter: Filter, options: FindOptions,
                          count: Filter -> Option<int64>, find: (Filter, FindOptions) -> Option<Cursor<T>>,
                          msgs: ListMessages, checkCursor: bool)
    returns (r: Result<Paginated<T>, AppError>)
    ensures ListedAs(r, filter, options, count, find, msgs, checkCursor)
  {
    var total := count(filter);
    if total.None? {
      return Err(NewUnexpectedError(msgs.count));
    }
    var cursor := find(filter, options);
    if cursor.None? {
      return Err(NewUnexpectedError(msgs.find));
    }
    var docs := cursor.value.docs;
    var items: seq<T> := [];
    var i := 0;
    while i < |docs|
      invariant 0 <= i <= |docs|
      invariant AllDecoded(docs[..i]) && items == Values(docs[..i])
    {
      if docs[i].None? {
        return Err(NewUnexpectedError(msgs.decode));
      }
      items := items + [docs[i].value];
      i := i + 1;
    }
    assert docs[..i] == docs;
    if checkCursor && cursor.value.failed {
      return Err(NewUnexpectedError(msgs.cursor));
    }
    r := Ok(Paginated(items, total.value));
  }
}
