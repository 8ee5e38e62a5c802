/**
  The MongoDB user repository, down to the queries it builds and the way it
  turns the store's answers into results. The store is a set of parameters:
  `db` answers a lookup, `insert` an insertion, `update` an update, and
  `count` and `find` a listing.
*/
module UserRepository {
  import opened Wrappers
  import opened AppErrors
  import opened Ids
  import opened CoreEntities
  import opened RepoCommon

  const DuplicateMarker := "duplicate key error collection: eventsguard.users"
  const ListMsgs := ListMessages("Error counting users", "Error retrieving users", "Error decoding user",
                                 "Error with cursor iteration")

  function NotFoundById(id: string): string
  {
    "User not found with ID: " + id
  }

  /** Looks a user up by identifier; a malformed identifier is refused before the query. */
  function GetByID(id: string, db: seq<byte> -> FindAnswer<User>): (r: Result<User, AppError>)
    ensures !IsObjectIdHex(id) ==> r == Err(NewValidationError("Invalid ID format"))
    ensures r.Ok? <==> IsObjectIdHex(id) && db(ObjectIdFromHex(id).value).Found?
    ensures r.Ok? ==> r.value == db(ObjectIdFromHex(id).value).doc
    ensures IsObjectIdHex(id) && db(ObjectIdFromHex(id).value).NoDocuments? ==>
      r == Err(NewNotFoundError(NotFoundById(id)))
    ensures IsObjectIdHex(id) && db(ObjectIdFromHex(id).value).FindFailed? ==>
      r == Err(NewUnexpectedError("Error retrieving user"))
  {
    FindById(id, db, NotFoundById(id), "Error retrieving user")
  }

  // ---------------------------------------------------------------------------
  // Lookup by email
  // ---------------------------------------------------------------------------

  function LowerChar(c: char): char
  {
    if 'A' <= c <= 'Z' then (c as int - 'A' as int + 'a' as int) as char else c
  }

  /** Lower-casing, restricted to ASCII letters. */
  function ToLower(s: string): (t: string)
    ensures |t| == |s| && forall i :: 0 <= i < |s| ==> t[i] == LowerChar(s[i])
  {
    seq(|s|, i requires 0 <= i < |s| => LowerChar(s[i]))
  }

  /** The email is lower-cased before the query; `db` answers for the email queried. */
  function GetByEmail(email: string, db: string -> FindAnswer<User>): (r: Result<User, AppError>)
    ensures r.Ok? <==> db(ToLower(email)).Found?
    ensures r.Ok? ==> r.value == db(ToLower(email)).doc
    ensures db(ToLower(email)).NoDocuments? ==> r == Err(NewNotFoundError("User  not found"))
    ensures db(ToLower(email)).FindFailed? ==> r == Err(NewUnexpectedError("Error retrieving user"))
  {
    match db(ToLower(email))
    case Found(u) => Ok(u)
    case NoDocuments => Err(NewNotFoundError("User  not found"))
    case FindFailed(_) => Err(NewUnexpectedError("Error retrieving user"))
  }

  lemma {:induction false} ToLowerIdempotent(s: string)
    ensures ToLower(ToLower(s)) == ToLower(s)
  {
  }

  /** Emails that differ only in letter case find the same user. */
  lemma {:induction false} GetByEmailIgnoresCase(e1: string, e2: string, db: string -> FindAnswer<User>)
    requires ToLower(e1) == ToLower(e2)
    ensures GetByEmail(e1, db) == GetByEmail(e2, db)
  {
  }

  lemma {:induction false} GetByEmailOfLowered(email: string, db: string -> FindAnswer<User>)
    ensures GetByEmail(ToLower(email), db) == GetByEmail(email, db)
  {
    ToLowerIdempotent(email);
  }

  // ---------------------------------------------------------------------------
  // Creation
  // ---------------------------------------------------------------------------

  /**
    The document a creation inserts: a fresh identifier, the password hash
    (`hashed` is None when hashing failed), never an administrator, no clients.
  */
  function NewUser(data: CreateUserInput, id: string, hashed: Option<string>): (u: Option<User>)
    ensures u.Some? <==> hashed.Some?
    ensures u.Some? ==> && u.value.id == id && u.value.email == data.email && u.value.firstName == data.firstName
                        && u.value.lastName == data.lastName && u.value.password == hashed.value
                        && !u.value.isAdmin && u.value.isActive == data.isActive && u.value.clients == []
  {
    if hashed.None? then None
    else Some(User(id, data.email, data.firstName, data.lastName, hashed.value, false, data.isActive, []))
  }

  /** Inserts the new user and reads it back by the identifier the store assigned. */
  function Create(data: CreateUserInput, id: string, hashed: Option<string>,
                  insert: User -> InsertAnswer, readBack: string -> FindAnswer<User>): (r: Result<User, AppError>)
    ensures hashed.None? ==> r == Err(NewUnexpectedError("Error creating user"))
    ensures hashed.Some? ==> var a := insert(NewUser(data, id, hashed).value);
      && (a.InsertFailed? && Occurs(a.reason, DuplicateMarker) ==>
            r == Err(NewUnexpectedError("Error creating user: " + "User already exists")))
      && (a.InsertFailed? && !Occurs(a.reason, DuplicateMarker) ==>
            r == Err(NewUnexpectedError("Error creating user: " + a.reason)))
      && (a.Inserted? ==> r == (if readBack(a.insertedId).Found? then Ok(readBack(a.insertedId).doc)
                                else Err(NewUnexpectedError("Error retrieving created user"))))
  {
    var doc := NewUser(data, id, hashed);
    if doc.None? then Err(NewUnexpectedError("Error creating user"))
    else
      match insert(doc.value)
      case InsertFailed(reason) =>
        Err(NewUnexpectedError("Error creating user: " + InsertMessage(reason, DuplicateMarker, "User already exists")))
      case Inserted(newId) =>
        match readBack(newId)
        case Found(u) => Ok(u)
        case _ => Err(NewUnexpectedError("Error retrieving created user"))
  }

  /**
    The stored email keeps its case while the lookup lower-cases. With a store
    that answers only for the email a user was created with, that user is
    found by that same email iff the email has no upper-case letter; any other
    email gives "User  not found".
  */
  lemma {:induction false} MixedCaseEmailNotFound(data: CreateUserInput, id: string, hashed: Option<string>,
                                                  db: string -> FindAnswer<User>)
    requires hashed.Some?
    requires forall e :: db(e) == if e == data.email then Found(NewUser(data, id, hashed).value) else NoDocuments
    ensures GetByEmail(data.email, db).Ok? <==> ToLower(data.email) == data.email
    ensures ToLower(data.email) == data.email ==> GetByEmail(data.email, db) == Ok(NewUser(data, id, hashed).value)
    ensures ToLower(data.email) != data.email ==> GetByEmail(data.email, db) == Err(NewNotFoundError("User  not found"))
  {
  }

  // ---------------------------------------------------------------------------
  // Listing
  // ---------------------------------------------------------------------------

  /** A search looks, case-insensitively, at the first name, the last name and the email. */
  function ListFilter(search: Option<string>): Filter
  {
    Filter(map[], SearchConditions(["first_name", "last_name", "email"], search))
  }

  method List(query: Query, count: Filter -> Option<int64>, find: (Filter, FindOptions) -> Option<Cursor<User>>)
    returns (r: Result<Paginated<User>, AppError>)
    ensures ListedAs(r, ListFilter(query.search), PagedOrLimited(query), count, find, ListMsgs, true)
  {
    r := ListDocuments(ListFilter(query.search), PagedOrLimited(query), count, find, ListMsgs, true);
  }

  // ---------------------------------------------------------------------------
  // Partial update
  // ---------------------------------------------------------------------------

  predicate NothingSupplied(data: UpdatePartialAdminUserInput)
  {
    data.firstName.None? && data.lastName.None? && data.isActive.None? && data.isAdmin.None? && data.clients.None?
  }

  /** `fields` is the "$set" document of `data`: one entry per supplied field, holding the supplied value. */
  ghost predicate SetsExactly(fields: map<string, FieldValue>, data: UpdatePartialAdminUserInput)
  {
    && fields.Keys <= {"first_name", "last_name", "is_active", "is_admin", "clients"}
    && ("first_name" in fields <==> data.firstName.Some?)
    && ("last_name" in fields <==> data.lastName.Some?)
    && ("is_active" in fields <==> data.isActive.Some?)
    && ("is_admin" in fields <==> data.isAdmin.Some?)
    && ("clients" in fields <==> data.clients.Some?)
    && (data.firstName.Some? ==> fields["first_name"] == Text(data.firstName.value))
    && (data.lastName.Some? ==> fields["last_name"] == Text(data.lastName.value))
    && (data.isActive.Some? ==> fields["is_active"] == Flag(data.isActive.value))
    && (data.isAdmin.Some? ==> fields["is_admin"] == Flag(data.isAdmin.value))
    && (data.clients.Some? ==> fields["clients"] == IdList(data.clients.value))
  }

  /** A supplied field always yields an entry, so the update is never empty. */
  lemma {:induction false} SetsSomething(fields: map<string, FieldValue>, data: UpdatePartialAdminUserInput)
    requires SetsExactly(fields, data)
    ensures fields == map[] <==> NothingSupplied(data)
  {
    if data.firstName.Some? { assert "first_name" in fields; }
    if data.lastName.Some? { assert "last_name" in fields; }
    if data.isActive.Some? { assert "is_active" in fields; }
    if data.isAdmin.Some? { assert "is_admin" in fields; }
    if data.clients.Some? { assert "clients" in fields; }
  }

  method UpdateFields(data: UpdatePartialAdminUserInput) returns (fields: map<string, FieldValue>)
    ensures SetsExactly(fields, data)
  {
    fields := map[];
    if data.firstName.Some? {
      fields := fields["first_name" := Text(data.firstName.value)];
    }
    if data.lastName.Some? {
      fields := fields["last_name" := Text(data.lastName.value)];
    }
    if data.isActive.Some? {
      fields := fields["is_active" := Flag(data.isActive.value)];
    }
    if data.isAdmin.Some? {
      fields := fields["is_admin" := Flag(data.isAdmin.value)];
    }
    if data.clients.Some? {
      fields := fields["clients" := IdList(data.clients.value)];
    }
  }

  /**
    Checks that something is supplied, then the identifier, then sends the
    "$set" update (`update` says whether the store accepted it) and reads the
    user back from the updated store `db`. `sent` is the update sent, if any.
    The empty-update check after the fields are built never fires.
  */
  method UpdatePartialUser(id: string, data: UpdatePartialAdminUserInput,
                           update: (seq<byte>, map<string, FieldValue>) -> bool, db: seq<byte> -> FindAnswer<User>)
    returns (r: Result<User, AppError>, ghost sent: Option<map<string, FieldValue>>)
    ensures NothingSupplied(data) ==> r == Err(NewValidationError("No data provided for update"))
    ensures !NothingSupplied(data) && !IsObjectIdHex(id) ==> r == Err(NewValidationError("Invalid ID format"))
    ensures sent.None? <==> NothingSupplied(data) || !IsObjectIdHex(id)
    ensures sent.Some? ==>
      && SetsExactly(sent.value, data)
      && r == (if update(ObjectIdFromHex(id).value, sent.value) then GetByID(id, db)
               else Err(NewUnexpectedError("Error updating user")))
  {
    if NothingSupplied(data) {
      return Err(NewValidationError("No data provided for update")), None;
    }
    var fields := UpdateFields(data);
    SetsSomething(fields, data);
    if |fields| == 0 {
      // The source answers "No valid fields provided for update" here; the branch is dead.
      assert false;
    }
    var oid := ObjectIdFromHex(id);
    if oid.Err? {
      return Err(NewValidationError("Invalid ID format")), None;
    }
    sent := Some(fields);
    if !update(oid.value, fields) {
      return Err(NewUnexpectedError("Error updating user")), sent;
    }
    r := GetByID(id, db);
  }
}
