/**
  The MongoDB client repository: its identifier check, the result of each
  store answer, the listing query and the partial-update document. As for
  users, the store is a set of parameters.
*/
module ClientRepository {
  import opened Wrappers
  import opened AppErrors
  import opened Ids
  import opened CoreEntities
  import opened RepoCommon

  const DuplicateMarker := "duplicate key error collection: eventsguard.clients"
  const ListMsgs := ListMessages("Error counting clients", "Error retrieving clients", "Error decoding client",
                                 "Error with cursor iteration")

  function NotFoundById(id: string): string
  {
    "Client not found with ID: " + id
  }

  /** Looks a client up by identifier; a malformed identifier is refused before the query. */
  function GetByID(id: string, db: seq<byte> -> FindAnswer<Client>): (r: Result<Client, AppError>)
    ensures !IsObjectIdHex(id) ==> r == Err(NewValidationError("Invalid ID format"))
    ensures r.Ok? <==> IsObjectIdHex(id) && db(ObjectIdFromHex(id).value).Found?
    ensures r.Ok? ==> r.value == db(ObjectIdFromHex(id).value).doc
    ensures IsObjectIdHex(id) && db(ObjectIdFromHex(id).value).NoDocuments? ==>
      r == Err(NewNotFoundError(NotFoundById(id)))
    ensures IsObjectIdHex(id) && db(ObjectIdFromHex(id).value).FindFailed? ==>
      r == Err(NewUnexpectedError("Error retrieving client"))
  {
    FindById(id, db, NotFoundById(id), "Error retrieving client")
  }

  /** Inserts a client with a fresh identifier and reads it back by the identifier the store assigned. */
  function Create(data: CreateClientInput, id: string, insert: Client -> InsertAnswer,
                  readBack: string -> FindAnswer<Client>): (r: Result<Client, AppError>)
    ensures var a := insert(Client(id, data.code, data.name, data.isActive));
      && (a.InsertFailed? && Occurs(a.reason, DuplicateMarker) ==>
            r == Err(NewUnexpectedError("Error creating client: " + "Client already exists")))
      && (a.InsertFailed? && !Occurs(a.reason, DuplicateMarker) ==>
            r == Err(NewUnexpectedError("Error creating client: " + a.reason)))
      && (a.Inserted? ==> r == (if readBack(a.insertedId).Found? then Ok(readBack(a.insertedId).doc)
                                else Err(NewUnexpectedError("Error retrieving created client"))))
  {
    match insert(Client(id, data.code, data.name, data.isActive))
    case InsertFailed(reason) =>
      Err(NewUnexpectedError("Error creating client: " + InsertMessage(reason, DuplicateMarker, "Client already exists")))
    case Inserted(newId) =>
      match readBack(newId)
      case Found(c) => Ok(c)
      case _ => Err(NewUnexpectedError("Error retrieving created client"))
  }

  /** A search looks, case-insensitively, at the code and the name. */
  function ListFilter(search: Option<string>): Filter
  {
    Filter(map[], SearchConditions(["code", "name"], search))
  }

  method List(query: Query, count: Filter -> Option<int64>, find: (Filter, FindOptions) -> Option<Cursor<Client>>)
    returns (r: Result<Paginated<Client>, AppError>)
    ensures ListedAs(r, ListFilter(query.search), PagedOrLimited(query), count, find, ListMsgs, true)
  {
    r := ListDocuments(ListFilter(query.search), PagedOrLimited(query), count, find, ListMsgs, true);
  }

  predicate NothingSupplied(data: UpdatePartialClientInput)
  {
    data.name.None? && data.isActive.None?
  }

  /** `fields` is the "$set" document of `data`: name and is_active, each when supplied. */
  ghost predicate SetsExactly(fields: map<string, FieldValue>, data: UpdatePartialClientInput)
  {
    && fields.Keys <= {"name", "is_active"}
    && ("name" in fields <==> data.name.Some?)
    && ("is_active" in fields <==> data.isActive.Some?)
    && (data.name.Some? ==> fields["name"] == Text(data.name.value))
    && (data.isActive.Some? ==> fields["is_active"] == Flag(data.isActive.value))
  }

  /** The update is empty exactly when nothing is supplied. */
  lemma {:induction false} SetsSomething(fields: map<string, FieldValue>, data: UpdatePartialClientInput)
    requires SetsExactly(fields, data)
    ensures fields == map[] <==> NothingSupplied(data)
  {
    if data.name.Some? { assert "name" in fields; }
    if data.isActive.Some? { assert "is_active" in fields; }
  }

  method UpdateFields(data: UpdatePartialClientInput) returns (fields: map<string, FieldValue>)
    ensures SetsExactly(fields, data)
  {
    fields := map[];
    if data.name.Some? {
      fields := fields["name" := Text(data.name.value)];
    }
    if data.isActive.Some? {
      fields := fields["is_active" := Flag(data.isActive.value)];
    }
  }

  /**
    Checks that something is supplied, then the identifier, then sends the
    "$set" update and reads the client back from the updated store `db`.
    `sent` is the update sent, if any. The empty-update check after the fields
    are built never fires.
  */
  method UpdatePartialClient(id: string, data: UpdatePartialClientInput,
                             update: (seq<byte>, map<string, FieldValue>) -> bool, db: seq<byte> -> FindAnswer<Client>)
    returns (r: Result<Client, AppError>, ghost sent: Option<map<string, FieldValue>>)
    ensures NothingSupplied(data) ==> r == Err(NewValidationError("No data provided for update"))
    ensures !NothingSupplied(data) && !IsObjectIdHex(id) ==> r == Err(NewValidationError("Invalid ID format"))
    ensures sent.None? <==> NothingSupplied(data) || !IsObjectIdHex(id)
    ensures sent.Some? ==>
      && SetsExactly(sent.value, data)
      && r == (if update(ObjectIdFromHex(id).value, sent.value) then GetByID(id, db)
               else Err(NewUnexpectedError("Error updating client")))
  {
    if NothingSupplied(data) {
      return Err(NewValidationError("No data provided for update")), None;
    }
    var fields := UpdateFields(data);
    SetsSomething(fields, data);
    if |fields| == 0 {
      // The source answers "No valid fields provided for update" here; the branch is dead.
      assert false;
    }
    var oid := ObjectIdFromHex(id);
    if oid.Err? {
      return Err(NewValidationError("Invalid ID format")), None;
    }
    sent := Some(fields);
    if !update(oid.value, fields) {
      return Err(NewUnexpectedError("Error updating client")), sent;
    }
    r := GetByID(id, db);
  }
}
