/**
  The MongoDB event repository. Every query is scoped to one client: a lookup
  matches both the event identifier and the client identifier, a listing
  always filters on the client, and a created event belongs to the client it
  was created for.
*/
module EventRepository {
  import opened Wrappers
  import opened AppErrors
  import opened Ids
  import opened CoreEntities
  import opened RepoCommon

  const DuplicateMarker := "duplicate key error collection"
  /** The count message names clients, as the source does. The listing does not check the cursor's final error. */
  const ListMsgs := ListMessages("Error counting clients", "Error retrieving events", "Error decoding event", "")

  function NotFoundById(eventId: string): string
  {
    "Event not found with ID: " + eventId
  }

  /** `db` answers a query on the pair (ObjectID, client identifier). */
  function GetByID(clientId: string, eventId: string, db: (seq<byte>, string) -> FindAnswer<Event>): (r: Result<Event, AppError>)
    ensures !IsObjectIdHex(eventId) ==> r == Err(NewValidationError("Invalid ID format"))
    ensures IsObjectIdHex(eventId) ==> var a := db(ObjectIdFromHex(eventId).value, clientId);
      && (a.Found? ==> r == Ok(a.doc))
      && (a.NoDocuments? ==> r == Err(NewNotFoundError(NotFoundById(eventId))))
      && (a.FindFailed? ==> r == Err(NewUnexpectedError("Error retrieving event")))
  {
    FindById(eventId, oid => db(oid, clientId), NotFoundById(eventId), "Error retrieving event")
  }

  /** An event of another client is never returned, whatever the identifier. */
  lemma {:induction false} GetByIDScopedToClient(clientId: string, eventId: string, db: (seq<byte>, string) -> FindAnswer<Event>)
    requires forall oid, c :: db(oid, c).Found? ==> db(oid, c).doc.clientId == c
    ensures GetByID(clientId, eventId, db).Ok? ==> GetByID(clientId, eventId, db).value.clientId == clientId
  {
  }

  /** The event a creation inserts: it belongs to `clientId`, whatever the input names. */
  function NewEvent(clientId: string, data: CreateEventInput, id: string, now: int): (e: Event)
    ensures && e.id == id && e.eventType == data.eventType && e.clientId == clientId && e.version == data.version
            && e.payload == data.payload && e.createdAt == now && e.sendAt == data.sendAt && e.retries == []
  {
    Event(id, data.eventType, clientId, data.version, data.payload, now, data.sendAt, [])
  }

  function Create(clientId: string, data: CreateEventInput, id: string, now: int,
                  insert: Event -> InsertAnswer, readBack: string -> FindAnswer<Event>): (r: Result<Event, AppError>)
    ensures var a := insert(NewEvent(clientId, data, id, now));
      && (a.InsertFailed? && Occurs(a.reason, DuplicateMarker) ==>
            r == Err(NewUnexpectedError("Error creating event: " + "Event already exists")))
      && (a.InsertFailed? && !Occurs(a.reason, DuplicateMarker) ==>
            r == Err(NewUnexpectedError("Error creating event: " + a.reason)))
      && (a.Inserted? ==> r == (if readBack(a.insertedId).Found? then Ok(readBack(a.insertedId).doc)
                                else Err(NewUnexpectedError("Error retrieving created event"))))
  {
    match insert(NewEvent(clientId, data, id, now))
    case InsertFailed(reason) =>
      Err(NewUnexpectedError("Error creating event: " + InsertMessage(reason, DuplicateMarker, "Event already exists")))
    case Inserted(newId) =>
      match readBack(newId)
      case Found(e) => Ok(e)
      case _ => Err(NewUnexpectedError("Error retrieving created event"))
  }

  /** Two inputs that differ only in the client they name insert the same event. */
  lemma {:induction false} CreateIgnoresInputClient(clientId: string, data: CreateEventInput, other: string, id: string, now: int)
    ensures NewEvent(clientId, data, id, now) == NewEvent(clientId, data.(clientId := other), id, now)
  {
  }

  /** The listing filter: always the client, and a search over type and payload when one is given. */
  function ListFilter(clientId: string, search: Option<string>): (f: Filter)
    ensures f.equals == map["client_id" := clientId]
    ensures Searching(search) ==> |f.anyOf| == 2 && f.anyOf[0].field == "type" && f.anyOf[1].field == "payload"
    ensures !Searching(search) ==> f.anyOf == []
  {
    var filter := Filter(map["client_id" := clientId], []);
    if Searching(search) then filter.(anyOf := SearchConditions(["type", "payload"], search)) else filter
  }

  /** The event type of the query is not used. */
  method List(clientId: string, query: Query, eventType: Option<string>,
              count: Filter -> Option<int64>, find: (Filter, FindOptions) -> Option<Cursor<Event>>)
    returns (r: Result<Paginated<Event>, AppError>)
    ensures ListedAs(r, ListFilter(clientId, query.search), PagedOnly(query), count, find, ListMsgs, false)
  {
    r := ListDocuments(ListFilter(clientId, query.search), PagedOnly(query), count, find, ListMsgs, false);
  }
}
