/**
  The records the core services and repositories pass around. Identifiers are
  their hexadecimal text; instants are nanoseconds since the epoch.
*/
module CoreEntities {
  import opened Wrappers

  datatype User = User(
    id: string,
    email: string,
    firstName: string,
    lastName: Option<string>,
    password: string,
    isAdmin: bool,
    isActive: bool,
    clients: seq<string>)

  datatype Client = Client(id: string, code: string, name: string, isActive: bool)

  datatype Retry = Retry(createdAt: int, result: string)

  datatype Event = Event(
    id: string,
    eventType: string,
    clientId: string,
    version: string,
    payload: string,
    createdAt: int,
    sendAt: Option<int>,
    retries: seq<Retry>)

  datatype CreateUserInput = CreateUserInput(
    email: string, firstName: string, lastName: Option<string>, password: string, isActive: bool)

  /** A partial update; `None` means the field was not supplied (a null JSON string or a nil pointer or slice). */
  datatype UpdatePartialAdminUserInput = UpdatePartialAdminUserInput(
    firstName: Option<string>,
    lastName: Option<string>,
    isActive: Option<bool>,
    isAdmin: Option<bool>,
    clients: Option<seq<string>>)

  datatype CreateClientInput = CreateClientInput(code: string, name: string, isActive: bool)

  datatype UpdatePartialClientInput = UpdatePartialClientInput(name: Option<string>, isActive: Option<bool>)

  datatype CreateEventInput = CreateEventInput(
    eventType: string, clientId: string, version: string, payload: string, sendAt: Option<int>)
}
