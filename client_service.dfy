/**
  The client service: a thin layer over the client repository, except for the
  partial update, which emits "client:updated" with the client's identifier
  at once, running the subscribed callbacks before it returns. There is no
  permission check, and the emission's error does not reach the caller.
*/
module ClientService {
  import opened Wrappers
  import opened AppErrors
  import opened CoreEntities
  import opened RepoCommon
  import opened Signals

  datatype ClientRepositoryPort = ClientRepositoryPort(
    create: CreateClientInput -> Result<Client, AppError>,
    getByEmail: string -> Result<Client, AppError>,
    getByID: string -> Result<Client, AppError>,
    list: Query -> Result<Paginated<Client>, AppError>,
    updatePartialClient: (string, UpdatePartialClientInput) -> Result<Client, AppError>)

  const ClientUpdated := "client:updated"

  function CreateClient(repo: ClientRepositoryPort, data: CreateClientInput): Result<Client, AppError>
  {
    repo.create(data)
  }

  function GetClientByEmail(repo: ClientRepositoryPort, email: string): Result<Client, AppError>
  {
    repo.getByEmail(email)
  }

  function GetClientByID(repo: ClientRepositoryPort, id: string): Result<Client, AppError>
  {
    repo.getByID(id)
  }

  function ListClients(repo: ClientRepositoryPort, query: Query): Result<Paginated<Client>, AppError>
  {
    repo.list(query)
  }

  /**
    The repository update; on success the callbacks subscribed to patterns
    matching "client:updated" run now, in the bus's order. The queue is left
    alone, and the result is the repository's whatever the callbacks return.
  */
  method UpdatePartialClient(bus: Bus<string>, repo: ClientRepositoryPort, id: string, data: UpdatePartialClientInput,
                             run: (CallbackId, seq<string>) -> Option<string>)
    returns (r: Result<Client, AppError>, ghost order: seq<string>)
    modifies bus`trace
    ensures r == repo.updatePartialClient(id, data)
    ensures r.Err? ==> bus.trace == old(bus.trace)
    ensures r.Ok? ==>
      && IsOrdering(order, bus.subscriptions.Keys)
      && bus.trace == old(bus.trace) + Dispatch(bus.subscriptions, order, ClientUpdated, [r.value.id], run).calls
  {
    r := repo.updatePartialClient(id, data);
    order := [];
    if r.Ok? {
      var _, o := bus.Emit(ClientUpdated, [r.value.id], run);
      order := o;
    }
  }
}
