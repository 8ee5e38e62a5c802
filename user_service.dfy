/**
  The user service: a thin layer over the user repository, except for the
  partial update, which checks who is asking and, once the repository has
  applied the update, queues a "user:updated" signal carrying the user's
  identifier for the end of the request.

  The repository is the port the service is given: one answer per operation
  and input.
*/
module UserService {
  import opened Wrappers
  import opened AppErrors
  import opened CoreEntities
  import opened RepoCommon
  import opened AuthEntities
  import opened Signals

  datatype UserRepositoryPort = UserRepositoryPort(
    create: CreateUserInput -> Result<User, AppError>,
    getByEmail: string -> Result<User, AppError>,
    getByID: string -> Result<User, AppError>,
    list: Query -> Result<Paginated<User>, AppError>,
    updatePartialUser: (string, UpdatePartialAdminUserInput) -> Result<User, AppError>)

  const UserUpdated := "user:updated"
  const ForbiddenMessage := "Forbidden: user cannot update other users"

  function CreateUser(repo: UserRepositoryPort, data: CreateUserInput): Result<User, AppError>
  {
    repo.create(data)
  }

  function GetUserByEmail(repo: UserRepositoryPort, email: string): Result<User, AppError>
  {
    repo.getByEmail(email)
  }

  function GetUserByID(repo: UserRepositoryPort, id: string): Result<User, AppError>
  {
    repo.getByID(id)
  }

  function ListUsers(repo: UserRepositoryPort, query: Query): Result<Paginated<User>, AppError>
  {
    repo.list(query)
  }

  /**
    Who may update user `id`: anybody when the context holds no user (the
    command-line path), otherwise an administrator or that very user.
  */
  predicate MayUpdate(responsible: Option<FakeUser>, id: string)
  {
    responsible.None? || responsible.value.isAdmin || responsible.value.id == id
  }

  /** A user who is not an administrator may update exactly one user: themself. */
  lemma {:induction false} OrdinaryUserUpdatesOnlySelf(u: FakeUser, id: string)
    requires !u.isAdmin
    ensures MayUpdate(Some(u), id) <==> id == u.id
  {
  }

  /**
    The permission check, then the repository update; on success one
    "user:updated" event with the user's identifier is queued (or dropped,
    with the error ignored, when nothing listens to that topic). No callback
    runs here. `consulted` says whether the repository was called.
  */
  method UpdatePartialUser(bus: Bus<string>, repo: UserRepositoryPort, responsible: Option<FakeUser>,
                           id: string, data: UpdatePartialAdminUserInput)
    returns (r: Result<User, AppError>, ghost consulted: bool)
    modifies bus`queue
    ensures consulted <==> MayUpdate(responsible, id)
    ensures !MayUpdate(responsible, id) ==>
      r == Err(NewPermissionDeniedError(ForbiddenMessage)) && bus.queue == old(bus.queue)
    ensures MayUpdate(responsible, id) ==> r == repo.updatePartialUser(id, data)
    ensures r.Ok? && bus.HasMatchingSubscription(UserUpdated) ==>
      bus.queue == old(bus.queue) + [Signals.Event(UserUpdated, [r.value.id])]
    ensures !(r.Ok? && bus.HasMatchingSubscription(UserUpdated)) ==> bus.queue == old(bus.queue)
  {
    if responsible.Some? {
      if !responsible.value.isAdmin && responsible.value.id != id {
        return Err(NewPermissionDeniedError(ForbiddenMessage)), false;
      }
    }
    consulted := true;
    r := repo.updatePartialUser(id, data);
    if r.Ok? {
      var _ := bus.AfterTransaction(UserUpdated, [r.value.id]);
    }
  }
}
