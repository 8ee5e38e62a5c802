/**
  The authentication records: the user summary carried in a token (and put in
  the request context), a token as handed out, the record saved for a new or
  renewed token, and a token as stored, whose user summary is a JSON payload.
  Instants are nanoseconds since the epoch; `expiracy` is a lifetime in seconds.
*/
module AuthEntities {
  import opened Wrappers

  datatype FakeUser = FakeUser(id: string, firstName: string, lastName: Option<string>, username: string, isAdmin: bool)

  datatype Token = Token(
    device: string,
    token: string,
    refreshToken: string,
    user: FakeUser,
    userId: string,
    expiresAt: Option<int>,
    createdAt: int,
    expiracy: Option<int>)

  /** A JSON value of the kinds a user payload holds. */
  datatype Json = JString(s: string) | JBool(b: bool) | JNull

  /** A JSON object. */
  type Payload = map<string, Json>

  /** The record handed to the store when a token is saved. */
  datatype TokenRecord = TokenRecord(
    device: string,
    token: string,
    payload: Payload,
    userId: string,
    expiresAt: Option<int>,
    createdAt: int,
    expiracy: Option<int>)

  datatype RawToken = RawToken(
    device: string,
    token: string,
    refreshToken: string,
    payload: Payload,
    userId: string,
    expiresAt: Option<int>,
    createdAt: int,
    expiracy: Option<int>)
}
