/**
  The bearer-token middleware. An operation whose security requirements name
  the "TokenAuth" scheme needs a token: the key is the Authorization header
  without its "Bearer " prefix, the token is looked up through the token
  service, and the request goes on only with a live token whose device is
  among the scheme's scopes. Any other operation goes on untouched.
*/
module TokenMiddleware {
  import opened Wrappers
  import opened AppErrors
  import opened AuthEntities
  import opened TokenStore
  import opened TokenService

  /** One security requirement of an operation: scheme name to scopes. */
  type SecurityRequirement = map<string, seq<string>>

  const SchemeName := "TokenAuth"
  const BearerPrefix := "Bearer "

  /**
    What the middleware does with a request: hand it on to the next handler
    (with the token put in its context, or with the context unchanged), or
    write an error response. The next handler is called at most once, and
    only in the first case.
  */
  datatype Decision = Next(contextToken: Option<Token>) | Reject(status: int, message: string)

  /** The scopes of the first requirement that names the scheme, if any does. */
  function NeededScopes(security: seq<SecurityRequirement>): Option<seq<string>>
  {
    if |security| == 0 then None
    else if SchemeName in security[0] then Some(security[0][SchemeName])
    else NeededScopes(security[1..])
  }

  /** The scopes are those of the first requirement naming the scheme. */
  lemma {:induction false} NeededScopesIsFirst(security: seq<SecurityRequirement>, i: int)
    requires 0 <= i < |security| && SchemeName in security[i]
    requires forall j :: 0 <= j < i ==> SchemeName !in security[j]
    ensures NeededScopes(security) == Some(security[i][SchemeName])
    decreases i
  {
    if i > 0 {
      assert SchemeName !in security[0];
      NeededScopesIsFirst(security[1..], i - 1);
    }
  }

  /** No scopes are found exactly when no requirement names the scheme. */
  lemma {:induction false} NeededScopesNone(security: seq<SecurityRequirement>)
    ensures NeededScopes(security).None? <==> forall j :: 0 <= j < |security| ==> SchemeName !in security[j]
    decreases |security|
  {
    if |security| > 0 {
      NeededScopesNone(security[1..]);
      assert forall j :: 1 <= j < |security| ==> security[j] == security[1..][j - 1];
    }
  }

  /** Scans the requirements in order and stops at the first naming the scheme. */
  method ScanSecurity(security: seq<SecurityRequirement>) returns (neededScopes: seq<string>, required: bool)
    ensures required <==> NeededScopes(security).Some?
    ensures required ==> neededScopes == NeededScopes(security).value
    ensures !required ==> neededScopes == []
  {
    neededScopes := [];
    required := false;
    var i := 0;
    while i < |security|
      invariant 0 <= i <= |security|
      invariant NeededScopes(security) == NeededScopes(security[i..])
      invariant !required && neededScopes == []
    {
      if SchemeName in security[i] {
        neededScopes := security[i][SchemeName];
        required := true;
        break;
      }
      assert security[i..][1..] == security[i + 1..];
      i := i + 1;
    }
  }

  function TrimPrefix(s: string, prefix: string): string
  {
    if prefix <= s then s[|prefix|..] else s
  }

  function TokenKey(header: string): string
  {
    TrimPrefix(header, BearerPrefix)
  }

  /** One leading "Bearer " is removed, and only one. */
  lemma {:induction false} TokenKeyOfBearer(key: string)
    ensures TokenKey(BearerPrefix + key) == key
  {
  }

  /** A header that does not start with "Bearer " is the key itself. */
  lemma {:induction false} TokenKeyWithoutBearer(header: string)
    requires !(BearerPrefix <= header)
    ensures TokenKey(header) == header
  {
  }

  /**
    The decision chain, given the scopes (None when no token is needed), the
    Authorization header, the token service's answer for the key and the
    current instant.
  */
  function Decide(scopes: Option<seq<string>>, header: string, answer: Result<Option<Token>, AppError>, now: int): Decision
  {
    if scopes.None? then Next(None)
    else if |TokenKey(header)| == 0 then Reject(StatusUnauthorized, "Unauthorized")
    else if answer.Err? || answer.value.None? then Reject(StatusUnauthorized, "Unauthorized")
    else if IsTokenExpired(answer.value.value, now) then Reject(StatusUnauthorized, "Expired token")
    else if answer.value.value.device in scopes.value then Next(Some(answer.value.value))
    else Reject(StatusForbidden, "Forbidden")
  }

  /** Without the scheme the request goes on with its context unchanged, and only then. */
  lemma {:induction false} PassThroughIff(scopes: Option<seq<string>>, header: string, answer: Result<Option<Token>, AppError>, now: int)
    ensures Decide(scopes, header, answer, now) == Next(None) <==> scopes.None?
  {
  }

  /** "Unauthorized" answers exactly an empty key, a failed lookup or an unknown token. */
  lemma {:induction false} UnauthorizedIff(scopes: Option<seq<string>>, header: string, answer: Result<Option<Token>, AppError>, now: int)
    ensures Decide(scopes, header, answer, now) == Reject(StatusUnauthorized, "Unauthorized")
        <==> scopes.Some? && (|TokenKey(header)| == 0 || answer.Err? || answer.value.None?)
  {
  }

  /** "Expired token" answers exactly a known token that has expired. */
  lemma {:induction false} ExpiredIff(scopes: Option<seq<string>>, header: string, answer: Result<Option<Token>, AppError>, now: int)
    ensures Decide(scopes, header, answer, now) == Reject(StatusUnauthorized, "Expired token")
        <==> scopes.Some? && |TokenKey(header)| > 0 && answer.Ok? && answer.value.Some?
             && IsTokenExpired(answer.value.value, now)
  {
  }

  /** The request goes on with token `t` exactly when `t` is the live token for the key and its device is a scope. */
  lemma {:induction false} PassWithTokenIff(scopes: Option<seq<string>>, header: string, answer: Result<Option<Token>, AppError>, now: int,
                         t: Token)
    ensures Decide(scopes, header, answer, now) == Next(Some(t))
        <==> scopes.Some? && |TokenKey(header)| > 0 && answer == Ok(Some(t)) && !IsTokenExpired(t, now)
             && t.device in scopes.value
  {
  }

  /** "Forbidden" answers exactly a live token whose device is not a scope. */
  lemma {:induction false} ForbiddenIff(scopes: Option<seq<string>>, header: string, answer: Result<Option<Token>, AppError>, now: int)
    ensures Decide(scopes, header, answer, now) == Reject(StatusForbidden, "Forbidden")
        <==> scopes.Some? && |TokenKey(header)| > 0 && answer.Ok? && answer.value.Some?
             && !IsTokenExpired(answer.value.value, now) && answer.value.value.device !in scopes.value
  {
  }

  /** The only outcomes are passing on, 401 with one of two messages, and 403. */
  lemma {:induction false} OutcomesAreListed(scopes: Option<seq<string>>, header: string, answer: Result<Option<Token>, AppError>, now: int)
    ensures var d := Decide(scopes, header, answer, now);
      d.Next? || d == Reject(StatusUnauthorized, "Unauthorized") || d == Reject(StatusUnauthorized, "Expired token")
      || d == Reject(StatusForbidden, "Forbidden")
  {
  }

  /**
    The middleware for one request. The store is consulted only when the
    operation needs a token and the key is not empty.
  */
  method Authorize(service: TokenService, security: seq<SecurityRequirement>, header: string, now: int)
    returns (d: Decision)
    modifies service.repository`log
    ensures NeededScopes(security).Some? && |TokenKey(header)| > 0 ==>
      && service.repository.log == old(service.repository.log) + [FindTokenOp(TokenKey(header))]
      && d == Decide(NeededScopes(security), header,
                     FindResult(Ok(service.repository.TokenAt(service.repository.state, TokenKey(header)))),
                     now)
    ensures !(NeededScopes(security).Some? && |TokenKey(header)| > 0) ==>
      && service.repository.log == old(service.repository.log)
      && d == (if NeededScopes(security).None? then Next(None) else Reject(StatusUnauthorized, "Unauthorized"))
  {
    var neededScopes, required := ScanSecurity(security);
    if !required {
      return Next(None);
    }
    var tokenKey := TokenKey(header);
    if |tokenKey| == 0 {
      return Reject(StatusUnauthorized, "Unauthorized");
    }
    var token := service.FindByTokenKey(tokenKey);
    if token.Err? || token.value.None? {
      return Reject(StatusUnauthorized, "Unauthorized");
    }
    if IsTokenExpired(token.value.value, now) {
      return Reject(StatusUnauthorized, "Expired token");
    }
    if token.value.value.device in neededScopes {
      return Next(Some(token.value.value));
    }
    d := Reject(StatusForbidden, "Forbidden");
  }
}
