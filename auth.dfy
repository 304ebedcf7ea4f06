/**
  The access gate built by `auth(allowedRoles)`: an ordered chain of guards
  that answers 401, 403 or lets the request through. The token verifier and
  the user lookup are inputs: `verify` maps each token that verifies to the
  id it carries (a token outside it makes the verifier throw), and `users`
  maps ids to the user documents that `findById` finds.
 */
module AuthGate {
  import opened Wrappers
  import opened Strings
  import opened Models

  /** A user document with its role reference populated, or None when it does not resolve. */
  datatype UserRecord = UserRecord(role: Option<Role>)

  /** The token: the header with its first "Bearer " removed; a missing header
      gives the empty, falsy, token. */
  function Token(authorization: Option<string>): (r: string)
    ensures authorization.None? ==> r == ""
    ensures authorization.Some? && StartsWith(authorization.value, "Bearer ") ==> r == authorization.value[7..]
    ensures authorization.Some? && !Includes(authorization.value, "Bearer ") ==> r == authorization.value
  {
    match authorization
    case None => ""
    case Some(header) => ReplaceFirst(header, "Bearer ", "")
  }

  /** `req.params.id && req.params.id === decoded.id` */
  predicate SelfAccess(paramsId: Option<string>, decodedId: Id)
  {
    paramsId.Some? && paramsId.value != "" && paramsId.value == decodedId
  }

  /** The token is present, verifies, and names a user that exists. */
  predicate Authenticated(token: string, verify: map<string, Id>, users: map<Id, UserRecord>)
  {
    token != "" && token in verify && verify[token] in users
  }

  /** The middleware. On success it yields the id of the user it stores in `req.user`. */
  function Gate(allowedRoles: seq<Role>, authorization: Option<string>, verify: map<string, Id>,
                users: map<Id, UserRecord>, paramsId: Option<string>): (r: Reply<Id>)
    ensures var token := Token(authorization);
      r.Ok? <==>
        Authenticated(token, verify, users)
        && (SelfAccess(paramsId, verify[token]) || |allowedRoles| == 0
            || (users[verify[token]].role.Some? && users[verify[token]].role.value in allowedRoles))
    ensures var token := Token(authorization);
      r.Ok? ==> token in verify && r.value == verify[token]
    ensures var token := Token(authorization);
      r == Fail(Forbidden) <==>
        Authenticated(token, verify, users) && !SelfAccess(paramsId, verify[token]) && |allowedRoles| > 0
        && users[verify[token]].role.Some? && users[verify[token]].role.value !in allowedRoles
    ensures r.Fail? ==> r.error in {Unauthorized, Forbidden}
  {
    var token := Token(authorization);
    if token == "" then Fail(Unauthorized)
    // verifyToken throws; the catch answers 401
    else if token !in verify then Fail(Unauthorized)
    else
      var id := verify[token];
      if id !in users then Fail(Unauthorized)
      else if SelfAccess(paramsId, id) then Ok(id)
      // reading `user.role.name` of an unresolved role throws; the catch answers 401
      else if |allowedRoles| > 0 && users[id].role.None? then Fail(Unauthorized)
      else if |allowedRoles| > 0 && users[id].role.value !in allowedRoles then Fail(Forbidden)
      else Ok(id)
  }

  /** A missing or empty token is refused before the verifier or the user
      lookup is consulted: their answers make no difference. */
  lemma NoTokenNoLookup(allowedRoles: seq<Role>, authorization: Option<string>,
                        verify: map<string, Id>, users: map<Id, UserRecord>,
                        verify': map<string, Id>, users': map<Id, UserRecord>, paramsId: Option<string>)
    requires Token(authorization) == ""
    ensures Gate(allowedRoles, authorization, verify, users, paramsId) == Fail(Unauthorized)
    ensures Gate(allowedRoles, authorization, verify', users', paramsId) == Fail(Unauthorized)
  {
  }

  /** The usual header form: "Bearer " followed by the token yields the token. */
  lemma BearerToken(token: string)
    ensures Token(Some("Bearer " + token)) == token
  {
    var header := "Bearer " + token;
    assert header[0..7] == "Bearer ";
    assert OccursAt(header, "Bearer ", 0);
    assert IndexOf(header, "Bearer ") == Some(0);
  }

  // The role list the cancel route passes to the gate.
  const CancelOrderRoles: seq<Role> := [User, WarehouseManager, Admin]

  /** The cancel route turns a delivery agent away unless the order id in the
      path happens to equal the agent's own id, and lets an admin through. */
  lemma CancelRouteRoles(authorization: Option<string>, verify: map<string, Id>,
                         users: map<Id, UserRecord>, orderId: Id)
    requires Authenticated(Token(authorization), verify, users)
    requires orderId != verify[Token(authorization)]
    ensures users[verify[Token(authorization)]].role == Some(DeliveryAgent) ==>
      Gate(CancelOrderRoles, authorization, verify, users, Some(orderId)) == Fail(Forbidden)
    ensures users[verify[Token(authorization)]].role == Some(Admin) ==>
      Gate(CancelOrderRoles, authorization, verify, users, Some(orderId)).Ok?
  {
  }
}
