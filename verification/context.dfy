/** The per-request identity resolver: reads the bearer token of the
    `Authorization` header, verifies it, and builds the request context. A
    missing token means an anonymous request; a token that is present but
    does not verify fails the whole request. */
module Context {
  import opened Base
  import opened Text
  import opened Crypto

  /** The closed set of roles an authenticated identity can carry. */
  datatype Role = Admin | Agent | Client

  function RoleName(r: Role): string {
    match r
    case Admin => "ADMIN"
    case Agent => "AGENT"
    case Client => "CLIENT"
  }

  /** Reads a role claim: exactly one of the three names, case-sensitive. */
  function ParseRole(s: string): (r: Option<Role>)
    ensures r.Some? <==> (s == "ADMIN" || s == "AGENT" || s == "CLIENT")
    ensures r.Some? ==> RoleName(r.value) == s
  {
    if s == "ADMIN" then Some(Admin)
    else if s == "AGENT" then Some(Agent)
    else if s == "CLIENT" then Some(Client)
    else None
  }

  /** Every role survives the trip through its name. */
  lemma ParseRoleName(r: Role)
    ensures ParseRole(RoleName(r)) == Some(r)
  {
  }

  /** The authenticated identity of a request. */
  datatype AuthUser = AuthUser(id: string, role: Role)

  /** The request headers the resolver reads. */
  datatype Headers = Headers(authorization: Option<string>, requestId: Option<string>)

  /** The context every resolver of the request sees. */
  datatype RequestContext = RequestContext(requestId: string, user: Option<AuthUser>)

  /** The error that fails a request, tagged with its request id. */
  datatype ContextError = ContextError(code: ErrorCode, requestId: string)

  /** `h` is `"Bearer "`, then `token`, then either the end or a space. */
  predicate IsBearerHeaderOf(h: string, token: string) {
    var n := |"Bearer "|;
    && |h| >= n + |token|
    && h[..n] == "Bearer "
    && h[n..n + |token|] == token
    && (|h| == n + |token| || h[n + |token|] == ' ')
  }

  /** getBearerToken: splits the header on spaces and takes the second piece
      when the first is exactly `Bearer` and the second is not empty. */
  function GetBearerToken(authHeader: Option<string>): (r: Option<string>)
    ensures authHeader == None || authHeader == Some("") ==> r == None
    ensures r.Some? ==> IsWord(r.value) && IsBearerHeaderOf(authHeader.value, r.value)
  {
    match authHeader
    case None => None
    case Some(h) =>
      if h == "" then None
      else
        var parts := Split(h, ' ');
        if parts[0] != "Bearer" || |parts| < 2 || parts[1] == "" then None
        else
          var t := parts[1];
          assert t == Split(h, ' ')[1];
          BearerPieces(h);
          Some(t)
  }

  /** How the first two pieces of a split header sit in the header. */
  lemma {:induction false} BearerPieces(h: string)
    requires |Split(h, ' ')| >= 2 && Split(h, ' ')[0] == "Bearer"
    ensures IsBearerHeaderOf(h, Split(h, ' ')[1])
  {
    var parts := Split(h, ' ');
    JoinSplit(h, ' ');
    var t := parts[1];
    if |parts| == 2 {
      assert h == "Bearer" + [' '] + t;
    } else {
      assert Join(parts, ' ') == parts[0] + [' '] + Join(parts[1..], ' ');
      assert Join(parts[1..], ' ') == t + [' '] + Join(parts[2..], ' ');
      assert h == "Bearer" + [' '] + t + [' '] + Join(parts[2..], ' ');
    }
  }

  /** The token is found exactly in a header of the form `Bearer <token>`
      or `Bearer <token> <anything>` with a non-empty, space-free token. */
  lemma {:induction false} BearerTokenCharacterization(h: string, token: string)
    ensures GetBearerToken(Some(h)) == Some(token)
            <==> IsWord(token) && IsBearerHeaderOf(h, token)
  {
    if IsWord(token) && IsBearerHeaderOf(h, token) {
      var rest := h[|"Bearer "| + |token|..];
      assert h == "Bearer" + [' '] + (token + rest);
      SplitAtFirstSeparator("Bearer", ' ', token + rest);
      if rest == "" {
        assert token + rest == token;
        SplitNoSeparator(token, ' ');
      } else {
        assert token + rest == token + [' '] + rest[1..];
        SplitAtFirstSeparator(token, ' ', rest[1..]);
      }
    }
  }

  /** The plain form `Bearer abc` yields `abc`.
      The literal is passed as a parameter fixed by the precondition, so
      that the verifier does not unfold the functions on it eagerly. */
  lemma BearerPlain(h: string)
    requires h == "Bearer abc"
    ensures GetBearerToken(Some(h)) == Some("abc")
  {
    assert h == "Bearer" + [' '] + "abc";
    SplitAtFirstSeparator("Bearer", ' ', "abc");
    SplitNoSeparator("abc", ' ');
  }

  /** A token ends at the next space: `Bearer a b` yields `a`.
      The literal is passed as a parameter fixed by the precondition, so
      that the verifier does not unfold the functions on it eagerly. */
  lemma BearerStopsAtSpace(h: string)
    requires h == "Bearer a b"
    ensures GetBearerToken(Some(h)) == Some("a")
  {
    assert h == "Bearer" + [' '] + "a b";
    SplitAtFirstSeparator("Bearer", ' ', "a b");
    assert "a b" == "a" + [' '] + "b";
    SplitAtFirstSeparator("a", ' ', "b");
  }

  /** A doubled space leaves an empty second piece, so no token.
      The literal is passed as a parameter fixed by the precondition, so
      that the verifier does not unfold the functions on it eagerly. */
  lemma BearerDoubleSpace(h: string)
    requires h == "Bearer  a"
    ensures GetBearerToken(Some(h)) == None
  {
    assert h == "Bearer" + [' '] + (" a");
    SplitAtFirstSeparator("Bearer", ' ', " a");
    assert " a" == "" + [' '] + "a";
    SplitAtFirstSeparator("", ' ', "a");
  }

  /** The scheme is compared case-sensitively.
      The literal is passed as a parameter fixed by the precondition, so
      that the verifier does not unfold the functions on it eagerly. */
  lemma BearerSchemeCaseSensitive(h: string)
    requires h == "bearer abc"
    ensures GetBearerToken(Some(h)) == None
  {
    assert h == "bearer" + [' '] + "abc";
    SplitAtFirstSeparator("bearer", ' ', "abc");
    assert "bearer" != "Bearer" by { assert "bearer"[0] != "Bearer"[0]; }
  }

  /** A scheme with no token after it yields none. */
  lemma BearerWithoutToken()
    ensures GetBearerToken(Some("Bearer")) == None
    ensures GetBearerToken(Some("Bearer ")) == None
  {
    SplitNoSeparator("Bearer", ' ');
    assert "Bearer " == "Bearer" + [' '] + "";
    SplitAtFirstSeparator("Bearer", ' ', "");
    assert Split("", ' ') == [""];
  }

  /** Why `verifyToken` throws: `jwtVerify` rejected the token, or the
      payload lacks a non-empty string subject or a known role. */
  datatype VerifyFailure = JwtRejected(reason: JwtRejection) | InvalidPayload

  /** The payload shape `verifyToken` accepts, and the identity it carries. */
  predicate PayloadNames(p: Payload, user: AuthUser) {
    p.sub == Str(user.id) && user.id != "" && p.role == Str(RoleName(user.role))
  }

  /** verifyToken: `jwtVerify`, then the payload shape check. */
  function VerifyToken(jwt: Jwt, token: string, now: int): (r: Result<AuthUser, VerifyFailure>)
    ensures r.Success? <==> (JwtVerify(jwt, token, now).Success?
                             && exists u :: PayloadNames(JwtVerify(jwt, token, now).value, u))
    ensures r.Success? ==> PayloadNames(JwtVerify(jwt, token, now).value, r.value)
    ensures JwtVerify(jwt, token, now).Failure? ==> r == Failure(JwtRejected(JwtVerify(jwt, token, now).error))
  {
    match JwtVerify(jwt, token, now)
    case Failure(e) => Failure(JwtRejected(e))
    case Success(p) =>
      var id := if p.sub.Str? then p.sub.text else "";
      var role := if p.role.Str? then ParseRole(p.role.text) else None;
      if id == "" || role.None? then
        assert forall u :: !PayloadNames(p, u) by {
          forall u | PayloadNames(p, u) ensures false {
            ParseRoleName(u.role);
          }
        }
        Failure(InvalidPayload)
      else
        assert PayloadNames(p, AuthUser(id, role.value));
        Success(AuthUser(id, role.value))
  }

  /** A payload whose role claim names none of the three roles is rejected,
      whatever else it holds. */
  lemma UnknownRoleRejected(jwt: Jwt, token: string, now: int)
    requires jwt.verify(token).Some?
    requires var role := jwt.verify(token).value.role;
             !(role.Str? && ParseRole(role.text).Some?)
    ensures VerifyToken(jwt, token, now).Failure?
  {
  }

  /** buildContext: the request id is the `x-request-id` header or a fresh
      one; no token leaves the request anonymous; a present token must verify,
      and its identity becomes the context's user. */
  function BuildContext(headers: Headers, jwt: Jwt, now: int, freshId: string): (r: Result<RequestContext, ContextError>)
    ensures var id := headers.requestId.GetOr(freshId);
            (r.Success? ==> r.value.requestId == id) && (r.Failure? ==> r.error.requestId == id)
    ensures GetBearerToken(headers.authorization).None? ==> r.Success? && r.value.user.None?
    ensures GetBearerToken(headers.authorization).Some? ==>
              var v := VerifyToken(jwt, GetBearerToken(headers.authorization).value, now);
              && (v.Failure? ==> r.Failure? && r.error.code == Unauthenticated)
              && (v.Success? ==> r.Success? && r.value.user == Some(v.value))
  {
    var requestId := headers.requestId.GetOr(freshId);
    match GetBearerToken(headers.authorization)
    case None => Success(RequestContext(requestId, None))
    case Some(token) =>
      match VerifyToken(jwt, token, now)
      case Failure(_) => Failure(ContextError(Unauthenticated, requestId))
      case Success(user) => Success(RequestContext(requestId, Some(user)))
  }

  /** Fail-closed: a request is anonymous only when it carries no token, and
      authenticated only with an identity its token verifies to. */
  lemma {:induction false} NoAnonymousFallback(headers: Headers, jwt: Jwt, now: int, freshId: string)
    ensures var r := BuildContext(headers, jwt, now, freshId);
            r.Success? && r.value.user.None? <==> GetBearerToken(headers.authorization).None?
    ensures var r := BuildContext(headers, jwt, now, freshId);
            r.Success? && r.value.user.Some? ==>
              exists token :: GetBearerToken(headers.authorization) == Some(token)
                              && VerifyToken(jwt, token, now) == Success(r.value.user.value)
    ensures var r := BuildContext(headers, jwt, now, freshId);
            r.Failure? ==> r.error.code == Unauthenticated && GetBearerToken(headers.authorization).Some?
  {
    var r := BuildContext(headers, jwt, now, freshId);
    match GetBearerToken(headers.authorization)
    case None =>
    case Some(token) =>
      if r.Success? && r.value.user.Some? {
        assert VerifyToken(jwt, token, now) == Success(r.value.user.value);
      }
  }

  /** The token round trip: a token issued for a non-empty id and one of the
      three role names, presented as `Bearer <token>` before it expires,
      authenticates the request as exactly that identity; once expired it
      fails the request. */
  lemma {:induction false} IssuedTokenAuthenticates(jwt: Jwt, id: string, role: Role, iat: int, now: int, requestId: Option<string>, freshId: string)
    requires SoundJwt(jwt)
    requires id != ""
    ensures var token := Encode(jwt, SignToken(id, RoleName(role), iat));
            var r := BuildContext(Headers(Some("Bearer " + token), requestId), jwt, now, freshId);
            && (now < iat + TokenLifetime ==> r.Success? && r.value.user == Some(AuthUser(id, role)))
            && (iat + TokenLifetime <= now ==> r.Failure? && r.error.code == Unauthenticated)
  {
    var token := Encode(jwt, SignToken(id, RoleName(role), iat));
    assert IsCompact(jwt.sign(ToPayload(SignToken(id, RoleName(role), iat))));
    var h := "Bearer " + token;
    assert h[..|"Bearer "|] == "Bearer " && h[|"Bearer "|..|"Bearer "| + |token|] == token;
    BearerTokenCharacterization(h, token);
    IssuedTokenWindow(jwt, id, RoleName(role), iat, now);
    ParseRoleName(role);
  }
}
