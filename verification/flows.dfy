/** Properties of whole flows: issuing a token at login or registration,
    presenting it on a later request, and calling the protected listing. */
module Flows {
  import opened Base
  import opened Text
  import opened Crypto
  import opened UserRepo
  import opened AuthService
  import opened Context
  import opened UserService

  /** The header a client sends with a token it was given. */
  function BearerHeaders(jwt: Jwt, token: Token, requestId: Option<string>): Headers {
    Headers(Some("Bearer " + Encode(jwt, token)), requestId)
  }

  /** An ADMIN who logs in and presents the token within two hours is
      authenticated as that row's id with role ADMIN and may list users. */
  lemma {:induction false} AdminLoginListsUsers(store: Store, input: LoginInput, hasher: Hasher, jwt: Jwt, iat: int, now: int, requestId: Option<string>, freshId: string)
    requires SoundJwt(jwt)
    requires Login(store, input, hasher, iat).Success?
    requires Login(store, input, hasher, iat).value.user.role == "ADMIN"
    requires Login(store, input, hasher, iat).value.user.id != ""
    requires now < iat + TokenLifetime
    ensures var payload := Login(store, input, hasher, iat).value;
            var ctx := BuildContext(BearerHeaders(jwt, payload.token, requestId), jwt, now, freshId);
            && ctx.Success?
            && ctx.value.user == Some(AuthUser(payload.user.id, Admin))
            && GetUsers(store, ctx.value.user, None).Success?
  {
    var payload := Login(store, input, hasher, iat).value;
    assert payload.token == SignToken(payload.user.id, RoleName(Admin), iat);
    IssuedTokenAuthenticates(jwt, payload.user.id, Admin, iat, now, requestId, freshId);
  }

  /** A role outside ADMIN, AGENT and CLIENT is accepted at registration,
      but the token issued for it never authenticates a request. */
  lemma {:induction false} UnknownRoleNeverAuthenticates(store: Store, input: RegisterInput, hasher: Hasher, env: Env, jwt: Jwt, now: int, requestId: Option<string>, freshId: string)
    requires SoundJwt(jwt)
    requires Register(store, input, hasher, env).Success?
    requires ParseRole(NormalizeRole(input.role)).None?
    ensures var token := Register(store, input, hasher, env).value.0.token;
            var ctx := BuildContext(BearerHeaders(jwt, token, requestId), jwt, now, freshId);
            ctx.Failure? && ctx.error.code == Unauthenticated
  {
    var token := Register(store, input, hasher, env).value.0.token;
    var encoded := Encode(jwt, token);
    assert jwt.verify(jwt.sign(ToPayload(token))) == Some(ToPayload(token));
    assert IsCompact(encoded);
    var h := "Bearer " + encoded;
    assert h[..|"Bearer "|] == "Bearer " && h[|"Bearer "|..|"Bearer "| + |encoded|] == encoded;
    BearerTokenCharacterization(h, encoded);
    UnknownRoleRejected(jwt, encoded, now);
  }

  /** Authentication takes precedence: a request that resolves to no user
      gets UNAUTHENTICATED from the listing, never FORBIDDEN, and this only
      happens when it carried no token. */
  lemma {:induction false} AnonymousRequestIsUnauthenticated(store: Store, headers: Headers, jwt: Jwt, now: int, freshId: string, limit: Option<int>)
    requires BuildContext(headers, jwt, now, freshId).Success?
    requires BuildContext(headers, jwt, now, freshId).value.user.None?
    ensures GetBearerToken(headers.authorization).None?
    ensures GetUsers(store, BuildContext(headers, jwt, now, freshId).value.user, limit) == Failure(Unauthenticated)
  {
    NoAnonymousFallback(headers, jwt, now, freshId);
  }

  /** A password's length is counted in UTF-16 code units, at least one
      per character. */
  lemma LongPasswords()
    ensures ValidPassword("password123")
    ensures ValidPassword("different1")
  {
    assert |"password123"| == 11 && |"different1"| == 10;
  }

  /** `short12` has seven characters, all in the Basic Multilingual Plane. */
  lemma ShortPassword()
    ensures !ValidPassword("short12")
  {
    var c := "short12";
    assert forall i :: 0 <= i < |c| ==> c[i] as int <= 0xFFFF;
  }

  /** The first registration's email normalises to a valid email.
      The literal input is passed as a parameter fixed by the precondition, so
      that the verifier does not unfold the functions on it eagerly. */
  lemma FirstEmailValid(email: string)
    requires email == " A@Example.com "
    ensures NormalizeEmail(email) == "a@example.com" && ValidEmail(NormalizeEmail(email))
  {
    EmailVariantNormalizes();
    assert "a@example.com"[1] == '@';
  }

  /** Into an empty store, a registration that passes the input checks
      succeeds and its row is the only one. */
  lemma {:induction false} RegisterIntoEmptyStore(input: RegisterInput, hasher: Hasher, env: Env)
    requires ValidEmail(NormalizeEmail(input.email)) && ValidPassword(input.password)
    ensures var r := Register([], input, hasher, env);
            && r.Success? && |r.value.1| == 1
            && r.value.1[0].email == NormalizeEmail(input.email)
            && r.value.1[0].role == NormalizeRole(input.role)
  {
    assert !HasEmail([], NormalizeEmail(input.email));
  }

  /** Registering ` A@Example.com ` with `password123` and no role into
      an empty store succeeds with role CLIENT and email `a@example.com`.
      The literal input is passed as a parameter fixed by the precondition, so
      that the verifier does not unfold the functions on it eagerly. */
  lemma {:induction false} FirstRegistration(input: RegisterInput, hasher: Hasher, env: Env)
    requires input == RegisterInput(" A@Example.com ", "password123", None)
    ensures var first := Register([], input, hasher, env);
            && first.Success?
            && first.value.1[0].email == "a@example.com"
            && first.value.1[0].role == "CLIENT"
  {
    FirstEmailValid(input.email);
    LongPasswords();
    RegisterIntoEmptyStore(input, hasher, env);
  }

  /** Registering `a@example.com` after ` A@Example.com ` conflicts.
      The literal input is passed as a parameter fixed by the precondition, so
      that the verifier does not unfold the functions on it eagerly. */
  lemma {:induction false} SecondRegistrationConflicts(first: RegisterInput, second: RegisterInput, hasher: Hasher, env: Env, env2: Env)
    requires first == RegisterInput(" A@Example.com ", "password123", None)
    requires second == RegisterInput("a@example.com", "different1", None)
    ensures Register([], first, hasher, env).Success?
    ensures Register(Register([], first, hasher, env).value.1, second, hasher, env2) == Failure(Conflict)
  {
    FirstRegistration(first, hasher, env);
    EmailVariantNormalizes();
    NormalEmailUnchanged();
    LongPasswords();
    FirstEmailValid(first.email);
    assert !HasEmail([], NormalizeEmail(first.email));
    RegisterTwiceConflicts([], first, second, hasher, env, env2);
  }

  /** `short12` is too short whatever the store holds.
      The literal input is passed as a parameter fixed by the precondition, so
      that the verifier does not unfold the functions on it eagerly. */
  lemma ShortPasswordRejected(input: RegisterInput, hasher: Hasher, env: Env, store: Store)
    requires input == RegisterInput("b@example.com", "short12", None)
    ensures Register(store, input, hasher, env) == Failure(BadUserInput)
  {
    ShortPassword();
  }
}
