/** Registration and login: input checks in a fixed order, email uniqueness
    against the credential store, password hashing, and token issuance. */
module AuthService {
  import opened Base
  import opened Text
  import opened Crypto
  import opened UserRepo

  datatype RegisterInput = RegisterInput(email: string, password: string, role: Option<string>)

  datatype LoginInput = LoginInput(email: string, password: string)

  /** What register and login return: the signed token and the public user. */
  datatype AuthPayload = AuthPayload(token: Token, user: UserDto)

  /** What the runtime supplies to one registration: bcrypt's random salt,
      the id and creation time the database assigns to the new row, and the
      signing clock. */
  datatype Env = Env(salt: nat, newId: string, createdAt: int, now: int)

  const MinPasswordLength := 8

  /** The email as looked up and stored: trimmed, then lower-cased. It has
      no whitespace at either end and no ASCII capital; apart from the
      capitals it is the trimmed email character for character. */
  function NormalizeEmail(email: string): (r: string)
    ensures |r| == |Trim(email)|
    ensures forall i :: 0 <= i < |r| ==> !IsAsciiUpper(r[i])
    ensures forall i :: 0 <= i < |r| && !IsAsciiUpper(Trim(email)[i]) ==> r[i] == Trim(email)[i]
    ensures forall i :: 0 <= i < |r| && IsAsciiUpper(Trim(email)[i]) ==> UpperChar(r[i]) == Trim(email)[i]
    ensures r == [] || (!IsWhitespace(r[0]) && !IsWhitespace(r[|r| - 1]))
  {
    var t := Trim(email);
    var r := ToLower(t);
    if |r| == 0 then r
    else
      LowerKeepsWhitespace(t[0]);
      LowerKeepsWhitespace(t[|t| - 1]);
      r
  }

  /** The role as stored: upper-cased, `CLIENT` when none is given. It is
      not checked against the known roles. */
  function NormalizeRole(role: Option<string>): (r: string)
    ensures role.None? ==> r == "CLIENT"
    ensures role.Some? ==> |r| == |role.value| && forall i :: 0 <= i < |r| ==> !IsAsciiLower(r[i])
    ensures role.Some? ==> forall i :: 0 <= i < |r| && !IsAsciiLower(role.value[i]) ==> r[i] == role.value[i]
    ensures role.Some? ==> forall i :: 0 <= i < |r| && IsAsciiLower(role.value[i]) ==> LowerChar(r[i]) == role.value[i]
  {
    var r := ToUpper(role.GetOr("CLIENT"));
    assert role.None? ==> r == "CLIENT";
    r
  }

  /** The email check: the normalised email contains an `@`. */
  predicate ValidEmail(email: string)
    ensures ValidEmail(email) <==> exists i :: 0 <= i < |email| && email[i] == '@'
  {
    '@' in email
  }

  /** The password check: at least 8 UTF-16 code units. Eight characters
      always pass; fewer than four never do; within the Basic Multilingual
      Plane the check counts characters. */
  predicate ValidPassword(password: string)
    ensures |password| >= MinPasswordLength ==> ValidPassword(password)
    ensures 2 * |password| < MinPasswordLength ==> !ValidPassword(password)
    ensures (forall i :: 0 <= i < |password| ==> !IsAstral(password[i]))
              ==> (ValidPassword(password) <==> |password| >= MinPasswordLength)
    ensures ValidPassword(password) <==> |password| + AstralCount(password) >= MinPasswordLength
  {
    Utf16Length(password) >= MinPasswordLength
  }

  lemma LowerKeepsWhitespace(c: char)
    ensures IsWhitespace(LowerChar(c)) <==> IsWhitespace(c)
  {
  }

  /** Normalisation is idempotent: a normalised email is its own normal
      form, so stored emails are found again by the same normalisation. */
  lemma {:induction false} NormalizeEmailIdempotent(email: string)
    ensures NormalizeEmail(NormalizeEmail(email)) == NormalizeEmail(email)
  {
    var t := Trim(email);
    var n := ToLower(t);
    if |n| > 0 {
      LowerKeepsWhitespace(t[0]);
      LowerKeepsWhitespace(t[|t| - 1]);
      assert LeadingWhitespace(n) == 0;
      assert TrailingWhitespace(n) == 0;
    }
    assert Trim(n) == n;
    ToLowerMeaning(t);
  }

  lemma TrimExample()
    ensures Trim(" A@Example.com ") == "A@Example.com"
  {
    var s := " A@Example.com ";
    assert LeadingWhitespace(s[1..]) == 0;
    assert LeadingWhitespace(s) == 1;
    assert TrailingWhitespace(s[..|s| - 1]) == 0;
    assert TrailingWhitespace(s) == 1;
  }

  lemma LowerExample()
    ensures ToLower("A@Example.com") == "a@example.com"
  {
    var lower := ToLower("A@Example.com");
    assert forall i :: 0 <= i < |lower| ==> lower[i] == "a@example.com"[i];
  }

  /** Surrounding spaces and letter case do not matter. */
  lemma EmailVariantNormalizes()
    ensures NormalizeEmail(" A@Example.com ") == "a@example.com"
  {
    TrimExample();
    LowerExample();
  }

  /** An email already in normal form is its own normal form. */
  lemma NormalEmailUnchanged()
    ensures NormalizeEmail("a@example.com") == "a@example.com"
  {
    var e := "a@example.com";
    assert LeadingWhitespace(e) == 0 && TrailingWhitespace(e) == 0;
    assert forall i :: 0 <= i < |e| ==> ToLower(e)[i] == e[i];
  }

  /** register. The checks run in this order: email shape, password
      length, uniqueness; the first two never look at the store. */
  function Register(store: Store, input: RegisterInput, hasher: Hasher, env: Env): (r: Result<(AuthPayload, Store), ErrorCode>)
    ensures !ValidEmail(NormalizeEmail(input.email)) ==> r == Failure(BadUserInput)
    ensures !ValidPassword(input.password) ==> r == Failure(BadUserInput)
    ensures (ValidEmail(NormalizeEmail(input.email)) && ValidPassword(input.password)
             && HasEmail(store, NormalizeEmail(input.email))) ==> r == Failure(Conflict)
    ensures r.Success? <==> (ValidEmail(NormalizeEmail(input.email)) && ValidPassword(input.password)
                             && !HasEmail(store, NormalizeEmail(input.email)))
    ensures r.Success? ==> |r.value.1| == |store| + 1 && r.value.1[..|store|] == store
    ensures r.Success? ==>
              var (payload, store') := r.value;
              var row := store'[|store|];
              && row.id == env.newId && row.createdAt == env.createdAt
              && row.email == NormalizeEmail(input.email)
              && row.passwordHash == hasher.hash(input.password, env.salt)
              && row.role == NormalizeRole(input.role)
              && payload.user == Public(row)
              && payload.token.sub == row.id && payload.token.role == row.role
              && payload.token.iat == env.now && payload.token.exp == env.now + TokenLifetime
  {
    var email := NormalizeEmail(input.email);
    var role := NormalizeRole(input.role);
    if !ValidEmail(email) then Failure(BadUserInput)
    else if !ValidPassword(input.password) then Failure(BadUserInput)
    else if FindUserAuthByEmail(store, email).Some? then Failure(Conflict)
    else
      var passwordHash := hasher.hash(input.password, env.salt);
      var (store', user) := CreateUser(store, NewUser(email, passwordHash, role), env.newId, env.createdAt);
      Success((AuthPayload(SignToken(user.id, user.role, env.now), user), store'))
  }

  /** login. An unknown email and a wrong password both fail with
      UNAUTHENTICATED; the store is only read. */
  function Login(store: Store, input: LoginInput, hasher: Hasher, now: int): (r: Result<AuthPayload, ErrorCode>)
    ensures r.Failure? ==> r.error == Unauthenticated
    ensures !HasEmail(store, NormalizeEmail(input.email)) ==> r.Failure?
    ensures UniqueEmails(store) ==>
              (r.Success? <==> exists i :: 0 <= i < |store| && store[i].email == NormalizeEmail(input.email)
                                           && hasher.compare(input.password, store[i].passwordHash))
    ensures r.Success? ==>
              var row := FindUserAuthByEmail(store, NormalizeEmail(input.email)).value;
              && row in store && row.email == NormalizeEmail(input.email)
              && hasher.compare(input.password, row.passwordHash)
              && r.value.user == Public(row)
              && r.value.token == Token(row.id, row.role, now, now + TokenLifetime)
  {
    var email := NormalizeEmail(input.email);
    match FindUserAuthByEmail(store, email)
    case None => Failure(Unauthenticated)
    case Some(row) =>
      if !hasher.compare(input.password, row.passwordHash) then Failure(Unauthenticated)
      else
        Success(AuthPayload(SignToken(row.id, row.role, now), Public(row)))
  }

  /** Registration keeps emails unique. */
  lemma {:induction false} RegisterPreservesUniqueEmails(store: Store, input: RegisterInput, hasher: Hasher, env: Env)
    requires UniqueEmails(store)
    requires ValidEmail(NormalizeEmail(input.email)) && ValidPassword(input.password)
    requires !HasEmail(store, NormalizeEmail(input.email))
    ensures Register(store, input, hasher, env).Success?
    ensures UniqueEmails(Register(store, input, hasher, env).value.1)
  {
    var store' := Register(store, input, hasher, env).value.1;
    forall i, j | 0 <= i < j < |store'| ensures store'[i].email != store'[j].email {
      if j == |store| {
        assert store'[i] == store[i];
      } else {
        assert store'[i] == store[i] && store'[j] == store[j];
      }
    }
  }

  /** Once an email is registered, registering any spelling of it that
      normalises alike fails with CONFLICT. */
  lemma {:induction false} RegisterTwiceConflicts(store: Store, first: RegisterInput, second: RegisterInput, hasher: Hasher, env: Env, env2: Env)
    requires ValidEmail(NormalizeEmail(first.email)) && ValidPassword(first.password)
    requires !HasEmail(store, NormalizeEmail(first.email))
    requires NormalizeEmail(second.email) == NormalizeEmail(first.email)
    requires ValidPassword(second.password)
    ensures Register(Register(store, first, hasher, env).value.1, second, hasher, env2) == Failure(Conflict)
  {
    var store' := Register(store, first, hasher, env).value.1;
    assert store'[|store|].email == NormalizeEmail(second.email);
  }

  /** With a sound hasher, logging in with the registered password, under
      any spelling of the email that normalises alike, succeeds and returns
      the registered user and a token for its id and role. */
  lemma {:induction false} LoginAfterRegister(store: Store, input: RegisterInput, hasher: Hasher, env: Env, email: string, now: int)
    requires SoundHasher(hasher)
    requires ValidEmail(NormalizeEmail(input.email)) && ValidPassword(input.password)
    requires !HasEmail(store, NormalizeEmail(input.email))
    requires NormalizeEmail(email) == NormalizeEmail(input.email)
    ensures var (payload, store') := Register(store, input, hasher, env).value;
            Login(store', LoginInput(email, input.password), hasher, now)
              == Success(AuthPayload(Token(env.newId, NormalizeRole(input.role), now, now + TokenLifetime), payload.user))
  {
    var (payload, store') := Register(store, input, hasher, env).value;
    var row := store'[|store|];
    var e := NormalizeEmail(email);
    var found := FindUserAuthByEmail(store', e);
    forall i | 0 <= i < |store| ensures store'[i].email != e {
      assert store'[i] == store[i];
    }
    assert found.Some? && found.value in store' && found.value.email == e;
    var k :| 0 <= k < |store'| && store'[k] == found.value;
    assert k == |store|;
    assert hasher.compare(input.password, hasher.hash(input.password, env.salt));
  }

  /** A wrong password never logs in, whoever holds the email. */
  lemma LoginRejectsWrongPassword(store: Store, input: LoginInput, hasher: Hasher, now: int, i: int)
    requires UniqueEmails(store)
    requires 0 <= i < |store| && store[i].email == NormalizeEmail(input.email)
    requires !hasher.compare(input.password, store[i].passwordHash)
    ensures Login(store, input, hasher, now) == Failure(Unauthenticated)
  {
  }

  /** The role is stored as given, only upper-cased: `root` is kept as
      `ROOT`, and `""` stays empty since only a missing role defaults. */
  lemma UnknownRoleIsKept()
    ensures NormalizeRole(Some("root")) == "ROOT"
    ensures NormalizeRole(Some("")) == ""
  {
    var upper := ToUpper("root");
    assert forall i :: 0 <= i < 4 ==> upper[i] == "ROOT"[i];
  }
}
