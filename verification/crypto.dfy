/** The cryptography the authentication code delegates to libraries, as
    oracles: password hashing (bcrypt) and signed tokens (HS256 JWTs). Each
    oracle is a value whose functions are supplied by the caller; the laws
    the real libraries obey are predicates that lemmas take as hypotheses. */
module Crypto {
  import opened Base
  import opened Text

  /** A bcrypt-like password hasher. `hash` takes the random salt as an
      argument, so two hashes of one password may differ. */
  datatype Hasher = Hasher(hash: (string, nat) -> string, compare: (string, string) -> bool)

  /** The hasher's law: a password verifies against every hash made of it. */
  ghost predicate SoundHasher(h: Hasher) {
    forall password, salt :: h.compare(password, h.hash(password, salt))
  }

  /** A claim of a decoded JSON payload, as far as the checks look at it. */
  datatype Claim = Absent | Str(text: string) | Num(n: int) | OtherJson

  /** The registered claims of a JWT payload that are read or checked. */
  datatype Payload = Payload(sub: Claim, role: Claim, iat: Claim, exp: Claim)

  /** A signing key's JWT codec: `sign` produces the compact serialisation,
      `verify` returns the payload of a token whose signature checks. */
  datatype Jwt = Jwt(sign: Payload -> string, verify: string -> Option<Payload>)

  /** A compact JWS is non-empty and, being three base64url parts joined by
      dots, contains no space. */
  predicate IsCompact(token: string) {
    IsWord(token)
  }

  /** The codec's law: what it signs it verifies to the same payload, and
      its output is in compact form. */
  ghost predicate SoundJwt(jwt: Jwt) {
    forall p :: jwt.verify(jwt.sign(p)) == Some(p) && IsCompact(jwt.sign(p))
  }

  /** Validity window of an issued token: "2h", in seconds. */
  const TokenLifetime := 7200

  /** The claims of an issued token, all times in seconds since the epoch. */
  datatype Token = Token(sub: string, role: string, iat: int, exp: int)

  /** signToken: subject = user id, role claim = the user's role, issued
      now and expiring two hours later. */
  function SignToken(id: string, role: string, now: int): (t: Token)
    ensures t.sub == id && t.role == role
    ensures t.iat == now && t.exp == t.iat + 2 * 60 * 60
  {
    Token(id, role, now, now + TokenLifetime)
  }

  /** The JSON payload a token is serialised with. */
  function ToPayload(t: Token): Payload {
    Payload(Str(t.sub), Str(t.role), Num(t.iat), Num(t.exp))
  }

  /** The wire form of a token under a codec. */
  function Encode(jwt: Jwt, t: Token): string {
    jwt.sign(ToPayload(t))
  }

  /** Why `jwtVerify` rejects a token: the signature does not check, a
      time claim is not a number, or the token has expired. */
  datatype JwtRejection = BadSignature | MalformedClaim | Expired

  /** `jwtVerify` with no options: the signature check is the codec's; an
      `iat` or `exp` claim that is present must be a number, and a token is
      expired once `exp <= now`. */
  function JwtVerify(jwt: Jwt, token: string, now: int): (r: Result<Payload, JwtRejection>)
    ensures jwt.verify(token).None? ==> r == Failure(BadSignature)
    ensures r.Success? ==> jwt.verify(token) == Some(r.value)
    ensures r.Success? ==> r.value.exp.Absent? || (r.value.exp.Num? && now < r.value.exp.n)
    ensures (jwt.verify(token).Some? && jwt.verify(token).value.exp.Num?
             && jwt.verify(token).value.exp.n <= now) ==> r.Failure?
    ensures r.Success? <==>
              && jwt.verify(token).Some?
              && var p := jwt.verify(token).value;
                 && (p.iat.Absent? || p.iat.Num?)
                 && (p.exp.Absent? || (p.exp.Num? && now < p.exp.n))
    ensures (jwt.verify(token).Some? && !(jwt.verify(token).value.iat.Absent? || jwt.verify(token).value.iat.Num?))
              ==> r == Failure(MalformedClaim)
    ensures r == Failure(Expired) <==>
              && jwt.verify(token).Some?
              && var p := jwt.verify(token).value;
                 && (p.iat.Absent? || p.iat.Num?) && p.exp.Num? && p.exp.n <= now
  {
    match jwt.verify(token)
    case None => Failure(BadSignature)
    case Some(p) =>
      if !(p.iat.Absent? || p.iat.Num?) then Failure(MalformedClaim)
      else if p.exp.Absent? then Success(p)
      else if !p.exp.Num? then Failure(MalformedClaim)
      else if p.exp.n <= now then Failure(Expired)
      else Success(p)
  }

  /** An issued token passes `jwtVerify` exactly until it expires: before
      `iat + 2h` it yields the claims it was signed with, from then on it is
      rejected as expired. */
  lemma {:induction false} IssuedTokenWindow(jwt: Jwt, id: string, role: string, iat: int, now: int)
    requires SoundJwt(jwt)
    ensures now < iat + TokenLifetime ==>
              JwtVerify(jwt, Encode(jwt, SignToken(id, role, iat)), now)
                == Success(Payload(Str(id), Str(role), Num(iat), Num(iat + TokenLifetime)))
    ensures iat + TokenLifetime <= now ==>
              JwtVerify(jwt, Encode(jwt, SignToken(id, role, iat)), now) == Failure(Expired)
  {
    var p := ToPayload(SignToken(id, role, iat));
    assert jwt.verify(jwt.sign(p)) == Some(p);
  }
}
