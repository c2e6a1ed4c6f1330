/** JSON Web Tokens (HS256 through python-jose), modelled symbolically.

    A token is either a signed term recording its payload, signing key and
    algorithm, or arbitrary text a client sent. Signature checking is not
    modelled as cryptography: a signed term verifies exactly under the key
    it was signed with. */
module Jose {
  import opened Wrappers

  /** A token's claims. `exp` is held apart from the other claims because the
      library treats it specially; times are whole seconds. */
  datatype Payload = Payload(claims: map<string, string>, exp: int)

  datatype Jwt = Signed(payload: Payload, key: string, alg: string) | Malformed(text: string)

  /** `jwt.encode(claims, key, algorithm=alg)`. */
  function Encode(payload: Payload, key: string, alg: string): (t: Jwt)
    ensures t.Signed? && t.payload == payload && t.key == key && t.alg == alg
  {
    Signed(payload, key, alg)
  }

  /** `jwt.decode(token, key, algorithms=algorithms)` at time `now`, with no expected
      audience: `None` stands for the library's `JWTError`. It rejects text that is
      not a token, a signature made with another key, an algorithm outside the
      allowed list, a token whose `exp` lies before `now`, and any `aud` claim,
      since no audience is expected. Its checks of the other registered claims
      (`nbf`, `iat`, `jti` and the like) are not modelled; the service signs none
      of them. */
  function Decode(token: Jwt, key: string, algorithms: seq<string>, now: int): (r: Option<Payload>)
    ensures r.Some? ==> token.Signed? && r.value == token.payload
    ensures r.Some? ==> "aud" !in token.payload.claims && now <= token.payload.exp
    ensures token.Malformed? ==> r.None?
    ensures token.Signed? && (token.key != key || token.alg !in algorithms) ==> r.None?
    ensures token.Signed? && now > token.payload.exp ==> r.None?
  {
    if && token.Signed? && token.key == key && token.alg in algorithms
       && now <= token.payload.exp && "aud" !in token.payload.claims
    then Some(token.payload)
    else None
  }

  /** A payload of the shape the service signs: a subject and a role, nothing else. */
  predicate SubjectAndRoleOnly(payload: Payload) {
    payload.claims.Keys <= {"sub", "role"}
  }

  /** Decoding what was encoded with the same key and an allowed algorithm
      returns the payload while it has not expired, and fails afterwards. */
  lemma DecodeEncode(payload: Payload, key: string, alg: string, now: int)
    requires SubjectAndRoleOnly(payload)
    ensures Decode(Encode(payload, key, alg), key, [alg], now) == (if now <= payload.exp then Some(payload) else None)
  {
  }

  /** A token carrying an audience is rejected, whatever else it holds. */
  lemma AudienceRejected(payload: Payload, key: string, algorithms: seq<string>, now: int)
    requires "aud" in payload.claims && |algorithms| > 0
    ensures Decode(Encode(payload, key, algorithms[0]), key, algorithms, now).None?
  {
  }

  /** A token signed with any other key is rejected. */
  lemma ForeignKeyRejected(payload: Payload, key: string, other: string, algorithms: seq<string>, now: int)
    requires other != key && |algorithms| > 0
    ensures Decode(Encode(payload, other, algorithms[0]), key, algorithms, now).None?
  {
  }
}
