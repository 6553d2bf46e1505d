/**
 * The signed-token library the service uses (golang-jwt), modelled
 * symbolically: a token carries its algorithm, its claims and a signature
 * term that only signing with the same algorithm, key and claims produces
 * (a perfect MAC). The compact text encoding is not modelled; a string that
 * does not parse is the value Malformed.
 */
module Jwt {
  import opened Wrappers

  datatype Alg = HS256 | HS384 | HS512 | RS256 | ES256 | NoneAlg

  /** The algorithms of the HMAC family (jwt.SigningMethodHMAC). */
  predicate IsHmac(alg: Alg) {
    alg.HS256? || alg.HS384? || alg.HS512?
  }

  function AlgName(alg: Alg): string {
    match alg
    case HS256 => "HS256"
    case HS384 => "HS384"
    case HS512 => "HS512"
    case RS256 => "RS256"
    case ES256 => "ES256"
    case NoneAlg => "none"
  }

  /**
   * A claim value with its dynamic Go type: int, int64, float64 (the JSON
   * decoder's type for every number; only integral values are modelled),
   * string or bool.
   */
  datatype ClaimValue =
    | IntClaim(n: int)
    | Int64Claim(n: int)
    | Float64Claim(n: int)
    | StringClaim(s: string)
    | BoolClaim(b: bool)
  {
    predicate IsNumber() {
      IntClaim? || Int64Claim? || Float64Claim?
    }
  }

  /** jwt.MapClaims */
  type Claims = map<string, ClaimValue>

  datatype Signature = Signature(alg: Alg, key: string, payload: Claims)

  datatype Token = Compact(alg: Alg, claims: Claims, signature: Signature) | Malformed

  datatype ParseError = TokenMalformed | KeyFuncRejected(alg: Alg) | SignatureInvalid

  /** The token is signed, with its own algorithm, by key over its own claims. */
  predicate SignedWith(t: Token, key: string) {
    t.Compact? && t.signature == Signature(t.alg, key, t.claims)
  }

  /** jwt.NewWithClaims followed by SignedString. */
  function Sign(alg: Alg, key: string, claims: Claims): (t: Token)
    ensures t.Compact? && t.alg == alg && t.claims == claims
    ensures SignedWith(t, key)
  {
    Compact(alg, claims, Signature(alg, key, claims))
  }

  /** A claim value after a JSON round trip: every number comes back as float64. */
  function Decoded(v: ClaimValue): (d: ClaimValue)
    ensures d.IsNumber() <==> v.IsNumber()
    ensures d.IsNumber() ==> d.Float64Claim? && d.n == v.n
    ensures !v.IsNumber() ==> d == v
  {
    match v
    case IntClaim(n) => Float64Claim(n)
    case Int64Claim(n) => Float64Claim(n)
    case _ => v
  }

  function DecodedClaims(claims: Claims): (d: Claims)
    ensures d.Keys == claims.Keys
    ensures forall k | k in d :: d[k] == Decoded(claims[k])
  {
    map k | k in claims :: Decoded(claims[k])
  }

  /**
   * jwt.ParseWithClaims: the key function sees the token's algorithm and
   * either gives the verification key or refuses (None); the signature must
   * then match that key. Claims come back JSON-decoded.
   */
  function ParseWithClaims(t: Token, keyFunc: Alg -> Option<string>): (r: Result<Claims, ParseError>)
    ensures t.Malformed? ==> r == Failure(TokenMalformed)
    ensures t.Compact? && keyFunc(t.alg).None? ==> r == Failure(KeyFuncRejected(t.alg))
    ensures r.Success? <==> t.Compact? && keyFunc(t.alg).Some? && SignedWith(t, keyFunc(t.alg).value)
    ensures r.Success? ==> r.value == DecodedClaims(t.claims)
  {
    match t
    case Malformed => Failure(TokenMalformed)
    case Compact(alg, claims, signature) =>
      match keyFunc(alg)
      case None => Failure(KeyFuncRejected(alg))
      case Some(key) =>
        if signature == Signature(alg, key, claims) then Success(DecodedClaims(claims))
        else Failure(SignatureInvalid)
  }

  /** A token signed with the key the key function gives parses back to its claims. */
  lemma SignThenParse(alg: Alg, key: string, claims: Claims, keyFunc: Alg -> Option<string>)
    requires keyFunc(alg) == Some(key)
    ensures ParseWithClaims(Sign(alg, key, claims), keyFunc) == Success(DecodedClaims(claims))
  {
  }

  /** A token signed with any other key is rejected for its signature. */
  lemma OtherKeyIsRejected(alg: Alg, key: string, other: string, claims: Claims, keyFunc: Alg -> Option<string>)
    requires keyFunc(alg) == Some(key) && other != key
    ensures ParseWithClaims(Sign(alg, other, claims), keyFunc) == Failure(SignatureInvalid)
  {
  }
}
