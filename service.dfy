/**
 * The authentication service (internal/service/service.go): registration,
 * login with token issuance, and extraction of the subject from a token.
 * The service holds the user store, the signing secret and, standing for the
 * bcrypt library, the key derivation. Clock readings, the random salt and
 * database failures are parameters.
 */
module Service {
  import opened Wrappers
  import opened Model
  import opened Storage
  import Crypto
  import Jwt
  import Email
  import Decimal

  /** The shortest password registration accepts, in bytes. */
  const MinPasswordLength: nat := 6

  /** Tokens expire 24 hours after they are issued. */
  const TokenLifetime: int := 24 * 60 * 60

  /** The secret used when none is configured. */
  const DefaultJwtSecret: string := "secretkey0909"

  datatype Error =
    | EmailRequired
    | PasswordRequired
    | InvalidEmailFormat
    | PasswordTooShort
    | UserAlreadyExists
    | StoreFailed(cause: StoreError)        // passed through unwrapped
    | CreateUserFailed(cause: StoreError)
    | InvalidCredentials
    | AccountInactive
    | GetUserFailed(cause: StoreError)
    | ParseFailed(reason: Jwt.ParseError)
    | UserIdNotFound
    | InvalidUserIdType

  function StoreErrorText(e: StoreError): string {
    match e
    case NoRows => "no rows in result set"
    case UniqueViolation => "duplicate key value violates unique constraint"
    case DbError(message) => message
  }

  function ParseErrorText(e: Jwt.ParseError): string {
    match e
    case TokenMalformed => "token is malformed"
    case KeyFuncRejected(alg) => "unexpected signing method: " + Jwt.AlgName(alg)
    case SignatureInvalid => "token signature is invalid"
  }

  /**
   * The text of the error value the service returns. Apart from a store error
   * passed through verbatim, the texts of the two login refusals belong to
   * one error value each: an unknown address and a wrong password share one,
   * an inactive account has its own.
   */
  function Message(e: Error): (m: string)
    ensures !e.StoreFailed? ==> (m == "invalid email or password" <==> e == InvalidCredentials)
    ensures !e.StoreFailed? ==> (m == "user account is inactive" <==> e == AccountInactive)
  {
    match e
    case EmailRequired => "email is required"
    case PasswordRequired => "password is required"
    case InvalidEmailFormat => "invalid email format"
    case PasswordTooShort => "password must be at least 6 characters"
    case UserAlreadyExists => "user already exists"
    case StoreFailed(cause) => StoreErrorText(cause)
    case CreateUserFailed(cause) =>
      var m := "failed to create user: " + StoreErrorText(cause);
      assert m[0] == 'f';
      m
    case InvalidCredentials => "invalid email or password"
    case AccountInactive => "user account is inactive"
    case GetUserFailed(cause) =>
      var m := "failed to get user: " + StoreErrorText(cause);
      assert m[0] == 'f';
      m
    case ParseFailed(reason) =>
      var m := "failed to parse token: " + ParseErrorText(reason);
      assert m[0] == 'f';
      m
    case UserIdNotFound => "user_id not found in token"
    case InvalidUserIdType => "invalid user_id type in token"
  }

  /** Both fields are non-empty. */
  predicate IsFilled(req: AuthRequest) {
    req.email != "" && req.password != []
  }

  /** The claims of a session token issued at time now. */
  function SessionClaims(user: User, now: int): (c: Jwt.Claims)
    ensures c.Keys == {"user_id", "email", "exp", "iat"}
    ensures c["user_id"] == Jwt.IntClaim(user.id) && c["email"] == Jwt.StringClaim(user.email)
    ensures c["iat"] == Jwt.Int64Claim(now) && c["exp"] == Jwt.Int64Claim(now + TokenLifetime)
  {
    map["user_id" := Jwt.IntClaim(user.id),
        "email" := Jwt.StringClaim(user.email),
        "exp" := Jwt.Int64Claim(now + TokenLifetime),
        "iat" := Jwt.Int64Claim(now)]
  }

  /** The user_id claim of a verified token, as a decimal string. */
  function SubjectOf(claims: Jwt.Claims): (r: Result<string, Error>)
    ensures r == Failure(UserIdNotFound) <==> "user_id" !in claims
    ensures r == Failure(InvalidUserIdType) <==> "user_id" in claims && !claims["user_id"].IsNumber()
    ensures r.Success? ==> "user_id" in claims && claims["user_id"].IsNumber()
    ensures r.Success? ==> r.value == Decimal.FormatInt(claims["user_id"].n)
    ensures r.Success? ==> Decimal.ParseInt(r.value) == Some(claims["user_id"].n)
  {
    if "user_id" !in claims then Failure(UserIdNotFound)
    else
      match claims["user_id"]
      case Float64Claim(n) => Decimal.ParseFormatInt(n); Success(Decimal.FormatInt(n))
      case IntClaim(n) => Decimal.ParseFormatInt(n); Success(Decimal.FormatInt(n))
      case Int64Claim(n) => Decimal.ParseFormatInt(n); Success(Decimal.FormatInt(n))
      case _ => Failure(InvalidUserIdType)
  }

  class Service {
    const repo: UserStore
    const jwtSecret: string
    const kdf: Crypto.KeyDerivation

    /** NewService: the configured secret, or the default when it is empty. */
    constructor (repo: UserStore, configuredSecret: string, kdf: Crypto.KeyDerivation)
      ensures this.repo == repo && this.kdf == kdf
      ensures jwtSecret == if configuredSecret == "" then DefaultJwtSecret else configuredSecret
      ensures jwtSecret != ""
    {
      this.repo := repo;
      this.kdf := kdf;
      this.jwtSecret := if configuredSecret == "" then DefaultJwtSecret else configuredSecret;
    }

    /**
     * Creates an account. The checks run in a fixed order and the first that
     * fails decides the error; the store changes only when every check passed
     * and the insert succeeded.
     */
    method Register(req: AuthRequest, salt: seq<Crypto.byte>, now: int,
                    lookupFault: Option<string>, createFault: Option<string>)
      returns (r: Result<User, Error>)
      requires repo.Valid()
      modifies repo
      ensures repo.Valid()
      ensures req.email == "" ==> r == Failure(EmailRequired)
      ensures req.email != "" && req.password == [] ==> r == Failure(PasswordRequired)
      ensures IsFilled(req) && !Email.IsValidEmail(req.email) ==> r == Failure(InvalidEmailFormat)
      ensures IsFilled(req) && Email.IsValidEmail(req.email) && |req.password| < MinPasswordLength ==>
        r == Failure(PasswordTooShort)
      ensures Email.IsValidEmail(req.email) && |req.password| >= MinPasswordLength ==>
        && (lookupFault.Some? ==> r == Failure(StoreFailed(DbError(lookupFault.value))))
        && (lookupFault.None? && req.email in old(repo.users) ==> r == Failure(UserAlreadyExists))
        && (lookupFault.None? && req.email !in old(repo.users) && createFault.Some? ==>
              r == Failure(CreateUserFailed(DbError(createFault.value))))
      ensures r.Failure? ==> repo.users == old(repo.users) && repo.nextId == old(repo.nextId)
      ensures r.Success? ==>
        && Email.IsValidEmail(req.email) && |req.password| >= MinPasswordLength
        && lookupFault.None? && createFault.None? && req.email !in old(repo.users)
        && r.value == User(old(repo.nextId), req.email,
                           Crypto.GenerateFromPassword(kdf, req.password, salt, Crypto.DefaultCost), true, now)
        && repo.users == old(repo.users)[req.email := r.value]
        && repo.nextId == old(repo.nextId) + 1
        && |repo.users| == |old(repo.users)| + 1
        && (forall e | e in old(repo.users) :: old(repo.users)[e].id != r.value.id)
      ensures r.Success? ==> Email.MatchesPattern(r.value.email)
      ensures (Email.IsValidEmail(req.email) && |req.password| >= MinPasswordLength
               && lookupFault.None? && createFault.None? && req.email !in old(repo.users)) ==> r.Success?
    {
      if req.email == "" {
        return Failure(EmailRequired);
      }
      if req.password == [] {
        return Failure(PasswordRequired);
      }
      if !Email.IsValidEmail(req.email) {
        return Failure(InvalidEmailFormat);
      }
      if |req.password| < MinPasswordLength {
        return Failure(PasswordTooShort);
      }

      var existing := repo.GetUserByEmail(req.email, lookupFault);
      if existing.Success? {
        return Failure(UserAlreadyExists);
      }
      if existing.error != NoRows {
        return Failure(StoreFailed(existing.error));
      }

      var hash := Crypto.GenerateFromPassword(kdf, req.password, salt, Crypto.DefaultCost);
      var created := repo.CreateUser(req.email, hash, now, createFault);
      if created.Failure? {
        return Failure(CreateUserFailed(created.error));
      }
      assert repo.users.Keys == old(repo.users).Keys + {req.email};
      Email.ScannerIsSound(req.email);
      r := Success(created.value);
    }

    /** The session token Login issues for user at time now. */
    function IssueToken(user: User, now: int): (t: Jwt.Token)
      ensures Jwt.SignedWith(t, jwtSecret) && t.alg == Jwt.HS256
      ensures t.claims == SessionClaims(user, now)
    {
      Jwt.Sign(Jwt.HS256, jwtSecret, SessionClaims(user, now))
    }

    /**
     * Authenticates a user. An unknown address and a wrong password give the
     * same error; an inactive account is refused before its password is
     * looked at.
     */
    method Login(req: AuthRequest, now: int, lookupFault: Option<string>) returns (r: Result<LoginResponse, Error>)
      ensures req.email == "" ==> r == Failure(EmailRequired)
      ensures req.email != "" && req.password == [] ==> r == Failure(PasswordRequired)
      ensures IsFilled(req) && lookupFault.Some? ==> r == Failure(GetUserFailed(DbError(lookupFault.value)))
      ensures IsFilled(req) && lookupFault.None? && req.email !in repo.users ==> r == Failure(InvalidCredentials)
      ensures IsFilled(req) && lookupFault.None? && req.email in repo.users && !repo.users[req.email].isActive ==>
        r == Failure(AccountInactive)
      ensures IsFilled(req) && lookupFault.None? && req.email in repo.users && repo.users[req.email].isActive ==>
        r == if Crypto.CompareHashAndPassword(kdf, repo.users[req.email].passwordHash, req.password)
             then Success(LoginResponse(IssueToken(repo.users[req.email], now), repo.users[req.email]))
             else Failure(InvalidCredentials)
    {
      if req.email == "" {
        return Failure(EmailRequired);
      }
      if req.password == [] {
        return Failure(PasswordRequired);
      }

      var found := repo.GetUserByEmail(req.email, lookupFault);
      if found.Failure? {
        if found.error == NoRows {
          return Failure(InvalidCredentials);
        }
        return Failure(GetUserFailed(found.error));
      }
      var user := found.value;

      if !user.isActive {
        return Failure(AccountInactive);
      }

      if !Crypto.CompareHashAndPassword(kdf, user.passwordHash, req.password) {
        return Failure(InvalidCredentials);
      }

      r := Success(LoginResponse(IssueToken(user, now), user));
    }

    /** The key function: only HMAC-signed tokens are verified, with the secret. */
    function KeyFor(alg: Jwt.Alg): (key: Option<string>)
      ensures key.Some? <==> Jwt.IsHmac(alg)
      ensures key.Some? ==> key.value == jwtSecret
    {
      if Jwt.IsHmac(alg) then Some(jwtSecret) else None
    }

    /** Verifies a token and returns its subject, the user id in decimal. */
    function ValidateToken(token: Jwt.Token): (r: Result<string, Error>)
      ensures token.Malformed? ==> r == Failure(ParseFailed(Jwt.TokenMalformed))
      ensures token.Compact? && !Jwt.IsHmac(token.alg) ==> r == Failure(ParseFailed(Jwt.KeyFuncRejected(token.alg)))
      ensures token.Compact? && Jwt.IsHmac(token.alg) && !Jwt.SignedWith(token, jwtSecret) ==>
        r == Failure(ParseFailed(Jwt.SignatureInvalid))
      ensures Jwt.SignedWith(token, jwtSecret) && Jwt.IsHmac(token.alg) ==>
        && (r == Failure(UserIdNotFound) <==> "user_id" !in token.claims)
        && (r == Failure(InvalidUserIdType) <==> "user_id" in token.claims && !token.claims["user_id"].IsNumber())
        && (r.Success? <==> "user_id" in token.claims && token.claims["user_id"].IsNumber())
      ensures r.Success? ==>
        && token.Compact? && Jwt.IsHmac(token.alg) && Jwt.SignedWith(token, jwtSecret)
        && "user_id" in token.claims && token.claims["user_id"].IsNumber()
        && r.value == Decimal.FormatInt(token.claims["user_id"].n)
        && Decimal.ParseInt(r.value) == Some(token.claims["user_id"].n)
    {
      match Jwt.ParseWithClaims(token, alg => KeyFor(alg))
      case Failure(reason) => Failure(ParseFailed(reason))
      case Success(claims) => SubjectOf(claims)
    }
  }

  // -----------------------------------------------------------------------
  // Tokens: what Login issues, ValidateToken accepts

  /** A token from Login validates, under the same service, to the decimal
      form of the user's id. */
  lemma {:induction false} IssuedTokenValidates(s: Service, user: User, now: int)
    ensures s.ValidateToken(s.IssueToken(user, now)) == Success(Decimal.FormatInt(user.id))
  {
    var claims := SessionClaims(user, now);
    Jwt.SignThenParse(Jwt.HS256, s.jwtSecret, claims, alg => s.KeyFor(alg));
    assert Jwt.DecodedClaims(claims)["user_id"] == Jwt.Float64Claim(user.id);
  }

  /** A token signed with any other secret is refused for its signature. */
  lemma {:induction false} ForeignTokenIsRejected(s: Service, alg: Jwt.Alg, secret: string, claims: Jwt.Claims)
    requires Jwt.IsHmac(alg) && secret != s.jwtSecret
    ensures s.ValidateToken(Jwt.Sign(alg, secret, claims)) == Failure(ParseFailed(Jwt.SignatureInvalid))
  {
    Jwt.OtherKeyIsRejected(alg, s.jwtSecret, secret, claims, a => s.KeyFor(a));
  }

  // -----------------------------------------------------------------------
  // Whole flows on a fresh store

  /** Registering one address twice: the second attempt is refused and the
      store holds one account. */
  method RegisterTwice(configuredSecret: string, kdf: Crypto.KeyDerivation, req: AuthRequest,
                       salt: seq<Crypto.byte>, now: int)
    returns (first: Result<User, Error>, second: Result<User, Error>, accounts: nat)
    requires Email.IsValidEmail(req.email) && |req.password| >= MinPasswordLength
    ensures first.Success? && first.value.email == req.email && first.value.id == 1
    ensures second == Failure(UserAlreadyExists)
    ensures accounts == 1
  {
    var store := new UserStore();
    var svc := new Service(store, configuredSecret, kdf);
    first := svc.Register(req, salt, now, None, None);
    second := svc.Register(req, salt, now, None, None);
    accounts := |store.users|;
  }

  /** Register, log in with the same credentials, then validate the token:
      the subject is the new account's id, "1" on a fresh store. */
  method RegisterLoginValidate(configuredSecret: string, kdf: Crypto.KeyDerivation, req: AuthRequest,
                               salt: seq<Crypto.byte>, registeredAt: int, loggedInAt: int)
    returns (registered: Result<User, Error>, login: Result<LoginResponse, Error>, subject: Result<string, Error>)
    requires Email.IsValidEmail(req.email) && |req.password| >= MinPasswordLength
    ensures registered.Success? && login.Success?
    ensures login.value.user == registered.value
    ensures login.value.token.Compact? && login.value.token.claims == SessionClaims(registered.value, loggedInAt)
    ensures subject == Success("1")
  {
    var store := new UserStore();
    var svc := new Service(store, configuredSecret, kdf);
    registered := svc.Register(req, salt, registeredAt, None, None);
    login := svc.Login(req, loggedInAt, None);
    match login
    case Success(response) =>
      subject := svc.ValidateToken(response.token);
      IssuedTokenValidates(svc, response.user, loggedInAt);
    case Failure(_) =>
      subject := Failure(UserIdNotFound);
  }
}
