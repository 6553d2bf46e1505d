/** The record types of the authentication flow (internal/model/model.go). */
module Model {
  import Crypto
  import Jwt

  /** A user account; createdAt is a Unix time in seconds. */
  datatype User = User(id: int, email: string, passwordHash: Crypto.PasswordHash, isActive: bool, createdAt: int)

  /** The payload of both registration and login; the password as its bytes. */
  datatype AuthRequest = AuthRequest(email: string, password: seq<Crypto.byte>)

  datatype LoginResponse = LoginResponse(token: Jwt.Token, user: User)
}
