/**
 * The user table the service reads and writes through its repository: a map
 * from e-mail address to account, and the next value of the id sequence.
 * A failure of the database (connection lost, query error) is the parameter
 * fault: Some(message) makes the call fail with that message.
 */
module Storage {
  import opened Wrappers
  import opened Model
  import Crypto

  datatype StoreError =
    | NoRows            // pgx.ErrNoRows: the lookup found nothing
    | UniqueViolation   // the unique constraint on users.email
    | DbError(message: string)

  class UserStore {
    var users: map<string, User>
    var nextId: int

    /** Every account is filed under its own address, ids come from the
        sequence and no two accounts share one. */
    ghost predicate Valid()
      reads this
    {
      && nextId >= 1
      && (forall e | e in users :: users[e].email == e && 1 <= users[e].id < nextId)
      && (forall e1, e2 | e1 in users && e2 in users && users[e1].id == users[e2].id :: e1 == e2)
    }

    constructor ()
      ensures Valid() && users == map[] && nextId == 1
    {
      users := map[];
      nextId := 1;
    }

    /** Looks the account up by its exact address. The repository's query is
        not part of this model; an exact-match lookup is assumed. */
    method GetUserByEmail(email: string, fault: Option<string>) returns (r: Result<User, StoreError>)
      ensures fault.Some? ==> r == Failure(DbError(fault.value))
      ensures fault.None? && email in users ==> r == Success(users[email])
      ensures fault.None? && email !in users ==> r == Failure(NoRows)
    {
      if fault.Some? {
        return Failure(DbError(fault.value));
      }
      if email in users {
        r := Success(users[email]);
      } else {
        r := Failure(NoRows);
      }
    }

    /** Inserts an account and returns it. The repository's insert is not part
        of this model; assumed: the id is the next sequence value, the account
        starts active, and a second account with the same address is refused. */
    method CreateUser(email: string, hash: Crypto.PasswordHash, now: int, fault: Option<string>)
      returns (r: Result<User, StoreError>)
      requires Valid()
      modifies this
      ensures Valid()
      ensures fault.Some? ==> r == Failure(DbError(fault.value))
      ensures fault.None? && email in old(users) ==> r == Failure(UniqueViolation)
      ensures r.Failure? ==> users == old(users) && nextId == old(nextId)
      ensures fault.None? && email !in old(users) ==>
        && r == Success(User(old(nextId), email, hash, true, now))
        && users == old(users)[email := r.value]
        && nextId == old(nextId) + 1
    {
      if fault.Some? {
        return Failure(DbError(fault.value));
      }
      if email in users {
        return Failure(UniqueViolation);
      }
      var user := User(nextId, email, hash, true, now);
      users := users[email := user];
      nextId := nextId + 1;
      r := Success(user);
    }
  }
}
