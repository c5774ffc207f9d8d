/**
 * `AuthService`: registration (hash before store), the credential gate and the login
 * payload. bcrypt's `hash` and `compare` and the JWT `sign` are uninterpreted functions
 * passed in as parameters.
 */
module AuthService {
  import opened Wrappers
  import opened JsValues
  import opened Users
  import opened JwtStrategy

  /** The registration body; `password` is the DTO field named `passwordHash`, which holds the raw password. */
  datatype CreateUserDto = CreateUserDto(username: string, email: string, password: string, role: Option<string>)

  /** `{ access_token, role }`. */
  datatype LoginResponse = LoginResponse(accessToken: string, role: string)

  /** The unique-constraint violation the users table raises on a duplicate email or username. */
  datatype RegisterError = DuplicateEmail | DuplicateUsername

  const InvalidCredentials := Unauthorized("Invalid credentials")

  /** The `role` column's default when the body carries none. */
  const DefaultRole := "user"

  /** `validateUser(email, password)`. */
  function ValidateUser(users: seq<User>, email: string, password: string, compare: (string, string) -> bool): (r: Result<PublicUser, AuthError>)
    ensures r.Failure? ==> r.error == InvalidCredentials
    ensures (forall u :: u in users ==> u.email != email) ==> r == Failure(InvalidCredentials)
    ensures r.Success? <==> FindByEmail(users, email).Some? && compare(password, FindByEmail(users, email).value.passwordHash)
    ensures r.Success? ==> exists u :: u in users && u.email == email && compare(password, u.passwordHash) && r.value == WithoutHash(u)
  {
    match FindByEmail(users, email)
    case Some(user) =>
      if compare(password, user.passwordHash) then Success(WithoutHash(user)) else Failure(InvalidCredentials)
    case None => Failure(InvalidCredentials)
  }

  /** An unknown email and a wrong password are rejected with the very same exception. */
  lemma FailuresIndistinguishable(users: seq<User>, unknown: string, known: string, wrong: string, compare: (string, string) -> bool)
    requires forall u :: u in users ==> u.email != unknown
    requires FindByEmail(users, known).Some? && !compare(wrong, FindByEmail(users, known).value.passwordHash)
    ensures ValidateUser(users, unknown, wrong, compare) == ValidateUser(users, known, wrong, compare)
  {
  }

  /** The payload `login` signs. */
  function LoginPayload(user: PublicUser): Payload
  {
    Payload(Num(user.id), Str(user.username))
  }

  /** `login(user)`: the signed token and the user's role. */
  function Login(user: PublicUser, sign: Payload -> string): (r: LoginResponse)
    ensures r.role == user.role
    ensures r.accessToken == sign(Payload(Num(user.id), Str(user.username)))
  {
    LoginResponse(sign(LoginPayload(user)), user.role)
  }

  /** A token issued at login passes `validate` for a stored user whose id is not 0. */
  lemma LoginPayloadValidates(users: seq<User>, u: User)
    requires u in users && u.id != 0
    ensures Validate(Some(LoginPayload(WithoutHash(u))), users) == Success(Identity(Num(u.id), Str(u.username)))
  {
  }

  predicate UniqueAccounts(users: seq<User>)
  {
    forall i, j :: 0 <= i < j < |users| ==> users[i].email != users[j].email && users[i].username != users[j].username
  }

  /** The row `register` inserts: the hash, never the raw password; the other fields as given. */
  function NewUser(id: int, dto: CreateUserDto, hash: string -> string, now: int): (u: User)
    ensures u.passwordHash == hash(dto.password)
    ensures u.username == dto.username && u.email == dto.email
    ensures u.role == if dto.role.Some? then dto.role.value else DefaultRole
  {
    User(id, dto.username, dto.email, hash(dto.password), if dto.role.Some? then dto.role.value else DefaultRole, now)
  }

  /**
   * Registration followed by login with the same credentials: the credential gate accepts
   * them (given that `compare` accepts a password against its own hash), and the token
   * issued resolves to the new user.
   */
  lemma RegisterThenLogin(users: seq<User>, id: int, dto: CreateUserDto, now: int,
                          hash: string -> string, compare: (string, string) -> bool)
    requires forall u :: u in users ==> u.email != dto.email && u.id != id
    requires compare(dto.password, hash(dto.password))
    requires id != 0
    ensures var stored := users + [NewUser(id, dto, hash, now)];
      && ValidateUser(stored, dto.email, dto.password, compare) == Success(WithoutHash(NewUser(id, dto, hash, now)))
      && Validate(Some(LoginPayload(WithoutHash(NewUser(id, dto, hash, now)))), stored)
         == Success(Identity(Num(id), Str(dto.username)))
  {
    var u := NewUser(id, dto, hash, now);
    var stored := users + [u];
    FindByEmailAppend(users, u);
    assert u in stored;
    LoginPayloadValidates(stored, u);
  }

  lemma {:induction false} FindByEmailAppend(users: seq<User>, u: User)
    requires forall v :: v in users ==> v.email != u.email
    ensures FindByEmail(users + [u], u.email) == Some(u)
  {
    FindByAppend(users, Email, u);
  }

  /** The key and uniqueness invariant of the users table over its rows and next key. */
  predicate SoundTable(users: seq<User>, nextId: int)
  {
    && nextId >= 1
    && (forall i :: 0 <= i < |users| ==> 1 <= users[i].id < nextId)
    && (forall i, j :: 0 <= i < j < |users| ==> users[i].id != users[j].id)
    && UniqueAccounts(users)
  }

  /** Appending an account with a fresh email, a fresh username and the next key keeps the table sound. */
  lemma AddAccount(users: seq<User>, u: User, nextId: int)
    requires SoundTable(users, nextId)
    requires forall v :: v in users ==> v.email != u.email && v.username != u.username
    requires u.id == nextId
    ensures SoundTable(users + [u], nextId + 1)
  {
    var s := users + [u];
    forall i, j | 0 <= i < j < |s|
      ensures s[i].id != s[j].id && s[i].email != s[j].email && s[i].username != s[j].username
    {
      if j == |users| {
        assert s[i] == users[i] && users[i] in users;
      }
    }
  }

  /** The users table behind `UsersService`: `users` are the rows, `nextId` the next generated key. */
  class UserRepository {
    var users: seq<User>
    var nextId: int

    ghost predicate Valid()
      reads this
    {
      SoundTable(users, nextId)
    }

    constructor ()
      ensures Valid() && users == []
    {
      users := [];
      nextId := 1;
    }

    /**
     * `register(dto)`: hash the password, then `usersService.create`. The table's unique
     * constraints reject a duplicate email or username; the saved entity is returned as
     * it was stored, hash included.
     */
    method Register(dto: CreateUserDto, hash: string -> string, now: int) returns (r: Result<User, RegisterError>)
      requires Valid()
      modifies this
      ensures Valid()
      ensures r.Failure? <==> (exists u :: u in old(users) && (u.email == dto.email || u.username == dto.username))
      ensures r.Failure? ==> users == old(users) && nextId == old(nextId)
      ensures r.Success? ==> r.value == NewUser(old(nextId), dto, hash, now) && users == old(users) + [r.value]
      ensures r.Success? ==> FindByEmail(users, dto.email) == Some(r.value)
    {
      if exists u :: u in users && u.email == dto.email {
        r := Failure(DuplicateEmail);
      } else if exists u :: u in users && u.username == dto.username {
        r := Failure(DuplicateUsername);
      } else {
        var u := NewUser(nextId, dto, hash, now);
        FindByEmailAppend(users, u);
        AddAccount(users, u, nextId);
        users := users + [u];
        nextId := nextId + 1;
        r := Success(u);
      }
    }
  }
}
