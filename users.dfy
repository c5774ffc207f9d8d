/** The `User` entity and the lookups of `UsersService` that the auth gates call. */
module Users {
  import opened Wrappers
  import opened JsValues

  /** One stored user; `createdAt` is the creation timestamp as an opaque instant. */
  datatype User = User(
    id: int,
    username: string,
    email: string,
    passwordHash: string,
    role: string,
    createdAt: int)

  /** A user record with `passwordHash` taken out (`const { passwordHash, ...result } = user`). */
  datatype PublicUser = PublicUser(
    id: int,
    username: string,
    email: string,
    role: string,
    createdAt: int)

  function WithoutHash(u: User): (p: PublicUser)
    ensures p.id == u.id && p.username == u.username && p.email == u.email
    ensures p.role == u.role && p.createdAt == u.createdAt
  {
    PublicUser(u.id, u.username, u.email, u.role, u.createdAt)
  }

  /** `findOneBy({ <column>: k })`: the first user whose column holds `k`, or null when none does. */
  function FindBy<K(==)>(users: seq<User>, column: User -> K, k: K): (r: Option<User>)
    ensures r.Some? ==> r.value in users && column(r.value) == k
    ensures r.None? <==> forall u :: u in users ==> column(u) != k
  {
    if users == [] then None
    else if column(users[0]) == k then Some(users[0])
    else FindBy(users[1..], column, k)
  }

  /** A user appended with a value no earlier user has in that column is found by it. */
  lemma {:induction false} FindByAppend<K>(users: seq<User>, column: User -> K, u: User)
    requires forall v :: v in users ==> column(v) != column(u)
    ensures FindBy(users + [u], column, column(u)) == Some(u)
  {
    if users != [] {
      assert (users + [u])[1..] == users[1..] + [u];
      FindByAppend(users[1..], column, u);
    }
  }

  /** The `email` and `id` columns, as lookup keys. */
  function Email(u: User): string { u.email }
  function Key(u: User): int { u.id }

  /** `findByEmail(email)`: `findOneBy({ email })`. */
  function FindByEmail(users: seq<User>, email: string): (r: Option<User>)
    ensures r.Some? ==> r.value in users && r.value.email == email
    ensures r.None? <==> forall u :: u in users ==> u.email != email
  {
    FindBy(users, Email, email)
  }

  /** `findById(userId)`: the key is `Number(userId)`; NaN matches no user. */
  function FindById(users: seq<User>, userId: JsValue): (r: Option<User>)
    ensures r.Some? ==> r.value in users && ToNumber(userId) == Some(r.value.id)
    ensures r.None? <==> ToNumber(userId).None? || forall u :: u in users ==> Some(u.id) != ToNumber(userId)
  {
    match ToNumber(userId)
    case None => None
    case Some(id) => FindBy(users, Key, id)
  }
}
