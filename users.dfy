/**
 * Users and subscriptions (backend/users/models.py): the role choices and
 * the role properties, the unique username and e-mail, the model-level
 * check that refuses subscribing to oneself, and the unique (user, author)
 * pair of a subscription.
 */
module Users {

  import opened Wrappers
  import Rows

  type UserId = nat

  /** The role choices USER, GUEST and ADMIN. */
  datatype Role = UserRole | GuestRole | AdminRole

  /** A user created without an explicit role gets USER. */
  const DefaultRole: Role := UserRole

  /** A user account; the primary key is the key of the users table. */
  datatype User = User(
    username: string,
    email: string,
    firstName: string,
    lastName: string,
    role: Role,
    isStaff: bool)

  /** Staff accounts are administrators whatever their role. */
  predicate IsAdmin(u: User)
  {
    u.isStaff || u.role == AdminRole
  }

  predicate IsGuest(u: User)
  {
    u.role == GuestRole
  }

  predicate IsUser(u: User)
  {
    u.role == UserRole
  }

  /** Every account has exactly one role; only staff can be admin beside another role. */
  lemma RolePredicates(u: User)
    ensures !(IsGuest(u) && IsUser(u))
    ensures IsGuest(u) || IsUser(u) || IsAdmin(u)
    ensures IsAdmin(u) && !u.isStaff ==> !IsGuest(u) && !IsUser(u)
    ensures IsAdmin(u) <==> u.isStaff || (!IsGuest(u) && !IsUser(u))
  {
  }

  /** A new account: fields as given, role defaulting to USER when absent. */
  function NewUser(username: string, email: string, firstName: string, lastName: string,
                   isStaff: bool, role: Option<Role>): (u: User)
    ensures u.username == username && u.email == email
    ensures u.firstName == firstName && u.lastName == lastName && u.isStaff == isStaff
    ensures role.Some? ==> u.role == role.value
    ensures role.None? ==> IsUser(u) && !IsGuest(u) && (IsAdmin(u) <==> isStaff)
  {
    User(username, email, firstName, lastName, if role.Some? then role.value else DefaultRole, isStaff)
  }

  /** No two accounts share a username or an e-mail. */
  ghost predicate UsersUnique(users: map<UserId, User>)
  {
    forall a, b :: a in users && b in users && a != b ==>
      users[a].username != users[b].username && users[a].email != users[b].email
  }

  /**
   * Saving a new account: the database refuses a taken primary key, a taken
   * username and a taken e-mail, in that order, and otherwise stores it.
   */
  function InsertUser(users: map<UserId, User>, id: UserId, u: User): (r: Result<map<UserId, User>, string>)
    ensures r.Success? <==>
      id !in users && forall k :: k in users ==> users[k].username != u.username && users[k].email != u.email
    ensures r.Success? ==> r.value == users[id := u]
    ensures UsersUnique(users) && r.Success? ==> UsersUnique(r.value)
  {
    if id in users then Failure("users_user_pkey")
    else if exists k :: k in users && users[k].username == u.username then Failure("users_user_username_key")
    else if exists k :: k in users && users[k].email == u.email then Failure("users_user_email_key")
    else Success(users[id := u])
  }

  /** A subscription row: `user` follows `author`. */
  datatype Subscribe = Subscribe(user: UserId, author: UserId)

  const SelfSubscribeMessage: string := "На самого себя нельзя подписываться"

  /** The model-level check: nobody may subscribe to themselves. */
  function Clean(s: Subscribe): Outcome<string>
  {
    if s.user == s.author then Fail(SelfSubscribeMessage) else Pass
  }

  /**
   * Validating and saving a new subscription: `Clean` first, then the
   * unique (user, author) constraint when the row is written.
   */
  function AddSubscription(rows: seq<Subscribe>, s: Subscribe): (r: Result<seq<Subscribe>, string>)
    ensures r.Success? <==> s.user != s.author && s !in rows
    ensures r.Success? ==> r.value == rows + [s]
    ensures s.user == s.author ==> r == Failure(SelfSubscribeMessage)
    ensures s.user != s.author && s in rows ==> r == Failure("unique_subscribe_user_author")
    ensures Rows.NoDuplicates(rows) && r.Success? ==> Rows.NoDuplicates(r.value)
  {
    match Clean(s)
    case Fail(message) => Failure(message)
    case Pass => Rows.InsertUnique(rows, s, "unique_subscribe_user_author")
  }

  /** Subscribing twice to the same author fails the second time and stores one row. */
  lemma SubscribeTwice(rows: seq<Subscribe>, s: Subscribe)
    requires AddSubscription(rows, s).Success?
    ensures AddSubscription(AddSubscription(rows, s).value, s) == Failure("unique_subscribe_user_author")
  {
  }
}
