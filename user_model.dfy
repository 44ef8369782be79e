/** The `users` table row and its two existence queries (server/models/user.py). */
module UserModel {
  import opened Wrappers

  /** A registered account; `username` and `email` are UNIQUE columns, the password only ever as its hash. */
  datatype User = User(
    id: int,
    username: string,
    email: string,
    passwordHash: string,
    createdAt: nat,
    updatedAt: Option<nat>)

  /** `User.is_username_exists`: is there a row whose username equals `username` exactly? */
  function IsUsernameExists(users: seq<User>, username: string): (r: bool)
    ensures r <==> exists k :: 0 <= k < |users| && users[k].username == username
  {
    if users == [] then false
    else users[0].username == username || IsUsernameExists(users[1..], username)
  }

  /** `User.is_email_exists`: is there a row whose email equals `email` exactly? */
  function IsEmailExists(users: seq<User>, email: string): (r: bool)
    ensures r <==> exists k :: 0 <= k < |users| && users[k].email == email
  {
    if users == [] then false
    else users[0].email == email || IsEmailExists(users[1..], email)
  }

  /** The foreign-key target `users.id`: is there a row with this id? */
  predicate UserExists(users: seq<User>, id: int) {
    exists u :: u in users && u.id == id
  }

  /** Looking up the empty string finds nothing unless a row stores an empty email. */
  lemma EmptyEmailNotFound(users: seq<User>)
    requires forall u :: u in users ==> u.email != ""
    ensures !IsEmailExists(users, "")
  {
  }
}
