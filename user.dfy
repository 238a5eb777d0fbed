/** The user record of `src/models/user.rs` and the registration body it is built from. */
module UserModel {
  import opened Ids
  import opened Clock

  datatype User = User(
    user_id: Uuid,
    username: string,
    email: string,
    password: string,
    user_type: string,
    created_at: Instant,
    updated_at: Instant)

  /**
    `User::new`. The fresh identifier and the clock reading are parameters; the four
    fields the caller gives are kept as they are, so the password is stored exactly as
    passed in and hashing it is the caller's job.
  */
  function New(id: Uuid, now: Instant, username: string, email: string, password: string, user_type: string): (u: User)
    ensures u.username == username && u.email == email && u.password == password && u.user_type == user_type
    ensures u.user_id == id && u.created_at == now && u.updated_at == now
  {
    User(id, username, email, password, user_type, now, now)
  }

  /** The body `POST /users/register` accepts. */
  datatype NewUser = NewUser(username: string, email: string, password: string, user_type: string)

  /** `NewUser::to_user`, read as `User::new` over the body's four fields. */
  function ToUser(r: NewUser, id: Uuid, now: Instant): (u: User)
    ensures u.username == r.username && u.email == r.email && u.password == r.password && u.user_type == r.user_type
    ensures u.user_id == id && u.created_at == now && u.updated_at == now
  {
    New(id, now, r.username, r.email, r.password, r.user_type)
  }

  /** The identifier `User::new` assigns depends on the generator alone, never on the fields. */
  lemma NewIdIgnoresFields(id: Uuid, now: Instant, a: NewUser, b: NewUser)
    ensures ToUser(a, id, now).user_id == ToUser(b, id, now).user_id
    ensures a != b ==> ToUser(a, id, now) != ToUser(b, id, now)
  {
  }
}
