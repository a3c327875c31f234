/**
 * Resolution of the current user: with no `user_id` in the session a fixed
 * administrator record stands in; with one, the `users` row of that id is
 * fetched, and a guest record stands in when there is none.
 */
module FetchUser {
  import opened Wrappers
  import opened PhpValue
  import opened Search

  /** A row of `users`; every column but the key may be NULL. */
  datatype User = User(
    userId: int, username: Option<string>, email: Option<string>,
    profilePic: Option<string>, fullName: Option<string>)

  /** A PHP associative array with string keys, as `$user` holds it. */
  type Assoc = map<string, Value>

  const DefaultPic := "https://cdn-icons-png.flaticon.com/512/847/847969.png"

  /** The test user assumed when nobody is logged in. */
  const Admin: Assoc := map[
    "user_id" := Int(1),
    "username" := Str("admin"),
    "email" := Str("admin@example.com"),
    "profile_pic" := Str(DefaultPic),
    "full_name" := Str("Administrator")]

  /** The stand-in for a session user id that no row carries: it has neither `email` nor `full_name`. */
  const Guest: Assoc := map[
    "user_id" := Int(0),
    "username" := Str("guest"),
    "profile_pic" := Str(DefaultPic)]

  function Column(v: Option<string>): Value {
    match v
    case None => Null
    case Some(s) => Str(s)
  }

  /** `fetch_assoc()` of a row: all five selected columns, a NULL column as null. */
  function AsAssoc(u: User): (a: Assoc)
    ensures a.Keys == {"user_id", "username", "email", "profile_pic", "full_name"}
    ensures a["user_id"] == Int(u.userId)
  {
    map[
      "user_id" := Int(u.userId),
      "username" := Column(u.username),
      "email" := Column(u.email),
      "profile_pic" := Column(u.profilePic),
      "full_name" := Column(u.fullName)]
  }

  /** `SELECT ... FROM users WHERE user_id = ?`, first row of the result. */
  function FindUser(users: seq<User>, id: int): (r: Option<nat>)
    ensures r.Some? ==> r.value < |users| && users[r.value].userId == id
    ensures r.Some? ==> forall j :: 0 <= j < r.value ==> users[j].userId != id
    ensures r.None? <==> forall j :: 0 <= j < |users| ==> users[j].userId != id
  {
    FirstMatch(users, (u: User) => u.userId == id)
  }

  /**
   * The value `$user` ends with, None when it is left unassigned (the lookup
   * statement failed to prepare). `sessionUserId` is None when
   * `$_SESSION['user_id']` is not set.
   */
  function ResolveUser(sessionUserId: Option<int>, users: seq<User>, prepared: bool): (r: Option<Assoc>)
    ensures sessionUserId.None? ==> r == Some(Admin)
    ensures sessionUserId.Some? && !prepared ==> r.None?
    ensures sessionUserId.Some? && prepared ==> r.Some?
    ensures sessionUserId.Some? && prepared && FindUser(users, sessionUserId.value).Some? ==>
      && r.value == AsAssoc(users[FindUser(users, sessionUserId.value).value])
      && r.value["user_id"] == Int(sessionUserId.value)
    ensures sessionUserId.Some? && prepared && FindUser(users, sessionUserId.value).None? ==>
      r == Some(Guest)
  {
    match sessionUserId
    case None => Some(Admin)
    case Some(id) =>
      if !prepared then None
      else
        match FindUser(users, id)
        case Some(i) => Some(AsAssoc(users[i]))
        case None => Some(Guest)
  }

  /** The guest record carries neither `email` nor `full_name`, so it never equals a fetched row or the admin. */
  lemma GuestIsNoRow(u: User)
    ensures "email" !in Guest && "full_name" !in Guest
    ensures Guest != AsAssoc(u) && Guest != Admin
  {
    assert "email" in AsAssoc(u);
    assert "email" in Admin;
  }

  /**
   * A logged-in user gets the admin record only if the table itself holds a
   * row identical to it (the row of id 1, named "admin", ...); in particular
   * a user id no row carries never gets it.
   */
  lemma AdminOnlyWithoutSession(sessionUserId: Option<int>, users: seq<User>, prepared: bool)
    requires ResolveUser(sessionUserId, users, prepared) == Some(Admin)
    ensures sessionUserId.None? || exists i :: 0 <= i < |users| && AsAssoc(users[i]) == Admin
    ensures sessionUserId.Some? ==> FindUser(users, sessionUserId.value).Some?
  {
    if sessionUserId.Some? {
      GuestIsNoRow(User(0, None, None, None, None));
    }
  }
}
