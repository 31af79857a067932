/**
 * Who sent a message: the caller's identity claims, looked up in the
 * Users table by id (`Users.Find(User.Identity.GetUserId())`). An
 * unauthenticated caller, or one whose id no user has, posts anonymously.
 */
module SenderResolution {
  import opened Wrappers
  import opened Linq
  import opened Models

  /** The claims of an authenticated caller: `GetUserId()` and `GetUserName()`. */
  datatype Principal = Principal(userId: string, userName: string)

  function ResolveSender(users: seq<User>, caller: Option<Principal>): (r: Option<User>)
    ensures r.Some? <==> caller.Some? && exists u :: u in users && u.id == caller.value.userId
    ensures r.Some? ==> r.value in users && r.value.id == caller.value.userId
  {
    match caller
    case None => None
    case Some(p) =>
      var r := FirstOrDefault(users, (u: User) => u.id == p.userId);
      assert r.None? ==> forall u :: u in users ==> u.id != p.userId by {
        if r.None? {
          forall u | u in users ensures u.id != p.userId {
            var i :| 0 <= i < |users| && users[i] == u;
          }
        }
      }
      r
  }
}
