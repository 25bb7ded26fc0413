/** The signed-in user held in the application store, and its three reducers. */
module UserSlice {
  import opened Wrappers

  /** The user state; `lastLogin` is in milliseconds, `None` for null. */
  datatype User = User(name: string, username: string, email: string, uid: string,
                       streakCount: int, lastLogin: Option<int>)

  /** Nobody signed in. */
  const InitialUser := User("", "", "", "", 0, None)

  /** The `signInUser` payload; the streak fields may be missing. */
  datatype SignInPayload = SignInPayload(name: string, username: string, email: string, uid: string,
                                         streakCount: Option<int>, lastLogin: Option<int>)

  /** The state `signInUser` produces: the identity fields copied, the streak fields defaulted when falsy. */
  function SignedIn(p: SignInPayload): (u: User)
    ensures u.name == p.name && u.username == p.username && u.email == p.email && u.uid == p.uid
    ensures p.streakCount.None? || p.streakCount == Some(0) ==> u.streakCount == 0
    ensures p.streakCount.Some? ==> u.streakCount == p.streakCount.value
    ensures u.lastLogin == p.lastLogin
  {
    User(p.name, p.username, p.email, p.uid, p.streakCount.GetOr(0), p.lastLogin)
  }

  class UserStore {
    var name: string
    var username: string
    var email: string
    var uid: string
    var streakCount: int
    var lastLogin: Option<int>

    function View(): User
      reads this
    {
      User(name, username, email, uid, streakCount, lastLogin)
    }

    constructor ()
      ensures View() == InitialUser
    {
      name, username, email, uid := "", "", "", "";
      streakCount, lastLogin := 0, None;
    }

    /** `signInUser`: every field is overwritten from the payload. */
    method SignInUser(p: SignInPayload)
      modifies this
      ensures View() == SignedIn(p)
    {
      name := p.name;
      username := p.username;
      email := p.email;
      uid := p.uid;
      streakCount := p.streakCount.GetOr(0);
      lastLogin := p.lastLogin;
    }

    /** `signOutUser`: back to exactly the initial state, whatever came before (so it is idempotent). */
    method SignOutUser()
      modifies this
      ensures View() == InitialUser
    {
      name, username, email, uid := "", "", "", "";
      streakCount := 0;
      lastLogin := None;
    }

    /** `updateStreak`: only the two streak fields change. */
    method UpdateStreak(count: int, last: Option<int>)
      modifies this
      ensures View() == old(View()).(streakCount := count, lastLogin := last)
    {
      streakCount := count;
      lastLogin := last;
    }
  }

  /** Signing in and then out leaves the store as it started. */
  method SignInThenOut(p: SignInPayload) returns (u: User)
    ensures u == InitialUser
  {
    var store := new UserStore();
    store.SignInUser(p);
    store.SignOutUser();
    u := store.View();
  }
}
