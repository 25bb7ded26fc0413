/**
 * Google sign-in from the log-in modal: the re-entry guard on the loading
 * flag, the profile derived from the Google account, the store updates on
 * success, and the alert chosen for each failure code. The popup itself is
 * an outcome passed in.
 */
module LogInModal {
  import opened Wrappers
  import Text
  import UserSlice
  import ModalSlice

  /** The fields of the signed-in Google account that the handler reads. */
  datatype GoogleUser = GoogleUser(displayName: Option<string>, email: Option<string>, uid: string)

  /** How the popup sign-in ended: with an account, or with an error carrying an optional code. */
  datatype SignInOutcome = Success(user: GoogleUser) | Failure(code: Option<string>)

  /** `email?.split("@")[0]`: the text before the first '@', absent when there is no email. */
  function LocalPart(email: Option<string>): (r: Option<string>)
    ensures r.None? <==> email.None?
    ensures email.Some? ==> Text.BeforeFirst(email.value, '@') == r.value
  {
    match email
    case None => None
    case Some(e) => Some(Text.BeforeFirst(e, '@'))
  }

  /** A JavaScript string is truthy when it is present and non-empty. */
  predicate Truthy(s: Option<string>) {
    s.Some? && s.value != ""
  }

  /** The display name, else the email's local part, else "Unknown User". */
  function ProfileName(u: GoogleUser): (name: string)
    ensures Truthy(u.displayName) ==> name == u.displayName.value
    ensures !Truthy(u.displayName) && Truthy(LocalPart(u.email)) ==> name == LocalPart(u.email).value
    ensures !Truthy(u.displayName) && !Truthy(LocalPart(u.email)) ==> name == "Unknown User"
  {
    if Truthy(u.displayName) then u.displayName.value
    else if Truthy(LocalPart(u.email)) then LocalPart(u.email).value
    else "Unknown User"
  }

  /** The email's local part, else "unknown"; never contains '@'. */
  function ProfileUsername(u: GoogleUser): (username: string)
    ensures username != ""
    ensures '@' !in username
    ensures Truthy(LocalPart(u.email)) ==> username == LocalPart(u.email).value
    ensures !Truthy(LocalPart(u.email)) ==> username == "unknown"
  {
    if Truthy(LocalPart(u.email)) then LocalPart(u.email).value else "unknown"
  }

  /** The `signInUser` payload: the streak fields are not sent, the email defaults to "" and the uid is copied. */
  function Profile(u: GoogleUser): (p: UserSlice.SignInPayload)
    ensures p.name == ProfileName(u) && p.username == ProfileUsername(u)
    ensures p.email == u.email.GetOr("") && p.uid == u.uid
    ensures p.streakCount.None? && p.lastLogin.None?
  {
    UserSlice.SignInPayload(ProfileName(u), ProfileUsername(u), u.email.GetOr(""), u.uid, None, None)
  }

  /** The text before the first separator of `l + [sep] + rest` is `l` when `l` has no separator. */
  lemma BeforeFirstOfJoin(l: string, sep: char, rest: string)
    requires sep !in l
    ensures Text.BeforeFirst(l + [sep] + rest, sep) == l
  {
    var s := l + [sep] + rest;
    var r := Text.BeforeFirst(s, sep);
    assert s[|l|] == sep;
    assert s[..|l|] == l;
  }

  /**
   * For an account without a display name whose email is `local@domain`
   * with a non-empty local part, both the name and the username are that
   * local part.
   */
  lemma ProfileFromEmail(local: string, domain: string, uid: string)
    requires '@' !in local && local != ""
    ensures var u := GoogleUser(None, Some(local + "@" + domain), uid);
            ProfileName(u) == local && ProfileUsername(u) == local &&
            Profile(u).email == local + "@" + domain
  {
    BeforeFirstOfJoin(local, '@', domain);
    assert local + "@" + domain == local + ['@'] + domain;
  }

  /** The username is always a prefix of the email when it comes from it. */
  lemma UsernameIsEmailPrefix(u: GoogleUser)
    requires ProfileUsername(u) != "unknown"
    ensures u.email.Some? && ProfileUsername(u) <= u.email.value
  {
  }

  /** The alerts the handler can raise. */
  datatype Alert = PopupBlocked | NetworkError | TooManyRequests | GenericFailure

  /** The icon that opens each alert's message. */
  function AlertIcon(a: Alert): char {
    match a
    case PopupBlocked => '🚫'
    case NetworkError => '🌐'
    case TooManyRequests => '⏰'
    case GenericFailure => '❌'
  }

  /** The message passed to `alert`: its icon, then the text. */
  function AlertText(a: Alert): string {
    [AlertIcon(a)] +
    match a
    case PopupBlocked => " Popup was blocked by your browser. Please allow popups for this site and try again."
    case NetworkError => " Network error. Please check your connection and try again."
    case TooManyRequests => " Too many attempts. Please wait a moment and try again."
    case GenericFailure => " Sign-in failed. Please try again."
  }

  /** Each alert shows its own message, so the user can tell the failures apart. */
  lemma AlertTextsDistinct(a: Alert, b: Alert)
    requires a != b
    ensures AlertText(a) != AlertText(b)
  {
    AlertIconsDistinct(a, b);
    AlertTextStartsWithIcon(a);
    AlertTextStartsWithIcon(b);
  }

  lemma AlertIconsDistinct(a: Alert, b: Alert)
    requires a != b
    ensures AlertIcon(a) != AlertIcon(b)
  {
  }

  lemma AlertTextStartsWithIcon(a: Alert)
    ensures |AlertText(a)| > 0 && AlertText(a)[0] == AlertIcon(a)
  {
  }

  /** The error-code chain: the alert raised for a failure, or none. */
  function AlertFor(code: Option<string>): (a: Option<Alert>)
    ensures code == Some("auth/popup-blocked") ==> a == Some(PopupBlocked)
    ensures code == Some("auth/network-request-failed") ==> a == Some(NetworkError)
    ensures code == Some("auth/too-many-requests") ==> a == Some(TooManyRequests)
  {
    if code == Some("auth/popup-blocked") then Some(PopupBlocked)
    else if code == Some("auth/popup-closed-by-user") then None
    else if code == Some("auth/cancelled-popup-request") then None
    else if code == Some("auth/network-request-failed") then Some(NetworkError)
    else if code == Some("auth/too-many-requests") then Some(TooManyRequests)
    else Some(GenericFailure)
  }

  /** No alert exactly when the user closed the popup or another popup request cancelled it. */
  lemma NoAlertIffDismissed(code: Option<string>)
    ensures AlertFor(code).None? <==>
              code == Some("auth/popup-closed-by-user") || code == Some("auth/cancelled-popup-request")
  {
  }

  /** Every code outside the five known ones, and a missing code, raises the generic alert. */
  lemma UnknownCodeGeneric(code: Option<string>)
    requires code !in {Some("auth/popup-blocked"), Some("auth/popup-closed-by-user"),
                       Some("auth/cancelled-popup-request"), Some("auth/network-request-failed"),
                       Some("auth/too-many-requests")}
    ensures AlertFor(code) == Some(GenericFailure)
  {
  }

  class GoogleSignIn {
    var isGoogleLoading: bool
    const user: UserSlice.UserStore
    const modals: ModalSlice.ModalStore

    constructor (user: UserSlice.UserStore, modals: ModalSlice.ModalStore)
      ensures this.user == user && this.modals == modals && !isGoogleLoading
    {
      this.user := user;
      this.modals := modals;
      isGoogleLoading := false;
    }

    /** The start of `handleGoogleSignIn`: returns at once while a sign-in runs, otherwise sets the loading flag. */
    method Begin() returns (proceed: bool)
      modifies this
      ensures proceed <==> !old(isGoogleLoading)
      ensures isGoogleLoading
    {
      if isGoogleLoading {
        return false;
      }
      isGoogleLoading := true;
      proceed := true;
    }

    /**
     * The end of `handleGoogleSignIn` once the popup settles: on success the
     * profile is signed in and the log-in modal closed; on failure the store
     * is untouched and the code picks the alert. Loading ends either way.
     */
    method Settle(outcome: SignInOutcome) returns (alert: Option<Alert>, shown: Option<string>)
      modifies this, user, modals
      ensures !isGoogleLoading
      ensures shown.None? <==> alert.None?
      ensures alert.Some? ==> shown == Some(AlertText(alert.value))
      ensures outcome.Success? ==>
                alert == None &&
                user.View() == UserSlice.SignedIn(Profile(outcome.user)) &&
                modals.View() == ModalSlice.Reduce(old(modals.View()), ModalSlice.Close(ModalSlice.LogIn))
      ensures outcome.Failure? ==>
                alert == AlertFor(outcome.code) && unchanged(user) && unchanged(modals)
    {
      match outcome {
        case Success(u) =>
          user.SignInUser(Profile(u));
          modals.CloseLogInModal();
          alert := None;
        case Failure(code) =>
          alert := AlertFor(code);
      }
      shown := if alert.Some? then Some(AlertText(alert.value)) else None;
      isGoogleLoading := false;
    }
  }

  /** A signed-in Google account replaces any earlier user and leaves the streak at its defaults. */
  lemma SignedInProfileDefaults(u: GoogleUser)
    ensures UserSlice.SignedIn(Profile(u)).streakCount == 0
    ensures UserSlice.SignedIn(Profile(u)).lastLogin.None?
    ensures UserSlice.SignedIn(Profile(u)).uid == u.uid
  {
  }
}
