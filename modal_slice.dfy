/** Which modal dialogs are open, the post the comment modal is about, and the website URL. */
module ModalSlice {

  datatype PostDetails = PostDetails(name: string, username: string, id: string, text: string)

  datatype Modals = Modals(
    signUpModalOpen: bool,
    logInModalOpen: bool,
    commentModalOpen: bool,
    commentPostDetails: PostDetails,
    websiteModalOpen: bool,
    websiteUrl: string)

  /** Every modal closed, no post details, no URL. */
  const InitialModals := Modals(false, false, false, PostDetails("", "", "", ""), false, "")

  datatype Modal = SignUp | LogIn | CommentPost | Website

  /** The ten reducers, as actions. */
  datatype Action =
    | Open(modal: Modal)
    | Close(modal: Modal)
    | SetCommentDetails(details: PostDetails)
    | SetWebsiteUrl(url: string)

  function IsOpen(s: Modals, m: Modal): bool {
    match m
    case SignUp => s.signUpModalOpen
    case LogIn => s.logInModalOpen
    case CommentPost => s.commentModalOpen
    case Website => s.websiteModalOpen
  }

  function SetOpen(s: Modals, m: Modal, v: bool): Modals {
    match m
    case SignUp => s.(signUpModalOpen := v)
    case LogIn => s.(logInModalOpen := v)
    case CommentPost => s.(commentModalOpen := v)
    case Website => s.(websiteModalOpen := v)
  }

  /**
   * The slice's reducer: an open or close sets its modal's flag, closing the
   * website modal also clears the URL, and the two setters store their payload.
   */
  function Reduce(s: Modals, a: Action): (r: Modals)
    ensures a.Open? ==> IsOpen(r, a.modal)
    ensures a.Close? ==> !IsOpen(r, a.modal)
    ensures a == Close(Website) ==> r.websiteUrl == ""
    ensures a.SetCommentDetails? ==> r.commentPostDetails == a.details
    ensures a.SetWebsiteUrl? ==> r.websiteUrl == a.url
  {
    match a
    case Open(m) => SetOpen(s, m, true)
    case Close(Website) => s.(websiteModalOpen := false, websiteUrl := "")
    case Close(m) => SetOpen(s, m, false)
    case SetCommentDetails(d) => s.(commentPostDetails := d)
    case SetWebsiteUrl(url) => s.(websiteUrl := url)
  }

  /** Initially no modal is open. */
  lemma InitiallyClosed(m: Modal)
    ensures !IsOpen(InitialModals, m)
    ensures InitialModals.commentPostDetails == PostDetails("", "", "", "") && InitialModals.websiteUrl == ""
  {
  }

  /**
   * An open or close reducer sets its own modal's flag and leaves every other
   * flag and the post details alone; only closing the website modal also
   * clears the URL.
   */
  lemma {:induction false} OpenCloseTouchOwnFlag(s: Modals, m: Modal, opening: bool, other: Modal)
    requires other != m
    ensures var s' := Reduce(s, if opening then Open(m) else Close(m));
            IsOpen(s', m) == opening && IsOpen(s', other) == IsOpen(s, other) &&
            s'.commentPostDetails == s.commentPostDetails &&
            s'.websiteUrl == (if !opening && m == Website then "" else s.websiteUrl)
  {
    match m
    case SignUp =>
    case LogIn =>
    case CommentPost =>
    case Website =>
  }

  /** `setWebsiteUrl` changes only the URL: in particular it does not open the website modal. */
  lemma SetUrlOnlyUrl(s: Modals, url: string)
    ensures Reduce(s, SetWebsiteUrl(url)) == s.(websiteUrl := url)
    ensures !IsOpen(s, Website) ==> !IsOpen(Reduce(s, SetWebsiteUrl(url)), Website)
  {
  }

  /** `setCommentDetails` replaces the post details and changes nothing else; no modal opens or closes. */
  lemma SetDetailsOnlyDetails(s: Modals, d: PostDetails)
    ensures Reduce(s, SetCommentDetails(d)) == s.(commentPostDetails := d)
    ensures forall m :: IsOpen(Reduce(s, SetCommentDetails(d)), m) <==> IsOpen(s, m)
  {
  }

  /** Every reducer is idempotent: dispatching the same action twice is the same as once. */
  lemma ReduceIdempotent(s: Modals, a: Action)
    ensures Reduce(Reduce(s, a), a) == Reduce(s, a)
  {
    match a
    case Open(m) =>
    case Close(m) =>
    case SetCommentDetails(d) =>
    case SetWebsiteUrl(u) =>
  }

  /** The slice as the store holds it, updated field by field. */
  class ModalStore {
    var signUpModalOpen: bool
    var logInModalOpen: bool
    var commentModalOpen: bool
    var commentPostDetails: PostDetails
    var websiteModalOpen: bool
    var websiteUrl: string

    function View(): Modals
      reads this
    {
      Modals(signUpModalOpen, logInModalOpen, commentModalOpen, commentPostDetails, websiteModalOpen, websiteUrl)
    }

    constructor ()
      ensures View() == InitialModals
    {
      signUpModalOpen, logInModalOpen, commentModalOpen := false, false, false;
      commentPostDetails := PostDetails("", "", "", "");
      websiteModalOpen, websiteUrl := false, "";
    }

    method OpenSignUpModal()
      modifies this
      ensures View() == Reduce(old(View()), Open(SignUp))
    {
      signUpModalOpen := true;
    }

    method CloseSignUpModal()
      modifies this
      ensures View() == Reduce(old(View()), Close(SignUp))
    {
      signUpModalOpen := false;
    }

    method OpenLogInModal()
      modifies this
      ensures View() == Reduce(old(View()), Open(LogIn))
    {
      logInModalOpen := true;
    }

    method CloseLogInModal()
      modifies this
      ensures View() == Reduce(old(View()), Close(LogIn))
    {
      logInModalOpen := false;
    }

    method OpenCommentModal()
      modifies this
      ensures View() == Reduce(old(View()), Open(CommentPost))
    {
      commentModalOpen := true;
    }

    method CloseCommentModal()
      modifies this
      ensures View() == Reduce(old(View()), Close(CommentPost))
    {
      commentModalOpen := false;
    }

    /** `setCommentDetails`: the four detail fields are overwritten from the payload. */
    method SetCommentDetails(d: PostDetails)
      modifies this
      ensures View() == Reduce(old(View()), Action.SetCommentDetails(d))
    {
      commentPostDetails := commentPostDetails.(name := d.name);
      commentPostDetails := commentPostDetails.(username := d.username);
      commentPostDetails := commentPostDetails.(id := d.id);
      commentPostDetails := commentPostDetails.(text := d.text);
    }

    method OpenWebsiteModal()
      modifies this
      ensures View() == Reduce(old(View()), Open(Website))
    {
      websiteModalOpen := true;
    }

    /** `closeWebsiteModal`: closes the modal and clears the URL. */
    method CloseWebsiteModal()
      modifies this
      ensures View() == Reduce(old(View()), Close(Website))
    {
      websiteModalOpen := false;
      websiteUrl := "";
    }

    method SetWebsiteUrl(url: string)
      modifies this
      ensures View() == Reduce(old(View()), Action.SetWebsiteUrl(url))
    {
      websiteUrl := url;
    }
  }
}
