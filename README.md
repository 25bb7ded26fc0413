# Sensebook core logic in Dafny

This project models the parts of the Sensebook social app (a Next.js and
React front end over Firestore and Firebase Auth) that have logic of their
own, and proves properties about them:

- **The comment modal.** A post's comments form a tree. The modal keeps
  two lists: the stored comments, and pending ("optimistic") comments
  shown before their write lands. It shows a merged view of the two. It
  inserts replies under every node that matches the parent. It reconciles
  pending entries once a write succeeds or fails. Edit and delete find
  their target at any depth.
- **The daily-login streak.** One rule turns the stored streak and last
  login into the new streak. The streak calendar computes its blank
  cells, the run of active days that ends today, and the map of active
  days.
- **Small state machines.** These are the three Redux slices (modals,
  user, theme), the onboarding walkthrough with its two timers, and the
  24-hour cache of the three news API routes.
- **String logic.** These are the hashtag derived from a headline, and
  the profile fields and alert choices of Google sign-in.

Where the source changes state in place, the model is a class: the
component's state, a Redux slice, or a route's module-level cache. Each
method's `ensures` ties the new state to a pure function, and the
properties are lemmas about those functions. Pure transforms (the comment
tree operations, the streak rule, the hashtag) are functions and lemmas.

Conventions used throughout:

- Firestore reads and writes, the Google popup and the upstream news fetch
  are not called. Their outcome is a parameter: a success flag, the
  document read, or the payload.
- Times are integers in milliseconds.
- Object identity (`===`) on comments is a `NodeId` carried by every node.
  A spread copy keeps its original's id.
- A handler that changes state before the backend answers is split at its
  first `await`. Its start method runs when the user acts, and its settle
  method runs when the backend answers. A handler whose state changes only
  after the answer is a single method that takes the answer as a parameter.

Modules:

- `Wrappers`: the `Option` type.
- `Text`: JavaScript `trim`, `split(sep)[0]` and number formatting.
- `Seqs`: order-preserving filter.
- `CommentTree`: the tree and its transforms.
- `CommentModal`: the modal's state and handlers.
- `StreakDaysMeter`: the streak rule, its label and the component that applies it.
- `StreakCalendar`: the calendar's blanks, run and fill loop.
- `Onboarding`: the walkthrough.
- `LogInModal`: Google sign-in.
- `Hashtag`: the headline hashtag.
- `ModalSlice`, `UserSlice`, `ThemeSlice`: the Redux slices.
- `NewsCache`: the news routes' cache.

## Model

| member | source | states |
|---|---|---|
| CommentTree.Merge | components/modals/CommentModal.tsx:129-139 | every pending comment appears, in order, as the suffix; a stored comment is kept exactly when no pending comment with a non-empty `optimisticId` has its text and username |
| CommentTree.MergeKeepsOrder | components/modals/CommentModal.tsx:130-137 | the retained stored comments are exactly the order-preserving filter of `comments` by "not shadowed" |
| CommentTree.MergeWithoutPending | components/modals/CommentModal.tsx:129-139 | with no pending comments the merged view is the stored list unchanged |
| CommentModal.CommentModalState.AllComments | components/modals/CommentModal.tsx:129-139 | the rendered list ends with the pending list and otherwise holds exactly the unshadowed stored comments |
| CommentModal.CommentModalState.constructor | components/modals/CommentModal.tsx:38-40 | the modal starts with no stored comments, no pending comments and loading |
| CommentModal.CommentModalState.SetPost | components/modals/CommentModal.tsx:31-48 | opening another post changes only the post id; the stored, pending and loading state carry over, so the previous post's pending comments stay the suffix of the rendered list |
| CommentTree.WithoutOptimistic | components/modals/CommentModal.tsx:107 | after a successful write, exactly the entries whose `optimisticId` is the id are gone |
| CommentTree.WithoutOptimisticKeepsOrder | components/modals/CommentModal.tsx:107 | the survivors keep their relative order: the result is the list at the strictly increasing positions of the entries not carrying the id |
| CommentTree.WithoutOptimisticAbsent | components/modals/CommentModal.tsx:107 | removing an id no entry carries changes nothing |
| CommentTree.MarkFailed | components/modals/CommentModal.tsx:118-124 | after a failed write the length is unchanged, entries with the id get `failed` set and nothing else changes, other entries are untouched |
| CommentTree.MarkFailedThenRemove | components/modals/CommentModal.tsx:107-124 | marking the id failed and then removing it is the same as removing it |
| CommentTree.MarkFailedKeepsShape | components/modals/CommentModal.tsx:118-124 | marking failed keeps the tree shape |
| CommentModal.OptimisticComment | components/modals/CommentModal.tsx:63-69 | the pending copy is marked optimistic, carries the fresh id and the current user's name and username, and keeps the comment's text, timestamp and replies |
| CommentModal.CommentModalState.HandleOptimisticUpdate | components/modals/CommentModal.tsx:58-71 | exactly one pending entry is appended and earlier entries are unchanged; stored comments are untouched |
| CommentModal.CommentModalState.SettleOptimisticComment | components/modals/CommentModal.tsx:92-125 | the post id captured when the handler started decides: without a post nothing changes; on success the entries with the id are removed, on failure they are marked failed |
| CommentModal.NewReply | components/modals/CommentModal.tsx:154-160 | the reply carries the trimmed text, the current user, the current time and an empty reply list |
| Text.Trim | components/modals/CommentModal.tsx:147 | the trimmed text is the input with whitespace removed on both ends and neither end of the result is whitespace |
| Text.TrimEmptyIffBlank | components/modals/CommentModal.tsx:147 | the trimmed text is empty exactly when the input is all whitespace |
| Text.TrimIdempotent | components/modals/CommentModal.tsx:211 | trimming the already trimmed reply text again gives the same text, so the stored reply carries the text shown in the pending one |
| CommentModal.CommentModalState.AddReply | components/modals/CommentModal.tsx:141-198 | the reply is ignored, with the state unchanged, exactly when there is no post, the text is blank or the username is empty; otherwise with no parent one pending top-level comment is appended, and with a parent the pending reply is inserted under every matching node |
| CommentModal.CommentModalState.InsertPendingReply | components/modals/CommentModal.tsx:170-187 | the stored comments become the pending reply inserted under the parent; the pending list and loading are kept |
| CommentTree.InsertReply | components/modals/CommentModal.tsx:173-185 | the top-level length is preserved and every node keeps its own fields |
| CommentTree.InsertReplyAt | components/modals/CommentModal.tsx:173-185 | a node matching the parent on name, username, text and timestamp gets the reply appended after its existing replies, which are not searched; a non-matching node changes only by recursion into its replies |
| CommentTree.InsertReplyNoParent | components/modals/CommentModal.tsx:217-229 | when no node matches the parent, the list is returned unchanged |
| CommentTree.InsertReplySize | components/modals/CommentModal.tsx:217-229 | the tree grows by exactly one copy of the reply per matching node that does not sit inside another matching node (a matching node's own replies are not searched) |
| CommentTree.HasParentHits | components/modals/CommentModal.tsx:175-178 | some node matches the parent exactly when the number of matching nodes that do not sit inside another matching node is positive |
| CommentModal.CommentModalState.SettleReply | components/modals/CommentModal.tsx:200-269 | the write sent is the stored reply inserted under the parent in the re-read comments (`[]` when the field is missing); success removes the pending reply, a failed read or write marks it failed |
| CommentTree.RemoveReply | components/modals/CommentModal.tsx:237-246 | the top-level list and every top-level node's own fields are unchanged; only the direct replies are filtered, none with the id remains, and deeper replies are untouched |
| CommentTree.MarkReplyFailed | components/modals/CommentModal.tsx:255-266 | the top-level list and every top-level node's own fields are unchanged; only direct replies with the id are marked failed |
| CommentTree.MarkReplyFailedKeepsShape | components/modals/CommentModal.tsx:255-266 | marking a reply failed keeps the tree shape |
| CommentModal.CommentModalState.EditComment | components/modals/CommentModal.tsx:272-302 | blank new text or no post is a no-op; a pending target is retexted among the pending comments; for a stored target the write sent is the edited tree and local state waits for the refetch |
| CommentTree.EditInList | components/modals/CommentModal.tsx:292-297 | the top-level length is preserved |
| CommentTree.EditKeepsShape | components/modals/CommentModal.tsx:292-297 | the edit keeps the tree shape, the same number of nodes at every level |
| CommentTree.EditOnlyTarget | components/modals/CommentModal.tsx:292-297 | with distinct node ids, the pre-order of the edited tree is the original pre-order with only the target's text replaced |
| CommentTree.Retext | components/modals/CommentModal.tsx:281-287 | the length is preserved, the target's text is replaced, and every other entry is unchanged |
| CommentModal.CommentModalState.DeleteComment | components/modals/CommentModal.tsx:304-323 | with no post nothing happens; a pending target is filtered out of the pending comments only; for a stored target the write sent is the pruned tree |
| CommentTree.RemoveFromList | components/modals/CommentModal.tsx:315-318 | the pruned list is no longer than the original and no surviving sibling has the target id |
| CommentTree.PruneNode | components/modals/CommentModal.tsx:318 | a surviving node keeps all its own fields; only its replies are pruned |
| CommentTree.RemoveLeavesNoTarget | components/modals/CommentModal.tsx:315-318 | no node with the target id remains at any depth |
| CommentTree.RemoveKeepsSiblingOrder | components/modals/CommentModal.tsx:315-318 | the surviving siblings are, in order, the original siblings without the target |
| CommentTree.RemoveAbsentKeepsNodes | components/modals/CommentModal.tsx:315-318 | deleting an id that is absent keeps every node and the tree shape |
| CommentTree.StoredComments | components/modals/CommentModal.tsx:54 | a missing `comments` field reads as `[]` |
| CommentModal.CommentModalState.FetchComments | components/modals/CommentModal.tsx:50-56 | without a post nothing happens; otherwise the stored comments become the document's (or `[]`) and loading ends |
| StreakDaysMeter.DaysBetween | components/StreakDaysMeter.tsx:46 | the day difference is the floor of the elapsed milliseconds over 86,400,000 |
| StreakDaysMeter.StreakRule | components/StreakDaysMeter.tsx:28-82 | no document gives 1, created; within one day the stored count (1 when 0 or missing) with no write; one day later the stored count (0 when missing) plus 1; a negative difference, two or more days, or no last login give 1 |
| StreakDaysMeter.StreakAtLeastOne | components/StreakDaysMeter.tsx:28-82 | with a non-negative stored count the new streak is at least 1 |
| StreakDaysMeter.WritesUnlessSameDay | components/StreakDaysMeter.tsx:48-82 | the rule writes exactly when the last login is not within the current 24-hour period |
| StreakDaysMeter.StreakLabel | components/StreakDaysMeter.tsx:105 | the label is "1 day streak!" for 1 and the count followed by "-day streak!" otherwise |
| StreakDaysMeter.StreakLabelShowsCount | components/StreakDaysMeter.tsx:105 | for a count other than 1, the digits before "-day streak!" read back as the count |
| Text.NatToStringValue | components/StreakDaysMeter.tsx:105 | the decimal digits of a number read back as that number |
| Text.IntToString | components/StreakDaysMeter.tsx:105 | an integer renders as a minus sign exactly when it is negative, followed by decimal digits that read back as its magnitude |
| StreakDaysMeter.StreakMeter.UpdateUserStreak | components/StreakDaysMeter.tsx:21-89 | without a uid nothing happens; a failed read changes nothing but loading; otherwise the rule's write is attempted, and when it succeeds (or none is needed) the new streak is shown and dispatched; loading ends |
| StreakDaysMeter.StreakMeter.constructor | components/StreakDaysMeter.tsx:18-19 | the meter starts with a zero streak, no last login, and loading |
| StreakCalendar.Blanks | components/StreakCalendar.tsx:53-54 | the blank cells number 0 to 6, 6 when the month starts on Sunday and the weekday minus 1 otherwise |
| StreakCalendar.ActiveDays | components/StreakCalendar.tsx:61 | a day is active only when the map has it and it is true; a day with no entry is inactive |
| StreakCalendar.MaxStreak | components/StreakCalendar.tsx:57-67 | the loop's result is the length of the run of active days ending today, 0 when today is inactive |
| StreakCalendar.RunEndingAtIsMaximalRun | components/StreakCalendar.tsx:57-67 | that run is maximal: all its days are active and the day before it is inactive or the month starts there |
| StreakCalendar.RunIgnoresLaterDays | components/StreakCalendar.tsx:63 | days after today do not affect the streak |
| StreakCalendar.ShowsStreakIffTwoDays | components/StreakCalendar.tsx:105 | the tooltip and label show exactly when today and the day before are both active |
| StreakCalendar.FillStreaks | components/StreakCalendar.tsx:36-40 | the map's keys are exactly the fetched ids, and each id maps to the `active` flag of its last document |
| StreakCalendar.CalendarState.BeginLoad | components/StreakCalendar.tsx:25-28 | without a uid nothing happens and no fetch is sent; otherwise loading begins and the error is cleared, the map is kept |
| StreakCalendar.CalendarState.SettleLoad | components/StreakCalendar.tsx:34-43 | a successful fetch fills the map (one key per document id, the last document's `active`); a failure sets "Failed to load streaks" and keeps the map; loading ends either way |
| StreakCalendar.CalendarState.constructor | components/StreakCalendar.tsx:21-23 | the calendar starts with an empty map, not loading and with no error |
| Onboarding.Walkthrough.HandleNext | components/Onboarding.tsx:47-52 | during a transition nothing changes; otherwise transitioning and fading out start and the fade-out timer captures the step |
| Onboarding.Walkthrough.constructor | components/Onboarding.tsx:42-45 | the walkthrough starts on the first card, not transitioning, not fading out, without the snap, and with no timer pending |
| Onboarding.Walkthrough.FadeOutDone | components/Onboarding.tsx:54-63 | below the last card the step advances by one and the snap shows exactly on reaching the last card; on the last card completion fires instead; fading out ends |
| Onboarding.Walkthrough.FadeInDone | components/Onboarding.tsx:64-66 | the transition ends and nothing else changes |
| Onboarding.ClickThrough | components/Onboarding.tsx:47-68 | a click followed by both timers advances the step by one below the last card and completes on it, and the walkthrough is ready for the next click |
| Onboarding.ButtonOnAllButLast | components/Onboarding.tsx:109-117 | the button shows exactly on the cards before the last, so the completion branch is reached only through the snap animation |
| Onboarding.DotsHighlightCurrent | components/Onboarding.tsx:124-131 | exactly one progress dot is highlighted, the current card's |
| LogInModal.GoogleSignIn.Begin | components/modals/LogInModal.tsx:68-70 | while a sign-in runs a second call returns at once; otherwise the loading flag is set |
| LogInModal.GoogleSignIn.constructor | components/modals/LogInModal.tsx:18 | the sign-in starts not loading, holding the user and modal stores it dispatches to |
| LogInModal.GoogleSignIn.Settle | components/modals/LogInModal.tsx:72-112 | on success the profile is signed in and then the log-in modal closed; on failure the store is untouched, the code picks the alert and its message is what is shown; loading ends either way |
| LogInModal.LocalPart | components/modals/LogInModal.tsx:82-83 | `email?.split("@")[0]` is absent exactly when the email is, and otherwise is the text before the first '@' |
| LogInModal.ProfileName | components/modals/LogInModal.tsx:82 | the display name if non-empty, else the email's local part if non-empty, else "Unknown User" |
| LogInModal.ProfileUsername | components/modals/LogInModal.tsx:83 | the email's text before the first '@', or "unknown" when the email is missing or that text is empty; never contains '@' |
| LogInModal.Profile | components/modals/LogInModal.tsx:81-86 | the email defaults to "", the uid is copied, and no streak fields are sent |
| LogInModal.ProfileFromEmail | components/modals/LogInModal.tsx:82-84 | for an account without a display name and email `local@domain`, name and username are both `local` |
| LogInModal.UsernameIsEmailPrefix | components/modals/LogInModal.tsx:83 | a username other than "unknown" is a prefix of the email |
| LogInModal.SignedInProfileDefaults | components/modals/LogInModal.tsx:81-86 | signing in a Google account resets the streak to 0 and the last login to none |
| LogInModal.AlertFor | components/modals/LogInModal.tsx:96-109 | a blocked popup, a network failure and too many requests each raise their own alert |
| LogInModal.NoAlertIffDismissed | components/modals/LogInModal.tsx:98-101 | no alert exactly for a popup closed by the user or a cancelled popup request |
| LogInModal.UnknownCodeGeneric | components/modals/LogInModal.tsx:106-109 | any other code, or none, raises the generic alert |
| LogInModal.AlertTextsDistinct | components/modals/LogInModal.tsx:97-108 | the four alert messages differ from one another, so each failure shows its own text |
| Text.BeforeFirst | components/modals/LogInModal.tsx:83 | `split(sep)[0]` is the longest prefix without the separator |
| Hashtag.ToHashtag | components/TrendingNews.tsx:34-39 | the hashtag is empty exactly for an empty headline; otherwise it starts with '#' and the rest is a substring of the headline (the same function is copied verbatim in the entertainment and technology widgets) |
| Hashtag.MatchIffCandidate | components/TrendingNews.tsx:37 | the regular expression matches `s[i..e]` exactly when `i` starts a capitalised word whose letter-and-digit run ends at `e` and is not followed by '_' |
| Hashtag.HashtagIsLeftmostMatch | components/EntertainmentNews.tsx:36-37 | when the expression matches anywhere, the hashtag is '#' and its leftmost match, a capital followed by letters and digits only |
| Hashtag.FirstCandidate | components/EntertainmentNews.tsx:36 | the search finds the leftmost position where a match starts, and none exists before it |
| Hashtag.HashtagFallback | components/TechnologyNews.tsx:36 | with no match the hashtag is '#' and the text before the first space, all of it when there is none |
| Hashtag.RunEnd | components/TechnologyNews.tsx:35 | the letter-and-digit run starting at a position is maximal: every character in it is a letter or digit and the next one is not |
| ModalSlice.InitiallyClosed | redux/slices/modalSlice.ts:5-18 | initially every modal is closed and the post details and URL are empty |
| ModalSlice.Reduce | redux/slices/modalSlice.ts:23-58 | an open reducer sets its modal's flag and a close reducer clears it; closing the website modal clears the URL; the two setters store their payload |
| ModalSlice.ModalStore.constructor | redux/slices/modalSlice.ts:5-18 | the store starts in the initial state: every modal closed, empty post details and URL |
| ModalSlice.OpenCloseTouchOwnFlag | redux/slices/modalSlice.ts:24-54 | an open or close reducer sets its own flag only; other flags and the post details are kept, and only closing the website modal clears the URL |
| ModalSlice.SetUrlOnlyUrl | redux/slices/modalSlice.ts:55-57 | `setWebsiteUrl` changes only the URL and does not open the website modal |
| ModalSlice.SetDetailsOnlyDetails | redux/slices/modalSlice.ts:42-47 | `setCommentDetails` replaces the post details and nothing else; no modal opens or closes |
| ModalSlice.ReduceIdempotent | redux/slices/modalSlice.ts:24-57 | dispatching any reducer twice equals dispatching it once |
| ModalSlice.ModalStore.SetCommentDetails | redux/slices/modalSlice.ts:42-47 | the four detail fields are overwritten from the payload and nothing else changes |
| ModalSlice.ModalStore.CloseWebsiteModal | redux/slices/modalSlice.ts:51-54 | the website modal closes and the URL is cleared |
| ModalSlice.ModalStore.OpenSignUpModal | redux/slices/modalSlice.ts:24-26 | the store moves as the reducer says: only the sign-up flag is set |
| ModalSlice.ModalStore.CloseLogInModal | redux/slices/modalSlice.ts:33-35 | the store moves as the reducer says: only the log-in flag is cleared |
| ModalSlice.ModalStore.CloseSignUpModal | redux/slices/modalSlice.ts:27-29 | the store moves as the reducer says: only the sign-up flag is cleared |
| ModalSlice.ModalStore.OpenLogInModal | redux/slices/modalSlice.ts:30-32 | the store moves as the reducer says: only the log-in flag is set |
| ModalSlice.ModalStore.OpenCommentModal | redux/slices/modalSlice.ts:36-38 | the store moves as the reducer says: only the comment flag is set |
| ModalSlice.ModalStore.CloseCommentModal | redux/slices/modalSlice.ts:39-41 | the store moves as the reducer says: only the comment flag is cleared |
| ModalSlice.ModalStore.OpenWebsiteModal | redux/slices/modalSlice.ts:48-50 | the store moves as the reducer says: only the website flag is set, the URL is kept |
| ModalSlice.ModalStore.SetWebsiteUrl | redux/slices/modalSlice.ts:55-57 | the store moves as the reducer says: only the URL changes |
| UserSlice.SignedIn | redux/slices/userSlice.ts:16-23 | name, username, email and uid are copied; a missing or zero streak count gives 0 and the last login is copied |
| UserSlice.UserStore.constructor | redux/slices/userSlice.ts:3-10 | the store starts empty: blank strings, a zero streak and no last login |
| UserSlice.UserStore.SignInUser | redux/slices/userSlice.ts:16-23 | the store becomes the signed-in state of the payload |
| UserSlice.UserStore.SignOutUser | redux/slices/userSlice.ts:24-31 | the store becomes exactly the initial state whatever it held, so signing out twice is signing out once |
| UserSlice.UserStore.UpdateStreak | redux/slices/userSlice.ts:32-35 | only the streak count and last login change |
| UserSlice.SignInThenOut | redux/slices/userSlice.ts:3-31 | signing in and then out gives the initial state |
| ThemeSlice.InitialTheme | redux/slices/themeSlice.ts:4-10 | the saved theme when running in a browser and it is non-empty, otherwise "light" |
| ThemeSlice.ThemeStore.constructor | redux/slices/themeSlice.ts:4-14 | the store starts with the initial theme for its environment and saved value |
| ThemeSlice.Toggled | redux/slices/themeSlice.ts:21 | "light" becomes "dark" and anything else becomes "light" |
| ThemeSlice.ToggleTwice | redux/slices/themeSlice.ts:21 | toggling twice from "light" or "dark" returns it |
| ThemeSlice.ThemeStore.ToggleTheme | redux/slices/themeSlice.ts:20-25 | the theme is toggled and, in a browser, the persisted value is the new theme |
| NewsCache.Serve | app/api/gnews/route.ts:7-32 | the upstream is consulted only without a cache or after more than 24 hours; then a list of articles (or `[]` for a non-array) becomes the cache, stamped now; a failure answers `[]` with 500 and keeps the state; otherwise the cache is served |
| NewsCache.RouteCache.Get | app/api/gnews/route.ts:7-32 | a route's state and response move as `Serve` says, and the fetch happens exactly when a refresh is needed (the three routes share this handler) |
| NewsCache.RouteCache.World | app/api/gnews/route.ts:3-13 | the world route starts with no cache and a zero stamp, topic "world" and 8 articles |
| NewsCache.FirstRequestFetches | app/api/gnews/route.ts:3-11 | a first request always fetches |
| NewsCache.NoRefetchWithinWindow | app/api/gnews-tech/route.ts:12-26 | after a refresh, every request within 24 hours, including exactly 24 hours, is served the same cached list with no fetch, even an empty one |
| NewsCache.RouteCache.Technology | app/api/gnews-tech/route.ts:4-15 | the technology route starts with no cache and a zero stamp, topic "technology" and 10 articles |
| NewsCache.FailureRetries | app/api/gnews-sports/route.ts:27-30 | a failed refresh answers from the unchanged state, so the cache and its stamp are kept and the next request fetches again |
| NewsCache.RouteCache.Sports | app/api/gnews-sports/route.ts:4-15 | the sports route starts with no cache and a zero stamp, topic "sports" and 5 articles |

## Left out

- Firestore and Firebase Auth calls (`getDoc`, `setDoc`, `updateDoc`, `arrayUnion`, the Google popup) are not modelled. Their outcomes are parameters: the document read, a success flag, or the popup's result. The stored comment that `handleOptimisticUpdate` sends with `arrayUnion` is not produced by the model, since the write's semantics belong to the database.
- CommentModal.CommentModalState.SetPost changes only the post id. Opening a post does not reset the modal's state in the source either; the fetch that follows is FetchComments.
- The interleaving of asynchronous continuations is not modelled. Each continuation is a separate method, and the React `prev =>` updater is read as applying to the state current when the continuation runs. Concurrent writes by other clients are not modelled.
- Identity of comment objects is modelled by a node id that spread copies keep. A handler holding a stale copy after a refetch still finds its original here, where `===` in the source would not.
- `crypto.randomUUID()` and its timestamp fallback, `Timestamp.now()`, `Date.now()` and `new Date()` are parameters. Server timestamps are read back as the client's time.
- The `localStorage` notification with its `StorageEvent`, the smooth-scroll and cleanup timers in the comment modal, audio, and the `reset`/`keepRepliesExpanded` callbacks are browser effects and are not modelled.
- CommentTree.RemoveReply and CommentTree.MarkReplyFailed model the source as written: only the direct replies of top-level comments are reconciled. A pending reply inserted two or more levels deep is therefore not removed on success, and stays until the next fetch replaces the list. On failure it is not flagged.
- JavaScript numbers are unbounded integers here. `NaN`, non-integer timestamps and values beyond 2^53 are not modelled.
- The date-fns calls (`startOfMonth`, `getDay`, `eachDayOfInterval`, `format`, `isToday`) are inputs: the weekday of the first day, the month's day ids and today's position among them.
- The snap animation of the last onboarding card (`ThanosSnap`) and its own completion callback are not modelled. Onboarding.Walkthrough.FadeOutDone still models the `onComplete` branch of `handleNext`, which the button never reaches.
- The email/password and guest log-in handlers only call the auth service and log errors, so they are not modelled. Console logging is not modelled anywhere.
- LogInModal.AlertFor states the three specific alerts in its own contract. The no-alert and generic cases are stated by the two lemmas beside it.
- The news routes' URL building and API key, and the upstream fetch's response format, are not modelled. A route's topic and article count are constants of its `RouteCache`.
- The news widgets' own fetches, loading state and rendering are not modelled. Only `toHashtag` is.
- Rendering, framer-motion animations and the comment thread's view state are not modelled.
