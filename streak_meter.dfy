/**
 * The daily-login streak: the rule that turns the stored streak and last
 * login into the new one, the component that applies it, and its label.
 * Times are milliseconds since the epoch.
 */
module StreakDaysMeter {
  import opened Wrappers
  import Text
  import UserSlice

  /** One day in milliseconds. */
  const DAY_MS: int := 1000 * 60 * 60 * 24

  /** `Math.floor((now - last) / DAY_MS)`: whole 24-hour periods elapsed, rounded down (negative when `now < last`). */
  function DaysBetween(now: int, last: int): (d: int)
    ensures d * DAY_MS <= now - last < (d + 1) * DAY_MS
  {
    (now - last) / DAY_MS
  }

  /** What the user document holds, as read. */
  datatype UserDocRead =
    | ReadFailed
    | Missing
    | Found(lastLogin: Option<int>, streakCount: Option<int>)

  /** The write the rule asks for: none, creating the document, or updating its streak fields. */
  datatype StreakWrite = NoWrite | CreateDoc(count: int) | UpdateDoc(count: int)

  datatype StreakData = StreakData(streakCount: int, lastLogin: Option<int>)

  /** A stored count read with `||`: a missing or zero count gives `fallback`. */
  function CountOr(stored: Option<int>, fallback: int): int {
    if stored.None? || stored.value == 0 then fallback else stored.value
  }

  /**
   * The branch of `updateUserStreak` for an existing or missing document:
   * the new streak and the write it needs. Stated here in elapsed
   * milliseconds rather than in the whole-day count the code branches on.
   */
  function StreakRule(doc: UserDocRead, now: int): (r: (StreakData, StreakWrite))
    requires !doc.ReadFailed?
    ensures doc.Missing? ==> r == (StreakData(1, Some(now)), CreateDoc(1))
    ensures doc.Found? && doc.lastLogin.None? ==> r == (StreakData(1, Some(now)), UpdateDoc(1))
    ensures doc.Found? && doc.lastLogin.Some? && 0 <= now - doc.lastLogin.value < DAY_MS ==>
              r == (StreakData(CountOr(doc.streakCount, 1), doc.lastLogin), NoWrite)
    ensures doc.Found? && doc.lastLogin.Some? && DAY_MS <= now - doc.lastLogin.value < 2 * DAY_MS ==>
              var n := CountOr(doc.streakCount, 0) + 1;
              r == (StreakData(n, Some(now)), UpdateDoc(n))
    ensures doc.Found? && doc.lastLogin.Some? &&
            (now - doc.lastLogin.value < 0 || now - doc.lastLogin.value >= 2 * DAY_MS) ==>
              r == (StreakData(1, Some(now)), UpdateDoc(1))
  {
    match doc
    case Missing => (StreakData(1, Some(now)), CreateDoc(1))
    case Found(lastLogin, stored) =>
      match lastLogin
      case None => (StreakData(1, Some(now)), UpdateDoc(1))
      case Some(last) =>
        var days := DaysBetween(now, last);
        if days == 0 then (StreakData(CountOr(stored, 1), lastLogin), NoWrite)
        else if days == 1 then
          var n := CountOr(stored, 0) + 1;
          (StreakData(n, Some(now)), UpdateDoc(n))
        else (StreakData(1, Some(now)), UpdateDoc(1))
  }

  /** With a non-negative stored count, every outcome of the rule is a streak of at least one day. */
  lemma StreakAtLeastOne(doc: UserDocRead, now: int)
    requires !doc.ReadFailed?
    requires doc.Found? && doc.streakCount.Some? ==> doc.streakCount.value >= 0
    ensures StreakRule(doc, now).0.streakCount >= 1
  {
  }

  /** The rule writes exactly when the last login is not within the current 24-hour period. */
  lemma WritesUnlessSameDay(doc: UserDocRead, now: int)
    requires !doc.ReadFailed?
    ensures StreakRule(doc, now).1 == NoWrite <==>
              doc.Found? && doc.lastLogin.Some? && 0 <= now - doc.lastLogin.value < DAY_MS
  {
  }

  /** The label under the meter. */
  function StreakLabel(count: int): (s: string)
    ensures count == 1 ==> s == "1 day streak!"
    ensures count != 1 ==> s == Text.IntToString(count) + "-day streak!"
  {
    if count == 1 then "1 day streak!" else Text.IntToString(count) + "-day streak!"
  }

  /** For any count other than one, the digits before "-day streak!" read back as the count. */
  lemma {:induction false} StreakLabelShowsCount(count: nat)
    requires count != 1
    ensures var s := StreakLabel(count);
            |s| > 12 && s[|s| - 12..] == "-day streak!" &&
            (forall k :: 0 <= k < |s| - 12 ==> Text.IsDigit(s[k])) &&
            Text.DigitsValue(s[..|s| - 12]) == count
  {
    var digits := Text.NatToString(count);
    var s := StreakLabel(count);
    assert s == digits + "-day streak!";
    assert s[..|s| - 12] == digits;
    Text.NatToStringValue(count);
  }

  class StreakMeter {
    var streakData: StreakData
    var loading: bool
    /** The signed-in user in the application store, which this component reads and updates. */
    const user: UserSlice.UserStore

    constructor (user: UserSlice.UserStore)
      ensures this.user == user && streakData == StreakData(0, None) && loading
    {
      this.user := user;
      streakData := StreakData(0, None);
      loading := true;
    }

    /**
     * `updateUserStreak`. Without a uid it returns at once. A failed read or
     * a failed write only ends loading. Otherwise the new streak is shown
     * and dispatched to the store. Returns the write attempted.
     */
    method UpdateUserStreak(doc: UserDocRead, now: int, writeOk: bool) returns (write: StreakWrite)
      modifies this, user
      ensures old(user.uid) == "" ==> write == NoWrite && unchanged(this) && unchanged(user)
      ensures old(user.uid) != "" ==> !loading
      ensures old(user.uid) != "" && doc.ReadFailed? ==>
                write == NoWrite && streakData == old(streakData) && unchanged(user)
      ensures old(user.uid) != "" && !doc.ReadFailed? ==> write == StreakRule(doc, now).1
      ensures old(user.uid) != "" && !doc.ReadFailed? && (write == NoWrite || writeOk) ==>
                var d := StreakRule(doc, now).0;
                streakData == d &&
                user.View() == old(user.View()).(streakCount := d.streakCount, lastLogin := d.lastLogin)
      ensures old(user.uid) != "" && !doc.ReadFailed? && write != NoWrite && !writeOk ==>
                streakData == old(streakData) && unchanged(user)
    {
      if user.uid == "" {
        return NoWrite;
      }
      write := NoWrite;
      if !doc.ReadFailed? {
        var (data, w) := StreakRule(doc, now);
        write := w;
        if w == NoWrite || writeOk {
          streakData := data;
          user.UpdateStreak(data.streakCount, data.lastLogin);
        }
      }
      loading := false;
    }
  }
}
