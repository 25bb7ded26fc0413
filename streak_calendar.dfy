/**
 * The month calendar of active days: the blank cells before day one in a
 * Monday-first grid, the run of active days that ends today, and the map
 * of active days built from the fetched documents. The month's days are
 * given by their "yyyy-MM-dd" ids, today by its position among them.
 */
module StreakCalendar {
  import opened Wrappers

  /**
   * `blanks`: the cells before the first of the month in a Monday-first
   * grid, given the weekday of the first (0 for Sunday to 6 for Saturday).
   */
  method Blanks(weekday: int) returns (blanks: int)
    requires 0 <= weekday <= 6
    ensures 0 <= blanks <= 6
    ensures blanks == (weekday + 6) % 7
    ensures blanks == 6 <==> weekday == 0
  {
    blanks := weekday - 1;
    if blanks < 0 {
      blanks := 6;
    }
  }

  /** A day counts as active only when the map has it and says true. */
  predicate IsActive(streaks: map<string, bool>, id: string) {
    id in streaks && streaks[id]
  }

  /** The length of the run of active days that ends at day `i` (0 when day `i` is inactive). */
  function RunEndingAt(active: seq<bool>, i: nat): nat
    requires i < |active|
  {
    if !active[i] then 0
    else if i == 0 then 1
    else 1 + RunEndingAt(active, i - 1)
  }

  /** The run ending at `i` is maximal: all its days are active, and the day before it is not (or the month starts there). */
  lemma {:induction false} RunEndingAtIsMaximalRun(active: seq<bool>, i: nat)
    requires i < |active|
    ensures RunEndingAt(active, i) <= i + 1
    ensures forall k :: i - RunEndingAt(active, i) < k <= i ==> active[k]
    ensures RunEndingAt(active, i) <= i ==> !active[i - RunEndingAt(active, i)]
  {
    if active[i] && i > 0 {
      RunEndingAtIsMaximalRun(active, i - 1);
    }
  }

  /** Days after `i` do not affect the run ending at `i`. */
  lemma {:induction false} RunIgnoresLaterDays(active: seq<bool>, other: seq<bool>, i: nat)
    requires i < |active| && i < |other| && active[..i + 1] == other[..i + 1]
    ensures RunEndingAt(active, i) == RunEndingAt(other, i)
  {
    assert active[i] == active[..i + 1][i] && other[i] == other[..i + 1][i];
    if active[i] && i > 0 {
      assert active[..i] == active[..i + 1][..i] && other[..i] == other[..i + 1][..i];
      RunIgnoresLaterDays(active, other, i - 1);
    }
  }

  /** The activity of each listed day. */
  function ActiveDays(streaks: map<string, bool>, dayIds: seq<string>): (active: seq<bool>)
    ensures |active| == |dayIds|
    ensures forall k :: 0 <= k < |dayIds| ==> active[k] == IsActive(streaks, dayIds[k])
  {
    seq(|dayIds|, k requires 0 <= k < |dayIds| => IsActive(streaks, dayIds[k]))
  }

  /**
   * The `streakCount`/`maxStreak` loop: the run of active days ending today,
   * which is 0 when today is not active.
   */
  method MaxStreak(streaks: map<string, bool>, dayIds: seq<string>, today: nat) returns (maxStreak: nat)
    requires today < |dayIds|
    ensures maxStreak == RunEndingAt(ActiveDays(streaks, dayIds), today)
    ensures !IsActive(streaks, dayIds[today]) ==> maxStreak == 0
  {
    ghost var active := ActiveDays(streaks, dayIds);
    var streakCount := 0;
    maxStreak := 0;
    for i := 0 to |dayIds|
      invariant i > 0 ==> streakCount == RunEndingAt(active, i - 1)
      invariant i == 0 ==> streakCount == 0
      invariant i <= today ==> maxStreak == 0
      invariant i > today ==> maxStreak == RunEndingAt(active, today)
    {
      if IsActive(streaks, dayIds[i]) {
        streakCount := streakCount + 1;
        if i == today {
          maxStreak := streakCount;
        }
      } else {
        streakCount := 0;
      }
    }
  }

  /** The streak label and tooltip show only when today is active and the streak is longer than one day. */
  predicate ShowsStreak(todayActive: bool, maxStreak: nat) {
    todayActive && maxStreak > 1
  }

  /** The label shows exactly when today and the day before it are both active. */
  lemma ShowsStreakIffTwoDays(active: seq<bool>, today: nat)
    requires today < |active|
    ensures ShowsStreak(active[today], RunEndingAt(active, today)) <==>
              today > 0 && active[today] && active[today - 1]
  {
    if today > 0 && active[today] && active[today - 1] {
      assert RunEndingAt(active, today - 1) >= 1;
    }
  }

  /** One fetched streak document. */
  datatype StreakDoc = StreakDoc(id: string, active: bool)

  /**
   * The fill loop over the fetched documents: each document id maps to its
   * `active` flag, the last document winning when an id repeats.
   */
  method FillStreaks(docs: seq<StreakDoc>) returns (data: map<string, bool>)
    ensures Filled(data, docs)
  {
    data := map[];
    for i := 0 to |docs|
      invariant forall id :: id in data <==> exists k :: 0 <= k < i && docs[k].id == id
      invariant forall k :: 0 <= k < i && (forall m :: k < m < i ==> docs[m].id != docs[k].id) ==>
                  docs[k].id in data && data[docs[k].id] == docs[k].active
    {
      data := data[docs[i].id := docs[i].active];
    }
  }

  /** The keys of `data` are exactly the documents' ids, and each id maps to the `active` flag of its last document. */
  ghost predicate Filled(data: map<string, bool>, docs: seq<StreakDoc>) {
    (forall id :: id in data <==> exists k :: 0 <= k < |docs| && docs[k].id == id) &&
    (forall k :: 0 <= k < |docs| && (forall m :: k < m < |docs| ==> docs[m].id != docs[k].id) ==>
       docs[k].id in data && data[docs[k].id] == docs[k].active)
  }

  /** The component's fetched state. */
  class CalendarState {
    var streaks: map<string, bool>
    var loading: bool
    var error: Option<string>

    constructor ()
      ensures streaks == map[] && !loading && error == None
    {
      streaks := map[];
      loading := false;
      error := None;
    }

    /**
     * The start of the loading effect: nothing without a uid; otherwise
     * loading begins and the error is cleared before the fetch is sent.
     * `started` says whether the fetch was sent.
     */
    method BeginLoad(uid: string) returns (started: bool)
      modifies this
      ensures started <==> uid != ""
      ensures !started ==> unchanged(this)
      ensures started ==> loading && error == None && streaks == old(streaks)
    {
      if uid == "" {
        return false;
      }
      loading := true;
      error := None;
      started := true;
    }

    /**
     * The continuation once the fetch has answered: the fetched documents
     * fill the map, or a failure sets the error message and keeps the map;
     * loading ends either way.
     */
    method SettleLoad(fetched: Option<seq<StreakDoc>>)
      modifies this
      ensures !loading
      ensures fetched.Some? ==> error == old(error) && Filled(streaks, fetched.value)
      ensures fetched.None? ==> error == Some("Failed to load streaks") && streaks == old(streaks)
    {
      match fetched {
        case Some(docs) =>
          streaks := FillStreaks(docs);
        case None =>
          error := Some("Failed to load streaks");
      }
      loading := false;
    }
  }
}
