/** Bootstrap cadence and checkpoint dates: why every request after the first stays inside the event budget. */
module CheckpointCalendar {
  import opened Common

  // ---------- The cadence ----------

  const BUCKETS: seq<nat> := [90, 56, 28, 14, 7, 3, 1]

  function FirstFitting(buckets: seq<nat>, limit: nat): nat {
    if buckets == [] then 1 else if buckets[0] <= limit then buckets[0] else FirstFitting(buckets[1..], limit)
  }

  function AtLeastOne(n: int): nat {
    if n >= 1 then n else 1
  }

  /** Trading sessions a request may cover. */
  function SafeSessions(maximumSession: int, eventBudget: int): nat
    requires maximumSession > 0
  {
    AtLeastOne(eventBudget / maximumSession)
  }

  function BootstrapDays(total: int, maximumSession: int, eventBudget: int): nat {
    if total <= eventBudget || maximumSession <= 0 then 0
    else FirstFitting(BUCKETS, AtLeastOne(SafeSessions(maximumSession, eventBudget) * 7 / 5))
  }

  // ---------- Days ----------

  /** Days are numbered from a Monday. */
  function Weekday(d: int): nat {
    d % 7
  }

  predicate IsWeekday(d: int) {
    Weekday(d) < 5
  }

  function Prior(d: int): int {
    if Weekday(d) == 5 then d - 1 else if Weekday(d) == 6 then d - 2 else d
  }

  method PreviousWeekday(value: int) returns (d: int)
    ensures d == Prior(value)
  {
    d := value;
    while Weekday(d) >= 5
      invariant Prior(d) == Prior(value)
      decreases Weekday(d)
    {
      d := d - 1;
    }
  }

  /** Weekdays up to and including a day, counted from day zero. */
  function Weekdays(d: int): int {
    d / 7 * 5 + if d % 7 < 5 then d % 7 + 1 else 5
  }

  lemma WeekdaysStep(d: int)
    ensures Weekdays(d + 1) == Weekdays(d) + if IsWeekday(d + 1) then 1 else 0
  {
  }

  lemma {:induction false} WeekdaysMonotone(a: int, b: int)
    requires a <= b
    ensures 0 <= Weekdays(b) - Weekdays(a) <= b - a
    decreases b - a
  {
    if a < b {
      WeekdaysMonotone(a, b - 1);
      WeekdaysStep(b - 1);
    }
  }

  /** Moving off a weekend passes no weekday. */
  lemma PriorPassesNone(d: int)
    ensures Prior(d) <= d && IsWeekday(Prior(d)) && Weekdays(Prior(d)) == Weekdays(d)
  {
  }

  lemma PriorMonotone(a: int, b: int)
    requires a <= b
    ensures Prior(a) <= Prior(b)
  {
  }

  // ---------- A bucket holds no more weekdays than its sessions ----------

  lemma WholeWeeks(d: int, weeks: nat)
    ensures Weekdays(d + 7 * weeks) == Weekdays(d) + 5 * weeks
  {
  }

  /** A cadence of this many days never passes more weekdays than the sessions. */
  ghost predicate Fits(gap: nat, sessions: nat) {
    sessions >= 1 && forall x :: FitsAt(gap, sessions, x)
  }

  predicate FitsAt(gap: nat, sessions: nat, x: int) {
    Weekdays(x + gap) - Weekdays(x) <= sessions
  }

  /** The estimate of seven calendar days for five sessions is safe for a cadence, whatever the sessions. */
  ghost predicate EstimateIsSafe(gap: nat) {
    forall sessions: nat :: sessions >= 1 && gap <= sessions * 7 / 5 ==> Fits(gap, sessions)
  }

  /** A cadence of whole weeks and at most three, or six, days is safe. */
  lemma SafeCadence(gap: nat, sessions: nat, x: int)
    requires gap % 7 != 4 && gap % 7 != 5 && sessions >= 1 && gap <= sessions * 7 / 5
    ensures FitsAt(gap, sessions, x)
  {
    var weeks, days := gap / 7, gap % 7;
    WholeWeeks(x, weeks);
    var y := x + 7 * weeks;
    WeekdaysMonotone(y, y + days);
    assert days == 6 ==> Weekdays(y + days) - Weekdays(y) <= 5;
  }

  /** Counted from a Sunday, four or five days past whole weeks are all weekdays: one more than the estimate allows. */
  lemma UnsafeCadence(gap: nat) returns (sessions: nat)
    requires gap % 7 == 4 || gap % 7 == 5
    ensures sessions >= 1 && gap <= sessions * 7 / 5 && !FitsAt(gap, sessions, -1)
  {
    var weeks, days := gap / 7, gap % 7;
    sessions := 5 * weeks + days - 1;
    assert sessions * 7 / 5 == 7 * weeks + (days - 1) * 7 / 5;
    WholeWeeks(-1, weeks);
    assert Weekdays(-1 + 7 * weeks + days) == Weekdays(-1 + 7 * weeks) + days;
  }

  /** The estimate is safe for exactly the cadences that do not leave four or five days over whole weeks. */
  lemma EstimateIsSafeIff(gap: nat)
    ensures EstimateIsSafe(gap) <==> gap % 7 != 4 && gap % 7 != 5
  {
    hide Weekdays;
    if gap % 7 != 4 && gap % 7 != 5 {
      forall sessions: nat, x: int | sessions >= 1 && gap <= sessions * 7 / 5 ensures FitsAt(gap, sessions, x) {
        SafeCadence(gap, sessions, x);
      }
    } else {
      var sessions := UnsafeCadence(gap);
      assert !Fits(gap, sessions);
    }
  }

  /** Every bucket is such a cadence: it spans no more weekdays than the sessions it was chosen for, wherever it starts. */
  lemma BucketFits(gap: nat, sessions: nat, x: int)
    requires gap in BUCKETS && sessions >= 1 && gap <= sessions * 7 / 5
    ensures Weekdays(x + gap) - Weekdays(x) <= sessions
  {
    EstimateIsSafeIff(gap);
    assert Fits(gap, sessions);
    assert FitsAt(gap, sessions, x);
  }

  lemma {:induction false} FittingIs(buckets: seq<nat>, limit: nat)
    requires buckets != [] && buckets[|buckets| - 1] <= limit
    ensures FirstFitting(buckets, limit) in buckets && FirstFitting(buckets, limit) <= limit
    decreases |buckets|
  {
    if buckets[0] > limit {
      FittingIs(buckets[1..], limit);
    }
  }

  /** The cadence is the greatest bucket no larger than seven fifths of the sessions the budget allows, one at least; a total
      within the budget needs none. */
  lemma CadenceIsGreatest(total: int, maximumSession: int, eventBudget: int)
    ensures var gap := BootstrapDays(total, maximumSession, eventBudget);
      && (gap == 0 <==> total <= eventBudget || maximumSession <= 0)
      && (gap != 0 ==>
            var sessions := if eventBudget / maximumSession >= 1 then eventBudget / maximumSession else 1;
            && gap in [1, 3, 7, 14, 28, 56, 90] && gap <= sessions * 7 / 5
            && forall other :: other in [1, 3, 7, 14, 28, 56, 90] && other <= sessions * 7 / 5 ==> other <= gap)
  {
    if total > eventBudget && maximumSession > 0 {
      var limit := AtLeastOne(SafeSessions(maximumSession, eventBudget) * 7 / 5);
      FittingIs(BUCKETS, limit);
      GreatestFits(BUCKETS, limit);
      SevenBuckets();
    }
  }

  lemma SevenBuckets()
    ensures forall b: nat :: b in BUCKETS <==> b in [1, 3, 7, 14, 28, 56, 90]
    ensures forall i, j :: 0 <= i < j < |BUCKETS| ==> BUCKETS[i] > BUCKETS[j]
  {
  }

  lemma {:induction false} GreatestFits(buckets: seq<nat>, limit: nat)
    requires buckets != [] && buckets[|buckets| - 1] <= limit && forall i, j :: 0 <= i < j < |buckets| ==> buckets[i] > buckets[j]
    ensures forall b :: b in buckets && b <= limit ==> b <= FirstFitting(buckets, limit)
    decreases |buckets|
  {
    if buckets[0] > limit {
      GreatestFits(buckets[1..], limit);
      assert forall b :: b in buckets <==> b == buckets[0] || b in buckets[1..];
    } else {
      forall b | b in buckets && b <= limit ensures b <= buckets[0] {
        var i :| 0 <= i < |buckets| && buckets[i] == b;
      }
    }
  }

  /** The chosen cadence covers no more weekdays than the budget has sessions, wherever it starts. */
  lemma CadenceFits(total: int, maximumSession: int, eventBudget: int, x: int)
    requires 0 < maximumSession <= eventBudget && total > eventBudget
    ensures var gap := BootstrapDays(total, maximumSession, eventBudget);
      gap >= 1 && Weekdays(x + gap) - Weekdays(x) <= eventBudget / maximumSession
  {
    var sessions := SafeSessions(maximumSession, eventBudget);
    SessionsAreQuotient(maximumSession, eventBudget);
    var limit := AtLeastOne(sessions * 7 / 5);
    FittingIs(BUCKETS, limit);
    BucketFits(BootstrapDays(total, maximumSession, eventBudget), sessions, x);
  }

  lemma SessionsAreQuotient(maximumSession: int, eventBudget: int)
    requires 0 < maximumSession <= eventBudget
    ensures SafeSessions(maximumSession, eventBudget) == eventBudget / maximumSession >= 1
    ensures eventBudget / maximumSession * maximumSession <= eventBudget
  {
  }

  /** The smallest cadence the estimate fails for: four days pass the test for three sessions. */
  lemma FourDaysWouldNotFit()
    ensures 4 <= 3 * 7 / 5 && Weekdays(0 + 3) - Weekdays(0 - 1) == 4 > 3
    ensures !EstimateIsSafe(4) && forall gap: nat :: gap < 4 ==> EstimateIsSafe(gap)
  {
    forall gap: nat | gap <= 4 ensures EstimateIsSafe(gap) <==> gap != 4 {
      EstimateIsSafeIff(gap);
    }
  }

  // ---------- The schedule ----------

  /** A cursor of the bootstrap: a whole number of gaps after the rebuild start, before the target. */
  predicate Cursor(start: int, gap: nat, target: int, k: nat) {
    k >= 1 && start + k * gap < target
  }

  ghost predicate Bootstrap(start: int, gap: nat, target: int, d: int) {
    && gap > 0 && start < target
    && (d == Prior(target - 1) || exists k: nat :: Cursor(start, gap, target, k) && d == Prior(start + k * gap))
  }

  /** The dates that must be checkpoints. */
  ghost predicate Scheduled(start: int, gap: nat, target: int, end: int, d: int) {
    target <= d <= end || Bootstrap(start, gap, target, d)
  }

  /** Target days, then the bootstrap dates moved off weekends, in strictly increasing order. */
  method CheckpointSchedule(start: int, target: int, end: int, gap: int) returns (dates: seq<int>)
    ensures Increasing(dates)
    ensures forall d :: d in dates <==> Scheduled(start, if gap > 0 then gap else 0, target, end, d)
  {
    var scheduled: set<int> := {};
    var cursor := target;
    while cursor <= end
      invariant target <= cursor && forall d :: d in scheduled <==> target <= d < cursor && d <= end
      decreases end - cursor
    {
      scheduled := scheduled + {cursor};
      cursor := cursor + 1;
    }
    if gap > 0 && start < target {
      scheduled := AddBootstrap(start, target, end, gap, scheduled);
    }
    dates := Sorted(scheduled);
  }

  method AddBootstrap(start: int, target: int, end: int, gap: nat, targets: set<int>) returns (scheduled: set<int>)
    requires gap > 0 && start < target && forall d :: d in targets <==> target <= d <= end
    ensures forall d :: d in scheduled <==> Scheduled(start, gap, target, end, d)
  {
    hide Prior;
    scheduled := targets;
    var cursor := start + gap;
    ghost var k: nat := 1;
    assert 1 * gap == gap;
    while cursor < target
      invariant k >= 1 && cursor == start + k * gap
      invariant forall d :: d in scheduled <==> target <= d <= end || Visited(start, gap, target, k, d)
      decreases target - cursor
    {
      var date := PreviousWeekday(cursor);
      VisitNext(start, gap, target, k);
      scheduled := scheduled + {date};
      k := k + 1;
      assert k * gap == (k - 1) * gap + gap;
      cursor := cursor + gap;
    }
    var last := PreviousWeekday(target - 1);
    scheduled := scheduled + {last};
    forall d ensures Visited(start, gap, target, k, d) <==>
                     exists j: nat :: Cursor(start, gap, target, j) && d == Prior(start + j * gap)
    {
      AllVisited(start, gap, target, k, d);
    }
  }

  ghost predicate Visited(start: int, gap: nat, target: int, k: nat, d: int) {
    exists j: nat :: j < k && Cursor(start, gap, target, j) && d == Prior(start + j * gap)
  }

  lemma VisitNext(start: int, gap: nat, target: int, k: nat)
    requires Cursor(start, gap, target, k)
    ensures forall d :: Visited(start, gap, target, k + 1, d) <==>
                        Visited(start, gap, target, k, d) || d == Prior(start + k * gap)
  {
    hide Prior, Cursor;
    forall d
      ensures Visited(start, gap, target, k + 1, d) <==> Visited(start, gap, target, k, d) || d == Prior(start + k * gap)
    {
      if j: nat :| j < k + 1 && Cursor(start, gap, target, j) && d == Prior(start + j * gap) {
        assert j < k || j == k;
      }
      if Visited(start, gap, target, k, d) {
        var j: nat :| j < k && Cursor(start, gap, target, j) && d == Prior(start + j * gap);
        assert j < k + 1;
      }
      if d == Prior(start + k * gap) {
        assert k < k + 1 && Cursor(start, gap, target, k);
      }
    }
  }

  lemma AllVisited(start: int, gap: nat, target: int, k: nat, d: int)
    requires start + k * gap >= target
    ensures Visited(start, gap, target, k, d) <==>
            exists j: nat :: Cursor(start, gap, target, j) && d == Prior(start + j * gap)
  {
    if j: nat :| Cursor(start, gap, target, j) && d == Prior(start + j * gap) {
      if j >= k {
        MoreGaps(gap, k, j);
      }
    }
  }

  lemma MoreGaps(gap: nat, k: nat, j: nat)
    requires k <= j
    ensures k * gap <= j * gap
  {
    assert (j - k) * gap >= 0;
  }

  // ---------- Requests between consecutive dates ----------

  /** A request's events: those after one date up to and including another. */
  function Events(sizes: int -> nat, after: int, until: int): nat
    decreases until - after
  {
    if until <= after then 0 else Events(sizes, after, until - 1) + sizes(until)
  }

  /** Sessions fall on weekdays and none exceeds the maximum. */
  ghost predicate Sizes(sizes: int -> nat, maximum: nat) {
    forall d :: sizes(d) <= maximum && (!IsWeekday(d) ==> sizes(d) == 0)
  }

  lemma OneMoreSession(sessions: int, maximum: nat)
    ensures (sessions + 1) * maximum == sessions * maximum + maximum
  {
  }

  lemma {:induction false} EventsBounded(sizes: int -> nat, maximum: nat, after: int, until: int)
    requires Sizes(sizes, maximum) && after <= until
    ensures Events(sizes, after, until) <= (Weekdays(until) - Weekdays(after)) * maximum
    decreases until - after
  {
    hide Weekdays, IsWeekday;
    if after < until {
      EventsBounded(sizes, maximum, after, until - 1);
      WeekdaysStep(until - 1);
      OneMoreSession(Weekdays(until - 1) - Weekdays(after), maximum);
      assert sizes(until) <= maximum;
    }
  }

  /** An earlier scheduled date close enough behind. */
  ghost predicate Behind(start: int, gap: nat, target: int, end: int, sessions: nat, d: int, e: int) {
    Scheduled(start, gap, target, end, e) && e < d && Weekdays(d) - Weekdays(e) <= sessions
  }

  lemma FewerDays(gap: nat, sessions: nat, a: int, b: int)
    requires Fits(gap, sessions) && a <= b <= a + gap
    ensures Weekdays(b) - Weekdays(a) <= sessions
  {
    assert FitsAt(gap, sessions, a);
    WeekdaysMonotone(b, a + gap);
  }

  /** A cursor's date is the first of all, or has a close scheduled date behind it. */
  lemma {:induction false} CursorBehind(start: int, gap: nat, target: int, end: int, sessions: nat, k: nat) returns (e: int)
    requires gap > 0 && start < target && Cursor(start, gap, target, k) && Fits(gap, sessions)
    ensures var d := Prior(start + k * gap);
      d == Prior(start + gap) || Behind(start, gap, target, end, sessions, d, e)
    decreases k
  {
    e := 0;
    if k > 1 {
      var x, y := start + (k - 1) * gap, start + k * gap;
      assert y == x + gap;
      assert Cursor(start, gap, target, k - 1);
      PriorPassesNone(x);
      PriorPassesNone(y);
      PriorMonotone(x, y);
      FewerDays(gap, sessions, x, y);
      if Prior(x) == Prior(y) {
        e := CursorBehind(start, gap, target, end, sessions, k - 1);
      } else {
        e := Prior(x);
        assert Bootstrap(start, gap, target, e);
        assert Behind(start, gap, target, end, sessions, Prior(y), e);
      }
    } else {
      assert 1 * gap == gap;
    }
  }

  /** The last cursor before the target, when there is one. */
  lemma LastCursor(start: int, gap: nat, target: int) returns (k: nat)
    requires gap > 0 && start + gap < target
    ensures Cursor(start, gap, target, k) && target <= start + k * gap + gap
  {
    k := 1;
    assert 1 * gap == gap;
    while start + k * gap + gap < target
      invariant Cursor(start, gap, target, k)
      decreases target - (start + k * gap)
    {
      assert (k + 1) * gap == k * gap + gap;
      k := k + 1;
    }
  }

  /** The first date of a bootstrapped schedule. */
  function FirstDate(start: int, gap: nat, target: int): int {
    if start + gap < target then Prior(start + gap) else Prior(target - 1)
  }

  /** Every scheduled date but the first has a close scheduled date behind it. */
  lemma DateBehind(start: int, gap: nat, target: int, end: int, sessions: nat, d: int) returns (e: int)
    requires gap > 0 && start < target && Fits(gap, sessions) && Scheduled(start, gap, target, end, d)
    ensures d == FirstDate(start, gap, target) || Behind(start, gap, target, end, sessions, d, e)
  {
    hide Weekdays, Weekday;
    e := 0;
    PriorPassesNone(target - 1);
    if d == target {
      e := Prior(target - 1);
      WeekdaysStep(target - 1);
      assert Bootstrap(start, gap, target, e);
    } else if target < d <= end {
      e := d - 1;
      WeekdaysStep(d - 1);
    } else if k: nat :| Cursor(start, gap, target, k) && d == Prior(start + k * gap) {
      e := CursorBehind(start, gap, target, end, sessions, k);
      MoreGaps(gap, 1, k);
      assert 1 * gap == gap;
    } else if start + gap < target {
      var k := LastCursor(start, gap, target);
      var x := start + k * gap;
      PriorPassesNone(x);
      PriorMonotone(x, target - 1);
      FewerDays(gap, sessions, x, target - 1);
      e := Prior(x);
      assert Bootstrap(start, gap, target, e);
    }
  }

  /** Every request after the first covers at most the event budget, although moving checkpoints off weekends widens
      calendar gaps; the first covers at most one session more. */
  lemma RequestsFitBudget(sizes: int -> nat, total: int, maximum: nat, budget: nat, start: int, target: int, end: int,
                          dates: seq<int>, i: nat)
    requires 0 < maximum <= budget && total > budget && Sizes(sizes, maximum)
    requires start < target && i < |dates| && Increasing(dates)
    requires forall d :: d in dates <==> Scheduled(start, BootstrapDays(total, maximum, budget), target, end, d)
    ensures i > 0 ==> Events(sizes, dates[i - 1], dates[i]) <= budget
    ensures i == 0 ==> Events(sizes, start - 1, dates[0]) <= budget + maximum
  {
    hide BootstrapDays, Scheduled, Fits, Weekdays, Sizes, Increasing;
    var gap, sessions := BootstrapDays(total, maximum, budget), budget / maximum;
    SessionsAreQuotient(maximum, budget);
    CadenceAlwaysFits(total, maximum, budget);
    if i > 0 {
      LaterRequest(sizes, maximum, sessions, start, gap, target, end, dates, i);
      SessionsTimesMaximum(Weekdays(dates[i]) - Weekdays(dates[i - 1]), sessions, maximum, budget);
    } else {
      FirstRequest(sizes, maximum, sessions, start, gap, target, end, dates);
    }
  }

  lemma CadenceAlwaysFits(total: int, maximum: int, budget: int)
    requires 0 < maximum <= budget && total > budget
    ensures BootstrapDays(total, maximum, budget) > 0 && Fits(BootstrapDays(total, maximum, budget), budget / maximum)
  {
    hide BootstrapDays, Weekdays;
    SessionsAreQuotient(maximum, budget);
    CadenceFits(total, maximum, budget, 0);
    var gap := BootstrapDays(total, maximum, budget);
    forall x ensures FitsAt(gap, budget / maximum, x) {
      CadenceFits(total, maximum, budget, x);
    }
  }

  lemma SessionsTimesMaximum(weekdays: int, sessions: nat, maximum: nat, budget: nat)
    requires weekdays <= sessions && sessions * maximum <= budget
    ensures weekdays * maximum <= budget
  {
    assert (sessions - weekdays) * maximum >= 0;
  }

  lemma LaterRequest(sizes: int -> nat, maximum: nat, sessions: nat, start: int, gap: nat, target: int, end: int,
                     dates: seq<int>, i: nat)
    requires Sizes(sizes, maximum) && gap > 0 && start < target && Fits(gap, sessions)
    requires 0 < i < |dates| && Increasing(dates)
    requires forall d :: d in dates <==> Scheduled(start, gap, target, end, d)
    ensures Weekdays(dates[i]) - Weekdays(dates[i - 1]) <= sessions
    ensures Events(sizes, dates[i - 1], dates[i]) <= (Weekdays(dates[i]) - Weekdays(dates[i - 1])) * maximum
  {
    hide Scheduled, Weekdays, Events, FirstDate, Prior, Sizes, Fits;
    var a, b := dates[i - 1], dates[i];
    assert a in dates && b in dates;
    var e := DateBehind(start, gap, target, end, sessions, b);
    if b == FirstDate(start, gap, target) {
      FirstIsLeast(start, gap, target, end, a);
    } else {
      BehindIs(start, gap, target, end, sessions, b, e);
      assert e in dates;
      var k :| 0 <= k < |dates| && dates[k] == e;
      assert k <= i - 1;
      assert k < i - 1 ==> dates[k] < dates[i - 1];
      WeekdaysMonotone(e, a);
      EventsBounded(sizes, maximum, a, b);
    }
  }

  lemma BehindIs(start: int, gap: nat, target: int, end: int, sessions: nat, d: int, e: int)
    requires Behind(start, gap, target, end, sessions, d, e)
    ensures Scheduled(start, gap, target, end, e) && e < d && Weekdays(d) - Weekdays(e) <= sessions
  {
  }

  /** Nothing is scheduled before the first date. */
  lemma FirstIsLeast(start: int, gap: nat, target: int, end: int, d: int)
    requires gap > 0 && start < target && Scheduled(start, gap, target, end, d)
    ensures FirstDate(start, gap, target) <= d
  {
    PriorPassesNone(target - 1);
    if start + gap < target {
      PriorMonotone(start + gap, target - 1);
    }
    if k: nat :| Cursor(start, gap, target, k) && d == Prior(start + k * gap) {
      MoreGaps(gap, 1, k);
      assert 1 * gap == gap;
      PriorMonotone(start + gap, start + k * gap);
    }
  }

  lemma FirstRequest(sizes: int -> nat, maximum: nat, sessions: nat, start: int, gap: nat, target: int, end: int, dates: seq<int>)
    requires Sizes(sizes, maximum) && gap > 0 && start < target && Fits(gap, sessions)
    requires dates != [] && Increasing(dates)
    requires forall d :: d in dates <==> Scheduled(start, gap, target, end, d)
    ensures Events(sizes, start - 1, dates[0]) <= sessions * maximum + maximum
  {
    hide Scheduled, Weekdays, Events, Sizes, Fits, FirstDate, Increasing;
    var first := FirstDate(start, gap, target);
    FirstIsScheduled(start, gap, target, end);
    assert first in dates && dates[0] in dates;
    FirstIsLeast(start, gap, target, end, dates[0]);
    LeastIsFirst(dates, first);
    FirstStretch(sizes, maximum, sessions, start, gap, target);
  }

  /** Up to the first date there is at most one session's events beyond the budgeted ones. */
  lemma FirstStretch(sizes: int -> nat, maximum: nat, sessions: nat, start: int, gap: nat, target: int)
    requires Sizes(sizes, maximum) && gap > 0 && start < target && Fits(gap, sessions)
    ensures Events(sizes, start - 1, FirstDate(start, gap, target)) <= sessions * maximum + maximum
  {
    hide Weekdays, Events, Sizes, Fits, FirstDate;
    var first := FirstDate(start, gap, target);
    if start - 1 <= first {
      FirstWeekdays(start, gap, target, sessions);
      EventsBounded(sizes, maximum, start - 1, first);
      SessionsTimesMaximum(Weekdays(first) - Weekdays(start - 1), sessions + 1, maximum, sessions * maximum + maximum);
    } else {
      NoEvents(sizes, start - 1, first);
    }
  }

  lemma LeastIsFirst(dates: seq<int>, first: int)
    requires Increasing(dates) && first in dates && first <= dates[0]
    ensures dates[0] == first
  {
  }

  lemma NoEvents(sizes: int -> nat, after: int, until: int)
    requires until <= after
    ensures Events(sizes, after, until) == 0
  {
  }

  lemma FirstIsScheduled(start: int, gap: nat, target: int, end: int)
    requires gap > 0 && start < target
    ensures Scheduled(start, gap, target, end, FirstDate(start, gap, target))
  {
    assert 1 * gap == gap;
    if start + gap < target {
      assert Cursor(start, gap, target, 1);
    }
  }

  lemma FirstWeekdays(start: int, gap: nat, target: int, sessions: nat)
    requires gap > 0 && start < target && Fits(gap, sessions)
    ensures Weekdays(FirstDate(start, gap, target)) - Weekdays(start - 1) <= sessions + 1
  {
    var x := if start + gap < target then start + gap else target - 1;
    PriorPassesNone(x);
    FewerDays(gap, sessions, start, x);
    WeekdaysStep(start - 1);
  }

  // ---------- Calendar gaps ----------

  /** Days a date is moved back: one from a Saturday, two from a Sunday, none from a weekday. */
  function MovedBack(d: int): nat {
    if Weekday(d) <= 4 then 0 else Weekday(d) - 4
  }

  lemma PriorIs(d: int)
    ensures Prior(d) == d - MovedBack(d)
  {
  }

  /** Two consecutive cursors' dates have nothing scheduled between them, and lie further apart than the cadence exactly
      when the earlier cursor is moved back further than the later one. */
  lemma CursorGapIsWiderIff(start: int, gap: nat, target: int, end: int, k: nat)
    requires gap > 0 && start < target && Cursor(start, gap, target, k) && Cursor(start, gap, target, k + 1)
    ensures var x := start + k * gap; var y := x + gap;
      && y == start + (k + 1) * gap
      && Scheduled(start, gap, target, end, Prior(x)) && Scheduled(start, gap, target, end, Prior(y))
      && (forall d :: Prior(x) < d < Prior(y) ==> !Scheduled(start, gap, target, end, d))
      && (Prior(y) - Prior(x) > gap <==> MovedBack(x) > MovedBack(y))
  {
    hide Prior, MovedBack;
    var x := start + k * gap;
    var y := x + gap;
    assert y == start + (k + 1) * gap;
    PriorIs(x);
    PriorIs(y);
    PriorPassesNone(y);
    PriorMonotone(y, target - 1);
    forall d | Prior(x) < d < Prior(y) ensures !Scheduled(start, gap, target, end, d) {
      if j: nat :| Cursor(start, gap, target, j) && d == Prior(start + j * gap) {
        if j <= k {
          MoreGaps(gap, j, k);
          PriorMonotone(start + j * gap, x);
        } else {
          MoreGaps(gap, k + 1, j);
          PriorMonotone(y, start + j * gap);
        }
      }
    }
  }

  /** The same for the last cursor and the eve of the target, and for the eve and the target itself. */
  lemma EveGapIsWiderIff(start: int, gap: nat, target: int, k: nat)
    requires gap > 0 && start < target && Cursor(start, gap, target, k) && !Cursor(start, gap, target, k + 1)
    ensures var x, eve := start + k * gap, target - 1;
      && x <= eve < x + gap
      && (Prior(eve) - Prior(x) > gap <==> MovedBack(x) - MovedBack(eve) > gap - (eve - x))
      && (target - Prior(eve) > gap <==> MovedBack(eve) >= gap)
  {
    hide Prior, MovedBack;
    PriorIs(start + k * gap);
    PriorIs(target - 1);
    assert (k + 1) * gap == k * gap + gap;
  }

  /** Such a schedule: three days from a Sunday checkpoint leave five. */
  lemma CalendarGapIsWider()
    ensures var start, target, gap := 3, 20, 3;
      && Scheduled(start, gap, target, 20, 4) && Scheduled(start, gap, target, 20, 9)
      && (forall d :: 4 < d < 9 ==> !Scheduled(start, gap, target, 20, d))
  {
    CursorGapIsWiderIff(3, 3, 20, 20, 1);
  }
}
