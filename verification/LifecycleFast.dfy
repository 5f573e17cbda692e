/** The range shortcuts over one session, and the session-by-session history they build. */
module LifecycleFast {
  import opened Common
  import opened Lifecycle
  import opened Compression
  import opened CompressionScore

  // ---------- One session ----------

  function Lowest(events: seq<Event>): real
    requires events != []
  {
    events[FirstMin(events)].price
  }

  function Highest(events: seq<Event>): real
    requires events != []
  {
    events[FirstMax(events)].price
  }

  predicate NoContact(b: Band, events: seq<Event>)
    requires events != []
  {
    Lowest(events) > b.upper || Highest(events) < b.lower
  }

  predicate StaysFavorable(b: Band, role: int, events: seq<Event>)
    requires events != []
  {
    if role > 0 then Lowest(events) > b.upper else Highest(events) < b.lower
  }

  /** Phase 2 without a contact: only the counter resets. */
  function Pending(s: State): State {
    s.(count := 0)
  }

  /** Phase 0 on the favorable side: only the running best can rise, by the session's extreme price. */
  function Advanced(b: Band, s: State, events: seq<Event>): State
    requires events != []
  {
    var a := s.score;
    var distance := if s.role > 0 then Highest(events) - b.upper else b.lower - Lowest(events);
    var best := if a.phase == 0 then a.best else Max(a.best, Max(distance, 0.0) / Scale(a.range));
    State(s.role, 0, 0,
          Score(a.completed, best, a.range, if a.phase != 0 && best >= 1.0 then 2 else a.phase, s.role, a.encounters),
          s.confirmed)
  }

  function Fast(b: Band, events: seq<Event>, s: State): State {
    if events == [] then s
    else if s.phase == 2 && NoContact(b, events) then Pending(s)
    else if s.phase == 0 && StaysFavorable(b, s.role, events) then Advanced(b, s, events)
    else Fold(b, Compress(b, events), s)
  }

  lemma QuietStepKeepsLife(b: Band, s: State, events: seq<Event>, e: Event)
    requires b.Valid() && events != [] && e in events
    requires (s.phase == 2 && NoContact(b, events)) || (s.phase == 0 && StaysFavorable(b, s.role, events))
    ensures !Contact(b, e)
    ensures SameLife(Step(b, s, e), s.(count := 0))
  {
  }

  lemma {:induction false} QuietFoldKeepsLife(b: Band, s: State, events: seq<Event>, tail: seq<Event>)
    requires b.Valid() && events != [] && forall e :: e in tail ==> e in events
    requires (s.phase == 2 && NoContact(b, events)) || (s.phase == 0 && StaysFavorable(b, s.role, events))
    ensures SameLife(Fold(b, tail, s), if tail == [] then s else s.(count := 0))
    decreases |tail|
  {
    if tail != [] {
      assert tail[0] in tail;
      QuietStepKeepsLife(b, s, events, tail[0]);
      QuietFoldKeepsLife(b, Step(b, s, tail[0]), events, tail[1..]);
    }
  }

  /** From every seed, the shortcuts and the compression preserve role, phase, count and confirmation time. */
  lemma FastKeepsLife(b: Band, events: seq<Event>, s: State)
    requires b.Valid()
    ensures SameLife(Fast(b, events, s), Fold(b, events, s))
  {
    if events == [] {
    } else if (s.phase == 2 && NoContact(b, events)) || (s.phase == 0 && StaysFavorable(b, s.role, events)) {
      QuietFoldKeepsLife(b, s, events, events);
    } else {
      CompressKeepsLife(b, events, s);
    }
  }

  /** The extreme price alone gives the running best over a favorable session. */
  lemma ExtremeGivesPeak(b: Band, role: int, range: real, events: seq<Event>, floor: real)
    requires events != []
    ensures Peak(b, role, range, events, floor)
      == Max(floor, Ratio(b, role, range, events[if role > 0 then FirstMax(events) else FirstMin(events)]))
  {
    var m := events[if role > 0 then FirstMax(events) else FirstMin(events)];
    PeakIsMaximum(b, role, range, events, floor);
    forall e | e in events ensures Ratio(b, role, range, e) <= Ratio(b, role, range, m) {
      ExcursionMonotone(b, role, range, e, m);
    }
    assert m in events;
  }

  /** A birth seed's unset scorer side is the level's own role from the first observation on. */
  lemma SideIsSet(b: Band, s: State, events: seq<Event>)
    requires b.Valid() && Inv(s) && events != [] && s.phase == 0 && StaysFavorable(b, s.role, events)
    ensures Fold(b, events, s) == Fold(b, events, s.(score := s.score.(side := s.role)))
  {
    assert events[0] in events;
    assert Step(b, s, events[0]) == Step(b, s.(score := s.score.(side := s.role)), events[0]);
  }

  /** The closed form is the session's running best applied at once. */
  lemma AdvancedIsRaised(b: Band, s: State, events: seq<Event>)
    requires Inv(s) && events != [] && s.phase == 0
    ensures var t, m := s.(score := s.score.(side := s.role)), events[if s.role > 0 then FirstMax(events) else FirstMin(events)];
      Advanced(b, s, events) == Raised(t, Max(s.score.best, Ratio(b, s.role, s.score.range, m)))
  {
  }

  lemma AdvancedExact(b: Band, events: seq<Event>, s: State)
    requires b.Valid() && Inv(s) && events != [] && s.phase == 0 && StaysFavorable(b, s.role, events)
    ensures Advanced(b, s, events) == Fold(b, events, s)
  {
    var t := s.(score := s.score.(side := s.role));
    SideIsSet(b, s, events);
    forall e | e in events ensures !Contact(b, e) && SameLife(Step(b, t, e), t) {
      QuietStepKeepsLife(b, t, events, e);
    }
    OutsideFold(b, t, events);
    ExtremeGivesPeak(b, s.role, s.score.range, events, s.score.best);
    AdvancedIsRaised(b, s, events);
  }

  lemma PendingExact(b: Band, events: seq<Event>, s: State)
    requires b.Valid() && Inv(s) && events != [] && s.phase == 2 && NoContact(b, events)
    ensures Pending(s) == Fold(b, events, s)
  {
    var t := Pending(s);
    assert events[0] in events;
    QuietStepKeepsLife(b, s, events, events[0]);
    assert Step(b, s, events[0]) == t;
    forall e | e in events[1..] ensures !Contact(b, e) && SameLife(Step(b, t, e), t) {
      assert e in events;
      QuietStepKeepsLife(b, t, events, e);
    }
    OutsideFold(b, t, events[1..]);
  }

  /** With anchored ranges the fast form is the reference fold, score included, from every reachable seed. */
  lemma FastExact(b: Band, events: seq<Event>, s: State)
    requires b.Valid() && Inv(s) && RangesAnchored(b, events)
    ensures Fast(b, events, s) == Fold(b, events, s)
  {
    if events == [] {
    } else if s.phase == 2 && NoContact(b, events) {
      PendingExact(b, events, s);
    } else if s.phase == 0 && StaysFavorable(b, s.role, events) {
      AdvancedExact(b, events, s);
    } else {
      CompressExact(b, events, s);
    }
  }

  // ---------- The day loop ----------

  /** One session: its closing time and the observations stamped with its date. */
  datatype Day = Day(close: nat, observations: seq<Event>)

  /** Observations up to the close whose whole second follows the level's birth. */
  function Eligible(born: nat, close: nat, events: seq<Event>): seq<Event> {
    if events == [] then []
    else (if events[0].at <= close && events[0].at >= born + 1000000 then [events[0]] else [])
         + Eligible(born, close, events[1..])
  }

  lemma EligibleOne(born: nat, close: nat, e: Event)
    ensures Eligible(born, close, [e]) == if born + 1_000_000 <= e.at && e.at <= close then [e] else []
  {
    assert [e][1..] == [];
  }

  lemma {:induction false} NoneEligible(born: nat, close: nat, events: seq<Event>)
    requires close < born
    ensures Eligible(born, close, events) == []
  {
    if events != [] {
      NoneEligible(born, close, events[1..]);
    }
  }

  lemma {:induction false} EligibleConcat(born: nat, close: nat, xs: seq<Event>, ys: seq<Event>)
    ensures Eligible(born, close, xs + ys) == Eligible(born, close, xs) + Eligible(born, close, ys)
  {
    hide Eligible;
    if xs == [] {
      assert xs + ys == ys;
      EligibleNone(born, close);
    } else {
      var rest := xs[1..];
      EligibleConcat(born, close, rest, ys);
      EligibleCons(born, close, xs[0], rest);
      EligibleCons(born, close, xs[0], rest + ys);
      assert xs == [xs[0]] + rest && xs + ys == [xs[0]] + (rest + ys);
    }
  }

  lemma EligibleNone(born: nat, close: nat)
    ensures Eligible(born, close, []) == []
  {
  }

  lemma EligibleCons(born: nat, close: nat, e: Event, rest: seq<Event>)
    ensures Eligible(born, close, [e] + rest) == Eligible(born, close, [e]) + Eligible(born, close, rest)
  {
    assert ([e] + rest)[1..] == rest && [e][1..] == [];
  }

  /** Each observation of a session is taken exactly when it was known by the close and a whole second after the birth. */
  lemma EligibleIs(born: nat, close: nat, events: seq<Event>, k: nat)
    requires k < |events|
    ensures Eligible(born, close, events)
      == Eligible(born, close, events[..k])
         + (if born + 1_000_000 <= events[k].at && events[k].at <= close then [events[k]] else [])
         + Eligible(born, close, events[k + 1..])
  {
    var e, later := events[k], events[k + 1..];
    assert events == events[..k] + ([e] + later);
    EligibleConcat(born, close, events[..k], [e] + later);
    EligibleConcat(born, close, [e], later);
    EligibleOne(born, close, e);
  }

  /** Everything the level has lived through over these sessions. */
  function PostBirth(born: nat, days: seq<Day>): seq<Event> {
    if days == [] then []
    else PostBirth(born, days[..|days| - 1]) + Eligible(born, days[|days| - 1].close, days[|days| - 1].observations)
  }

  predicate Ordered(days: seq<Day>) {
    forall i, j :: 0 <= i <= j < |days| ==> days[i].close <= days[j].close
  }

  /** What one session's history row must hold: the reference fold over the whole life so far. */
  function ClosingState(b: Band, side: int, born: nat, days: seq<Day>): Option<State>
    requires days != []
  {
    if born <= days[|days| - 1].close then Some(Fold(b, PostBirth(born, days), BirthSeed(side, born))) else None
  }

  /** A row agrees with the reference: always on the four lifecycle fields, entirely when `exact`. */
  predicate Matches(row: Option<State>, spec: Option<State>, exact: bool) {
    match (row, spec)
    case (Some(s), Some(t)) => SameLife(s, t) && (exact ==> s == t)
    case (None, None) => true
    case _ => false
  }

  predicate RowMatches(b: Band, side: int, born: nat, upTo: seq<Day>, row: Option<State>, exact: bool)
    requires upTo != []
  {
    Matches(row, ClosingState(b, side, born, upTo), exact)
  }

  predicate HistoryMatches(b: Band, side: int, born: nat, days: seq<Day>, history: seq<Option<State>>, exact: bool)
    requires |history| <= |days|
  {
    forall i :: 0 <= i < |history| ==> RowMatches(b, side, born, days[..i + 1], history[i], exact)
  }

  /** Every session's eligible observations are anchored. */
  predicate DaysAnchored(b: Band, born: nat, days: seq<Day>) {
    forall i :: 0 <= i < |days| ==> RangesAnchored(b, Eligible(born, days[i].close, days[i].observations))
  }

  lemma {:induction false} NothingBeforeBirth(born: nat, days: seq<Day>)
    requires forall i :: 0 <= i < |days| ==> days[i].close < born
    ensures PostBirth(born, days) == []
    decreases |days|
  {
    if days != [] {
      NothingBeforeBirth(born, days[..|days| - 1]);
      NoneEligible(born, days[|days| - 1].close, days[|days| - 1].observations);
    }
  }

  /** The row one session inserts, seeded by the preceding session's persisted row if there is one. */
  function NextRow(b: Band, side: int, born: nat, day: Day, prior: Option<State>): Option<State> {
    if born <= day.close then
      var seed := if prior.Some? then prior.value else BirthSeed(side, born);
      Some(Fast(b, Eligible(born, day.close, day.observations), seed))
    else None
  }

  /** The exactness claim fails on a row of the history: a level born by the opening whose first session is five contacts
      in its first minutes gets a row whose frozen range is 2 where its whole life freezes 1. */
  lemma LostRow(b: Band, open: nat, p: real, born: nat, close: nat)
    requires b.Valid() && b.lower <= p <= b.upper && born <= open && open + 121_000_000 <= close
    ensures var day := Day(close, FirstMinutes(open, p));
      var row, spec := NextRow(b, 1, born, day, None), ClosingState(b, 1, born, [day]);
      && Eligible(born, close, day.observations) == day.observations
      && row.Some? && spec.Some? && row.value.score.range == 2.0 && spec.value.score.range == 1.0 && row != spec
  {
    var g := FirstMinutes(open, p);
    var birth := BirthSeed(1, born);
    assert forall e :: e in g ==> born + 1000000 <= e.at <= close;
    assert Lowest(g) <= g[0].price == p;
    assert Fast(b, g, birth) == Fold(b, Compress(b, g), birth);
    hide FirstMinutes, Fold, Compress, Fast, BirthSeed;
    AllEligible(born, close, g);
    LostAnchor(b, open, p, born);
    OneDay(b, 1, born, Day(close, g));
  }

  lemma OneDay(b: Band, side: int, born: nat, day: Day)
    requires born <= day.close
    ensures ClosingState(b, side, born, [day])
         == Some(Fold(b, Eligible(born, day.close, day.observations), BirthSeed(side, born)))
    ensures NextRow(b, side, born, day, None)
         == Some(Fast(b, Eligible(born, day.close, day.observations), BirthSeed(side, born)))
  {
    hide Fold, Fast, BirthSeed;
    var events := Eligible(born, day.close, day.observations);
    assert [day][..0] == [] && [] + events == events;
    assert PostBirth(born, []) == [] && PostBirth(born, [day]) == PostBirth(born, []) + events;
  }

  lemma {:induction false} AllEligible(born: nat, close: nat, events: seq<Event>)
    requires forall e :: e in events ==> born + 1000000 <= e.at <= close
    ensures Eligible(born, close, events) == events
  {
    if events != [] {
      assert events[0] in events;
      assert forall e :: e in events[1..] ==> e in events;
      AllEligible(born, close, events[1..]);
    }
  }

  /** One session advances the level exactly as one fold over its whole life would. */
  lemma DayAdvances(b: Band, side: int, born: nat, days: seq<Day>, prior: Option<State>, exact: bool)
    requires b.Valid() && (side == 1 || side == -1) && days != [] && Ordered(days)
    requires exact ==> DaysAnchored(b, born, days)
    requires |days| > 1 ==> RowMatches(b, side, born, days[..|days| - 1], prior, exact)
    requires |days| == 1 ==> prior.None?
    ensures RowMatches(b, side, born, days, NextRow(b, side, born, days[|days| - 1], prior), exact)
  {
    var n := |days| - 1;
    if born <= days[n].close {
      var before := days[..n];
      var events := Eligible(born, days[n].close, days[n].observations);
      var birth := BirthSeed(side, born);
      var seed := if prior.Some? then prior.value else birth;
      var whole := Fold(b, PostBirth(born, before), birth);
      if prior.None? {
        assert forall i :: 0 <= i < n ==> before[i].close <= days[n - 1].close;
        NothingBeforeBirth(born, before);
      }
      assert SameLife(seed, whole) && (exact ==> seed == whole);
      FoldConcat(b, PostBirth(born, before), events, birth);
      FastKeepsLife(b, events, seed);
      FoldRespectsSameLife(b, events, seed, whole);
      if exact {
        ReachableInv(b, PostBirth(born, before), birth);
        FastExact(b, events, seed);
      }
    }
  }

  /** A further day is advanced from the last row of a matching history. */
  lemma NextDayMatches(b: Band, side: int, born: nat, days: seq<Day>, n: nat, prior: Option<State>, exact: bool)
    requires b.Valid() && (side == 1 || side == -1) && Ordered(days) && n < |days|
    requires exact ==> DaysAnchored(b, born, days)
    requires if n == 0 then prior.None? else RowMatches(b, side, born, days[..n], prior, exact)
    ensures RowMatches(b, side, born, days[..n + 1], NextRow(b, side, born, days[n], prior), exact)
  {
    var upTo := days[..n + 1];
    assert Ordered(upTo);
    assert exact ==> DaysAnchored(b, born, upTo);
    assert upTo[..n] == days[..n] && |upTo| - 1 == n && upTo[n] == days[n];
    DayAdvances(b, side, born, upTo, prior, exact);
  }

  function PriorRow(history: seq<Option<State>>): Option<State> {
    if history == [] then None else history[|history| - 1]
  }

  /** A matching history stays so with the row advanced from its last one. */
  lemma HistoryGrows(b: Band, side: int, born: nat, days: seq<Day>, history: seq<Option<State>>, exact: bool)
    requires b.Valid() && (side == 1 || side == -1) && Ordered(days) && |history| < |days|
    requires exact ==> DaysAnchored(b, born, days)
    requires HistoryMatches(b, side, born, days, history, exact)
    ensures HistoryMatches(b, side, born, days,
                           history + [NextRow(b, side, born, days[|history|], PriorRow(history))], exact)
  {
    hide RowMatches, NextRow, Ordered, DaysAnchored;
    var n := |history|;
    assert n > 0 ==> RowMatches(b, side, born, days[..n - 1 + 1], history[n - 1], exact);
    NextDayMatches(b, side, born, days, n, PriorRow(history), exact);
  }

  /**
   * The resumable day loop for one level: sessions already journaled keep their rows, the rest are computed
   * from the preceding session's persisted row.
   */
  method BuildHistory(b: Band, side: int, born: nat, days: seq<Day>, journaled: seq<Option<State>>, ghost exact: bool)
    returns (history: seq<Option<State>>)
    requires b.Valid() && (side == 1 || side == -1) && Ordered(days) && |journaled| <= |days|
    requires exact ==> DaysAnchored(b, born, days)
    requires HistoryMatches(b, side, born, days, journaled, exact)
    ensures |history| == |days| && journaled <= history
    ensures HistoryMatches(b, side, born, days, history, exact)
  {
    hide HistoryMatches, NextRow, Ordered, DaysAnchored;
    history := journaled;
    for i := |journaled| to |days|
      invariant |history| == i && journaled <= history
      invariant HistoryMatches(b, side, born, days, history, exact)
    {
      HistoryGrows(b, side, born, days, history, exact);
      history := history + [NextRow(b, side, born, days[i], PriorRow(history))];
    }
  }
}
