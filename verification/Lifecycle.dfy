/** The completed-second level lifecycle machine and its reaction-prominence score. */
module Lifecycle {
  import opened Common

  /** Fixed geometry of one level: its band and its tick. */
  datatype Band = Band(lower: real, upper: real, tick: real) {
    predicate Valid() {
      lower <= upper && tick > 0.0
    }
  }

  /** One completed-second observation: when it became known, its close, and the causal minute range. */
  datatype Event = Event(at: nat, price: real, range: real)

  /** Scorer state; phase 0 is idle, 1 is an open encounter, 2 is an encounter that departed a full range. */
  datatype Score = Score(completed: real, best: real, range: real, phase: nat, side: int, encounters: nat)

  /** Level state; phase 0 active, 1 crossed, 2 awaiting retest, 3 retest contact. */
  datatype State = State(role: int, phase: nat, count: nat, score: Score, confirmed: nat)

  // ---------- Lifecycle flags ----------

  function Margin(b: Band, e: Event): real {
    Max(b.tick, e.range * 0.25)
  }

  predicate Beyond(b: Band, role: int, e: Event) {
    if role > 0 then e.price < b.lower - Margin(b, e) else e.price > b.upper + Margin(b, e)
  }

  predicate Contact(b: Band, e: Event) {
    b.lower <= e.price <= b.upper
  }

  predicate Flips(b: Band, role: int, e: Event) {
    if role > 0 then e.price < b.lower - b.tick else e.price > b.upper + b.tick
  }

  predicate Rejects(b: Band, role: int, e: Event) {
    if role > 0 then e.price > b.upper + b.tick else e.price < b.lower - b.tick
  }

  /** The price lies strictly on the side the role expects. */
  predicate Favorable(b: Band, role: int, e: Event) {
    if role > 0 then e.price > b.upper else e.price < b.lower
  }

  function NextPhase(b: Band, s: State, e: Event): nat {
    if s.phase == 0 then
      if Beyond(b, s.role, e) then 1 else 0
    else if s.phase == 1 then
      if Beyond(b, s.role, e) then (if s.count >= 1 then 2 else 1) else 0
    else if s.phase == 2 then
      if Contact(b, e) then 3 else 2
    else
      if Flips(b, s.role, e) || Rejects(b, s.role, e) then 0 else 3
  }

  function NextRole(b: Band, s: State, e: Event): int {
    if s.phase == 3 && Flips(b, s.role, e) then -s.role else s.role
  }

  function NextCount(b: Band, s: State, e: Event): nat {
    if Beyond(b, s.role, e) && s.phase <= 1 then s.count + 1 else 0
  }

  // ---------- Reaction prominence ----------

  function Finish(a: Score): Score {
    Score(a.completed + a.best, 0.0, 0.0, 0, a.side, a.encounters + (if a.phase != 0 then 1 else 0))
  }

  function Scale(range: real): (scale: real)
    ensures scale > 0.0
  {
    if range > 0.0 then range else 1.0
  }

  /** Favorable excursion of one observation, in price units, never negative. */
  function Excursion(b: Band, role: int, e: Event): real {
    Max(if role > 0 then e.price - b.upper else b.lower - e.price, 0.0)
  }

  function ResetScore(a: Score, role: int, broke: bool): Score {
    if broke || (a.side != 0 && a.side != role) then Finish(a) else a
  }

  function CloseReturned(b: Band, c: Score, e: Event): Score {
    if c.phase == 2 && Contact(b, e) then Finish(c) else c
  }

  function OpenEncounter(b: Band, d: Score, e: Event): Score {
    if d.phase == 0 && Contact(b, e) && e.range > 0.0 then d.(range := e.range, phase := 1) else d
  }

  function Advance(b: Band, a: Score, role: int, e: Event): Score {
    var best := if a.phase != 0 then Max(a.best, Excursion(b, role, e) / Scale(a.range)) else a.best;
    Score(a.completed, best, a.range, if a.phase != 0 && best >= 1.0 then 2 else a.phase, role, a.encounters)
  }

  /** One scorer transition for the role and activity the lifecycle has just reached. */
  function ScoreStep(b: Band, a: Score, role: int, e: Event, active: bool, broke: bool): Score {
    var c := ResetScore(a, role, broke);
    if !active || broke then
      c.(side := role)
    else
      Advance(b, OpenEncounter(b, CloseReturned(b, c, e), e), role, e)
  }

  function Step(b: Band, s: State, e: Event): State {
    var role := NextRole(b, s, e);
    var phase := NextPhase(b, s, e);
    State(role, phase, NextCount(b, s, e),
          ScoreStep(b, s.score, role, e, phase <= 1, s.phase == 1 && phase == 2),
          if role != s.role then e.at else s.confirmed)
  }

  /** The reference semantics: every observation, in order. */
  function Fold(b: Band, events: seq<Event>, s: State): State {
    if events == [] then s else Fold(b, events[1..], Step(b, s, events[0]))
  }

  lemma {:induction false} FoldConcat(b: Band, xs: seq<Event>, ys: seq<Event>, s: State)
    ensures Fold(b, xs + ys, s) == Fold(b, ys, Fold(b, xs, s))
  {
    if xs == [] {
      assert xs + ys == ys;
    } else {
      assert (xs + ys)[1..] == xs[1..] + ys;
      FoldConcat(b, xs[1..], ys, Step(b, s, xs[0]));
    }
  }

  // ---------- Reachable states ----------

  /** What the birth seed satisfies and every transition keeps. */
  predicate ScoreInv(a: Score) {
    && a.phase <= 2
    && (a.phase == 0 ==> a.best == 0.0)
    && (a.phase == 1 ==> 0.0 <= a.best < 1.0 && a.range > 0.0)
    && (a.phase == 2 ==> a.best >= 1.0 && a.range > 0.0)
  }

  predicate Inv(s: State) {
    && (s.role == 1 || s.role == -1)
    && s.phase <= 3
    && s.count <= 2
    && (s.phase == 1 ==> s.count == 1)
    && (s.phase == 0 || s.phase == 3 ==> s.count == 0)
    && ScoreInv(s.score)
    && (s.score.side == s.role || (s.score.side == 0 && s.phase == 0 && s.score.phase == 0))
  }

  function BirthSeed(side: int, born: nat): State {
    State(side, 0, 0, Score(0.0, 0.0, 0.0, 0, 0, 0), born)
  }

  lemma StepKeepsInv(b: Band, s: State, e: Event)
    requires Inv(s)
    ensures Inv(Step(b, s, e))
    ensures Step(b, s, e).score.side == Step(b, s, e).role
  {
    var role := NextRole(b, s, e);
    var phase := NextPhase(b, s, e);
    var c := ResetScore(s.score, role, s.phase == 1 && phase == 2);
    var d := OpenEncounter(b, CloseReturned(b, c, e), e);
    assert ScoreInv(c) && (ScoreInv(d) || d.phase == 1);
    ExcursionRatioNonnegative(b, role, e, d.range);
  }

  lemma ExcursionRatioNonnegative(b: Band, role: int, e: Event, range: real)
    ensures Excursion(b, role, e) / Scale(range) >= 0.0
  {
  }

  /** Every state a level can reach from birth satisfies the invariant; in particular its count never passes two. */
  lemma {:induction false} ReachableInv(b: Band, events: seq<Event>, s: State)
    requires Inv(s)
    ensures Inv(Fold(b, events, s))
  {
    if events != [] {
      StepKeepsInv(b, s, events[0]);
      ReachableInv(b, events[1..], Step(b, s, events[0]));
    }
  }
}
