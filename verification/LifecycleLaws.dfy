/** What the lifecycle fold says of a sequence of closes, in prices: breaks, retests, turns, and the score of each encounter. */
module LifecycleLaws {
  import opened Lifecycle

  // ---------- The laws are stated for a level that supports; a resistance is its mirror image ----------

  function MirrorBand(b: Band): Band {
    Band(-b.upper, -b.lower, b.tick)
  }

  function MirrorEvent(e: Event): Event {
    e.(price := -e.price)
  }

  function MirrorState(s: State): State {
    s.(role := -s.role, score := s.score.(side := -s.score.side))
  }

  function MirrorAll(events: seq<Event>): (r: seq<Event>)
    ensures |r| == |events| && forall i :: 0 <= i < |r| ==> r[i] == MirrorEvent(events[i])
  {
    seq(|events|, i requires 0 <= i < |events| => MirrorEvent(events[i]))
  }

  lemma MirrorStep(b: Band, s: State, e: Event)
    requires Inv(s)
    ensures Step(MirrorBand(b), MirrorState(s), MirrorEvent(e)) == MirrorState(Step(b, s, e))
  {
  }

  /** Turning prices, band and role upside down turns the result upside down and changes nothing else. */
  lemma {:induction false} MirrorFold(b: Band, events: seq<Event>, s: State)
    requires Inv(s)
    ensures Fold(MirrorBand(b), MirrorAll(events), MirrorState(s)) == MirrorState(Fold(b, events, s))
    decreases |events|
  {
    if events != [] {
      MirrorStep(b, s, events[0]);
      StepKeepsInv(b, s, events[0]);
      MirrorFold(b, events[1..], Step(b, s, events[0]));
      assert MirrorAll(events)[1..] == MirrorAll(events[1..]);
    }
  }

  // ---------- Prices ----------

  /** A close below the band by more than a tick and by more than a quarter of the range. */
  predicate Through(b: Band, e: Event) {
    e.price + b.tick < b.lower && e.price + e.range / 4.0 < b.lower
  }

  predicate Inside(b: Band, e: Event) {
    e.price >= b.lower && e.price <= b.upper
  }

  predicate Under(b: Band, e: Event) {
    e.price + b.tick < b.lower
  }

  predicate Over(b: Band, e: Event) {
    e.price - b.tick > b.upper
  }

  /** Never two closes in a row through the band. */
  predicate NoPair(b: Band, events: seq<Event>) {
    forall k :: 0 < k < |events| ==> !(Through(b, events[k - 1]) && Through(b, events[k]))
  }

  predicate NoneInside(b: Band, events: seq<Event>) {
    forall k :: 0 <= k < |events| ==> !Inside(b, events[k])
  }

  predicate Undecided(b: Band, events: seq<Event>) {
    forall k :: 0 <= k < |events| ==> !Under(b, events[k]) && !Over(b, events[k])
  }

  // ---------- Prefixes ----------

  lemma FoldSnoc(b: Band, events: seq<Event>, e: Event, s: State)
    ensures Fold(b, events + [e], s) == Step(b, Fold(b, events, s), e)
  {
    FoldConcat(b, events, [e], s);
    assert Fold(b, [e], Fold(b, events, s)) == Fold(b, [e][1..], Step(b, Fold(b, events, s), e));
  }

  lemma FoldFront(b: Band, events: seq<Event>, s: State)
    requires events != []
    ensures Fold(b, events, s) == Step(b, Fold(b, events[..|events| - 1], s), events[|events| - 1])
    ensures events == events[..|events| - 1] + [events[|events| - 1]]
  {
    assert events == events[..|events| - 1] + [events[|events| - 1]];
    FoldSnoc(b, events[..|events| - 1], events[|events| - 1], s);
  }

  /** Every prefix leaves the level in one of these phases. */
  ghost predicate AllPhases(b: Band, events: seq<Event>, s: State, low: nat, high: nat) {
    forall k: nat :: k <= |events| ==> PhaseAt(b, events, s, k, low, high)
  }

  predicate PhaseAt(b: Band, events: seq<Event>, s: State, k: nat, low: nat, high: nat)
    requires k <= |events|
  {
    low <= Fold(b, events[..k], s).phase <= high
  }

  lemma AllPhasesFront(b: Band, events: seq<Event>, s: State, low: nat, high: nat)
    requires events != []
    ensures AllPhases(b, events, s, low, high)
      <==> AllPhases(b, events[..|events| - 1], s, low, high) && low <= Fold(b, events, s).phase <= high
  {
    hide Fold;
    var n := |events| - 1;
    forall k: nat | k <= n ensures PhaseAt(b, events[..n], s, k, low, high) == PhaseAt(b, events, s, k, low, high) {
      assert events[..n][..k] == events[..k];
    }
    assert PhaseAt(b, events, s, n + 1, low, high) <==> low <= Fold(b, events, s).phase <= high by {
      assert events[..n + 1] == events;
    }
    hide PhaseAt;
    assert AllPhases(b, events, s, low, high) ==> PhaseAt(b, events, s, n + 1, low, high);
  }

  // ---------- An active level ----------

  lemma ActiveStep(b: Band, s: State, e: Event)
    requires b.Valid() && Inv(s) && s.role == 1 && s.phase <= 1
    ensures var t := Step(b, s, e);
      && t.role == 1 && t.confirmed == s.confirmed
      && t.phase == if Through(b, e) then s.phase + 1 else 0
  {
  }

  /** Until two closes in a row are through it an active level stays active and keeps its role; it is crossed while just the
      last close is through. */
  lemma {:induction false} StaysActive(b: Band, events: seq<Event>, s: State)
    requires b.Valid() && Inv(s) && s.role == 1 && s.phase == 0 && NoPair(b, events)
    ensures var t := Fold(b, events, s);
      && Inv(t) && t.role == 1 && t.confirmed == s.confirmed
      && t.phase == if events != [] && Through(b, events[|events| - 1]) then 1 else 0
    decreases |events|
  {
    ReachableInv(b, events, s);
    if events != [] {
      var n := |events| - 1;
      var head := events[..n];
      StaysActive(b, head, s);
      FoldFront(b, events, s);
      assert n > 0 ==> head[n - 1] == events[n - 1];
      ActiveStep(b, Fold(b, head, s), events[n]);
    }
  }

  /** It is broken exactly by the second of two closes in a row through it. */
  lemma {:induction false} BrokenIff(b: Band, events: seq<Event>, s: State)
    requires b.Valid() && Inv(s) && s.role == 1 && s.phase == 0
    ensures AllPhases(b, events, s, 0, 1) <==> NoPair(b, events)
    ensures events != [] && NoPair(b, events[..|events| - 1]) && !NoPair(b, events) ==>
      var t := Fold(b, events, s); t.phase == 2 && t.role == 1 && t.confirmed == s.confirmed
    decreases |events|
  {
    if events != [] {
      var n := |events| - 1;
      var head := events[..n];
      BrokenIff(b, head, s);
      AllPhasesFront(b, events, s, 0, 1);
      PairsFront(b, events);
      if NoPair(b, head) {
        StaysActive(b, head, s);
        FoldFront(b, events, s);
        ActiveStep(b, Fold(b, head, s), events[n]);
      }
    }
  }

  lemma PairsFront(b: Band, events: seq<Event>)
    requires events != []
    ensures var n := |events| - 1;
      NoPair(b, events) <==> NoPair(b, events[..n]) && !(n > 0 && Through(b, events[n - 1]) && Through(b, events[n]))
    ensures |events| > 1 ==> events[..|events| - 1][|events| - 2] == events[|events| - 2]
  {
  }

  // ---------- A broken level ----------

  lemma NothingHappens(b: Band, s: State)
    ensures Fold(b, [], s) == s && (forall low: nat, high: nat :: AllPhases(b, [], s, low, high) <==> low <= s.phase <= high)
  {
    var none: seq<Event> := [];
    assert none[..0] == none;
    forall low: nat, high: nat ensures AllPhases(b, none, s, low, high) <==> low <= s.phase <= high {
      assert PhaseAt(b, none, s, 0, low, high) <==> low <= s.phase <= high;
    }
  }

  lemma BrokenStep(b: Band, s: State, e: Event)
    requires s.phase == 2
    ensures var t := Step(b, s, e);
      t.phase == (if Inside(b, e) then 3 else 2) && t.role == s.role && t.confirmed == s.confirmed
  {
  }

  lemma RetestStep(b: Band, s: State, e: Event)
    requires b.Valid() && s.role == 1 && s.phase == 3
    ensures var t := Step(b, s, e);
      && t.phase == (if Under(b, e) || Over(b, e) then 0 else 3)
      && t.role == (if Under(b, e) then -1 else 1) && t.confirmed == if Under(b, e) then e.at else s.confirmed
  {
  }

  /** A broken level waits, its role unchanged, exactly until the first close back inside the band, which opens a retest. */
  lemma {:induction false} RetestIff(b: Band, events: seq<Event>, s: State)
    requires Inv(s) && s.phase == 2
    ensures AllPhases(b, events, s, 2, 2) <==> NoneInside(b, events)
    ensures NoneInside(b, events) ==>
      var t := Fold(b, events, s); t.phase == 2 && t.role == s.role && t.confirmed == s.confirmed
    ensures events != [] && NoneInside(b, events[..|events| - 1]) && Inside(b, events[|events| - 1]) ==>
      var t := Fold(b, events, s); t.phase == 3 && t.role == s.role && t.confirmed == s.confirmed
    decreases |events|
  {
    hide Fold;
    if events == [] {
      NothingHappens(b, s);
    } else {
      var n := |events| - 1;
      RetestIff(b, events[..n], s);
      AllPhasesFront(b, events, s, 2, 2);
      FoldFront(b, events, s);
      if NoneInside(b, events[..n]) {
        BrokenStep(b, Fold(b, events[..n], s), events[n]);
      }
      assert NoneInside(b, events) <==> NoneInside(b, events[..n]) && !Inside(b, events[n]) by {
        assert events == events[..n] + [events[n]];
      }
    }
  }

  // ---------- A level in retest ----------

  /** A retest lasts exactly until the first close a tick outside the band. Below, the level turns and that is when it was
      confirmed; above, it is active again as it was. */
  lemma {:induction false} RetestEndsIff(b: Band, events: seq<Event>, s: State)
    requires b.Valid() && Inv(s) && s.role == 1 && s.phase == 3
    ensures AllPhases(b, events, s, 3, 3) <==> Undecided(b, events)
    ensures Undecided(b, events) ==>
      var t := Fold(b, events, s); t.phase == 3 && t.role == 1 && t.confirmed == s.confirmed
    ensures events != [] && Undecided(b, events[..|events| - 1]) ==>
      var t, e := Fold(b, events, s), events[|events| - 1];
      && (Under(b, e) ==> t.phase == 0 && t.role == -1 && t.confirmed == e.at)
      && (Over(b, e) ==> t.phase == 0 && t.role == 1 && t.confirmed == s.confirmed)
    decreases |events|
  {
    hide Fold;
    if events == [] {
      NothingHappens(b, s);
    } else {
      var n := |events| - 1;
      RetestEndsIff(b, events[..n], s);
      AllPhasesFront(b, events, s, 3, 3);
      FoldFront(b, events, s);
      if Undecided(b, events[..n]) {
        RetestStep(b, Fold(b, events[..n], s), events[n]);
      }
      assert Undecided(b, events) <==> Undecided(b, events[..n]) && !Under(b, events[n]) && !Over(b, events[n]) by {
        assert events == events[..n] + [events[n]];
      }
    }
  }

  // ---------- Turns ----------

  /** The role turns at an observation. */
  predicate Turns(b: Band, events: seq<Event>, s: State, k: nat)
    requires k < |events|
  {
    Fold(b, events[..k + 1], s).role != Fold(b, events[..k], s).role
  }

  /** A supporting level turns at an observation exactly when it is in retest and closes a tick below the band. */
  lemma TurnsIff(b: Band, events: seq<Event>, s: State, k: nat)
    requires b.Valid() && Inv(s) && k < |events| && Fold(b, events[..k], s).role == 1
    ensures Turns(b, events, s, k) <==> Fold(b, events[..k], s).phase == 3 && Under(b, events[k])
  {
    assert events[..k + 1] == events[..k] + [events[k]];
    FoldSnoc(b, events[..k], events[k], s);
  }

  predicate IsLastTurn(b: Band, events: seq<Event>, s: State, k: nat) {
    k < |events| && Turns(b, events, s, k) && forall j :: k < j < |events| ==> !Turns(b, events, s, j)
  }

  /** A level was confirmed at its last turn, or when it was born if it never turned. */
  lemma {:induction false} ConfirmedIsLastTurn(b: Band, events: seq<Event>, s: State)
    requires Inv(s)
    ensures var t := Fold(b, events, s).confirmed;
      && (forall k: nat :: IsLastTurn(b, events, s, k) ==> t == events[k].at)
      && ((forall k :: 0 <= k < |events| ==> !Turns(b, events, s, k)) ==> t == s.confirmed)
    decreases |events|
  {
    if events != [] {
      var n := |events| - 1;
      var head := events[..n];
      ConfirmedIsLastTurn(b, head, s);
      FoldFront(b, events, s);
      assert events[..n + 1] == events;
      forall k | 0 <= k < n ensures Turns(b, head, s, k) == Turns(b, events, s, k) {
        assert head[..k] == events[..k] && head[..k + 1] == events[..k + 1];
      }
      ReachableInv(b, head, s);
      if !Turns(b, events, s, n) {
        forall k: nat | IsLastTurn(b, events, s, k) ensures IsLastTurn(b, head, s, k) {
        }
      }
    }
  }

  // ---------- The score of an encounter ----------

  /** An active supporting level without an open encounter. */
  predicate Idle(s: State) {
    Inv(s) && s.role == 1 && s.phase == 0 && s.score.phase == 0
  }

  /** A level starts as such a one. */
  lemma BirthIsIdle(born: nat)
    ensures var s := BirthSeed(1, born);
      Idle(s) && s.confirmed == born && s.score.completed == 0.0 && s.score.encounters == 0
    ensures MirrorState(BirthSeed(1, born)) == BirthSeed(-1, born)
  {
  }

  lemma IdleStep(b: Band, s: State, e: Event)
    requires b.Valid() && Inv(s) && s.role == 1 && s.phase <= 1 && s.score.phase == 0
    requires Step(b, s, e).phase <= 1 && !(Inside(b, e) && e.range > 0.0)
    ensures Step(b, s, e).score == s.score.(side := 1)
  {
  }

  /** Nothing is scored before a close inside the band with a range to measure by. */
  lemma {:induction false} NothingScored(b: Band, events: seq<Event>, s: State)
    requires b.Valid() && Idle(s) && NoPair(b, events)
    requires forall k :: 0 <= k < |events| ==> !(Inside(b, events[k]) && events[k].range > 0.0)
    ensures Fold(b, events, s).score == if events == [] then s.score else s.score.(side := 1)
    decreases |events|
  {
    if events != [] {
      var n := |events| - 1;
      PairsFront(b, events);
      NothingScored(b, events[..n], s);
      StaysActive(b, events[..n], s);
      StaysActive(b, events, s);
      FoldFront(b, events, s);
      IdleStep(b, Fold(b, events[..n], s), events[n]);
    }
  }

  /** The encounter's best is the largest rise above the band, in units of the range frozen when it opened. */
  ghost predicate IsBest(b: Band, range: real, later: seq<Event>, best: real) {
    best >= 0.0 && RisesTo(b, later, best * range) && (best == 0.0 || Reaches(b, later, best * range))
  }

  predicate RisesTo(b: Band, later: seq<Event>, top: real) {
    forall k :: 0 <= k < |later| ==> later[k].price - b.upper <= top
  }

  predicate Reaches(b: Band, later: seq<Event>, top: real) {
    exists k :: 0 <= k < |later| && later[k].price - b.upper == top
  }

  /** No close comes back inside the band after one that rose a full range above it. */
  predicate NoReturn(b: Band, range: real, later: seq<Event>) {
    forall j, k :: 0 <= j < k < |later| && Inside(b, later[k]) ==> later[j].price - b.upper < range
  }

  lemma OpenStep(b: Band, s: State, e: Event)
    requires b.Valid() && Inv(s) && s.role == 1 && s.phase <= 1 && s.score.phase == 0
    requires Inside(b, e) && e.range > 0.0
    ensures Step(b, s, e).score == Score(s.score.completed, 0.0, e.range, 1, 1, s.score.encounters)
  {
  }

  lemma InEncounterStep(b: Band, s: State, e: Event)
    requires b.Valid() && Inv(s) && s.role == 1 && s.phase <= 1 && s.score.phase != 0 && s.score.side == 1
    requires Step(b, s, e).phase <= 1 && (Inside(b, e) ==> s.score.phase == 1)
    ensures var a, t := s.score, Step(b, s, e).score;
      && t.completed == a.completed && t.range == a.range && t.side == 1 && t.encounters == a.encounters
      && t.best >= a.best && e.price - b.upper <= t.best * a.range
      && (t.best == a.best || e.price - b.upper == t.best * a.range)
      && t.phase == if t.best >= 1.0 then 2 else 1
  {
    var rise, best := Excursion(b, 1, e), Step(b, s, e).score.best;
    RatioTimes(rise, s.score.range);
    Larger(rise / s.score.range, best, s.score.range);
  }

  lemma RatioTimes(x: real, y: real)
    requires y > 0.0
    ensures x / y * y == x && (x >= 0.0 ==> x / y >= 0.0)
  {
  }

  lemma Larger(x: real, y: real, r: real)
    requires x <= y && r >= 0.0
    ensures x * r <= y * r
  {
    assert (y - x) * r >= 0.0;
  }

  lemma LessThanOne(best: real, range: real)
    requires range > 0.0 && best * range < range
    ensures best < 1.0
  {
    assert (1.0 - best) * range > 0.0;
  }

  /** From its first measurable close inside the band to the return or the break that ends it, an encounter holds the range
      it opened with and the best rise so far; it has departed once that rise is a full range. */
  lemma {:induction false} EncounterIs(b: Band, opening: Event, later: seq<Event>, s: State)
    requires b.Valid() && Idle(s) && Inside(b, opening) && opening.range > 0.0
    requires NoPair(b, later) && NoReturn(b, opening.range, later)
    ensures var t := Fold(b, [opening] + later, s).score;
      && t.completed == s.score.completed && t.encounters == s.score.encounters && t.range == opening.range && t.side == 1
      && IsBest(b, opening.range, later, t.best) && t.phase == if t.best >= 1.0 then 2 else 1
    decreases |later|
  {
    hide Fold, IsBest, NoReturn, NoPair;
    var all := [opening] + later;
    FoldFront(b, all, s);
    if later == [] {
      assert all == [opening] && all[..0] == [];
      NothingHappens(b, s);
      OpenStep(b, s, opening);
      NoBestYet(b, opening.range);
    } else {
      var n := |later| - 1;
      var head, e := later[..n], later[n];
      PairsFront(b, later);
      ReturnsFront(b, opening.range, later);
      EncounterIs(b, opening, head, s);
      assert all[..|all| - 1] == [opening] + head;
      OpeningPairs(b, opening, later);
      OpeningPairs(b, opening, head);
      StaysActive(b, [opening] + head, s);
      StaysActive(b, all, s);
      var u := Fold(b, [opening] + head, s);
      if Inside(b, e) {
        NotDeparted(b, opening.range, head, u.score.best, later);
      }
      InEncounterStep(b, u, e);
      BestGrows(b, opening.range, head, e, u.score.best, Fold(b, all, s).score.best);
      assert head + [e] == later;
    }
  }

  lemma NoBestYet(b: Band, range: real)
    ensures IsBest(b, range, [], 0.0)
  {
  }

  lemma ReturnsFront(b: Band, range: real, later: seq<Event>)
    requires later != [] && NoReturn(b, range, later)
    ensures NoReturn(b, range, later[..|later| - 1])
  {
  }

  lemma OpeningPairs(b: Band, opening: Event, later: seq<Event>)
    requires b.Valid() && Inside(b, opening) && NoPair(b, later)
    ensures NoPair(b, [opening] + later)
  {
    var all := [opening] + later;
    forall k | 0 < k < |all| ensures !(Through(b, all[k - 1]) && Through(b, all[k])) {
      assert all[k] == later[k - 1] && (k > 1 ==> all[k - 1] == later[k - 2]);
    }
  }

  lemma NotDeparted(b: Band, range: real, head: seq<Event>, best: real, later: seq<Event>)
    requires range > 0.0 && IsBest(b, range, head, best) && |later| == |head| + 1 && later[..|head|] == head
    requires NoReturn(b, range, later) && Inside(b, later[|head|])
    ensures best < 1.0
  {
    if best != 0.0 {
      Below(b, range, head, best * range, later);
      LessThanOne(best, range);
    }
  }

  lemma Below(b: Band, range: real, head: seq<Event>, top: real, later: seq<Event>)
    requires Reaches(b, head, top) && |later| == |head| + 1 && later[..|head|] == head
    requires NoReturn(b, range, later) && Inside(b, later[|head|])
    ensures top < range
  {
    var k :| 0 <= k < |head| && head[k].price - b.upper == top;
    assert later[k] == head[k];
    assert later[k].price - b.upper < range;
  }

  lemma TopGrows(b: Band, head: seq<Event>, e: Event, before: real, after: real)
    requires RisesTo(b, head, before) && before <= after && e.price - b.upper <= after
    ensures RisesTo(b, head + [e], after)
    ensures Reaches(b, head, after) || e.price - b.upper == after ==> Reaches(b, head + [e], after)
  {
    var later := head + [e];
    assert later[|head|] == e;
    if Reaches(b, head, after) {
      var k :| 0 <= k < |head| && head[k].price - b.upper == after;
      assert later[k] == head[k];
    }
  }

  lemma BestGrows(b: Band, range: real, head: seq<Event>, e: Event, before: real, after: real)
    requires range > 0.0 && IsBest(b, range, head, before) && after >= before && e.price - b.upper <= after * range
    requires after == before || e.price - b.upper == after * range
    ensures IsBest(b, range, head + [e], after)
  {
    Larger(before, after, range);
    TopGrows(b, head, e, before * range, after * range);
  }

  /** A departed encounter is completed with its best by the next close inside the band, which opens another when it can be
      measured. */
  lemma EncounterReturns(b: Band, s: State, e: Event)
    requires b.Valid() && Inv(s) && s.role == 1 && s.phase <= 1 && s.score.phase == 2 && s.score.side == 1 && Inside(b, e)
    ensures var a := s.score;
      Fold(b, [e], s).score == Score(a.completed + a.best, 0.0, if e.range > 0.0 then e.range else 0.0,
                                   if e.range > 0.0 then 1 else 0, 1, a.encounters + 1)
  {
    FoldFront(b, [e], s);
  }

  /** A break completes whatever encounter is open with its best. */
  lemma EncounterBroken(b: Band, s: State, e: Event)
    requires b.Valid() && Inv(s) && s.role == 1 && s.phase == 1 && s.score.side == 1 && Through(b, e)
    ensures var a := s.score;
      Fold(b, [e], s).score
        == Score(a.completed + a.best, 0.0, 0.0, 0, 1, a.encounters + if a.phase == 0 then 0 else 1)
  {
    FoldFront(b, [e], s);
  }

  /** While broken and in retest, and when it becomes active again, nothing is scored; a turn changes only the scored side. */
  lemma {:induction false} NothingScoredAway(b: Band, events: seq<Event>, s: State)
    requires b.Valid() && Inv(s) && s.role == 1 && s.phase >= 2 && s.score.phase == 0 && s.score.side == 1
    requires events != [] && AllPhases(b, events[..|events| - 1], s, 2, 3)
    ensures var t := Fold(b, events, s);
      t.score == s.score.(side := t.role, range := if t.role == 1 then s.score.range else 0.0)
    decreases |events|
  {
    hide Fold;
    var n := |events| - 1;
    var head := events[..n];
    FoldFront(b, events, s);
    if head == [] {
      NothingHappens(b, s);
    } else {
      AllPhasesFront(b, head, s, 2, 3);
      NothingScoredAway(b, head, s);
      NoTurnAway(b, head, s);
    }
    ReachableInv(b, head, s);
    assert head[..n] == head;
    assert PhaseAt(b, head, s, n, 2, 3);
    AwayStep(b, Fold(b, head, s), events[n]);
  }

  lemma AwayStep(b: Band, s: State, e: Event)
    requires b.Valid() && Inv(s) && s.role == 1 && 2 <= s.phase <= 3 && s.score.phase == 0 && s.score.side == 1
    ensures var t := Step(b, s, e);
      t.score == s.score.(side := t.role, range := if t.role == 1 then s.score.range else 0.0)
  {
  }

  lemma {:induction false} NoTurnAway(b: Band, events: seq<Event>, s: State)
    requires Inv(s) && s.phase >= 2 && AllPhases(b, events, s, 2, 3)
    ensures Fold(b, events, s).role == s.role
    decreases |events|
  {
    if events != [] {
      hide Fold;
      var n := |events| - 1;
      AllPhasesFront(b, events, s, 2, 3);
      NoTurnAway(b, events[..n], s);
      FoldFront(b, events, s);
      ReachableInv(b, events[..n], s);
      assert events[..n][..n] == events[..n];
      assert PhaseAt(b, events[..n], s, n, 2, 3);
    }
  }
}
