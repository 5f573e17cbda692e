/** The paired cohort: chosen by baseline occupancy alone, replayed with the stalled exit. */
module PairedCohort {
  import opened ReplayModel
  import opened BaselineOutcome
  import opened AdaptiveExit

  datatype Pair = Pair(at: real, baseline: Outcome, experimental: Outcome)

  function CaseOf(p: Policy, timing: Timing, s: Sample, rows: seq<Row>, quotes: seq<Quote>): Case {
    Case(p, timing, s.Plan(), rows, quotes, s.outcome)
  }

  ghost predicate Inputs(p: Policy, rows: seq<Row>, quotes: seq<Quote>) {
    p.Valid() && QuotesOrdered(quotes) && RowsOrdered(rows)
  }

  function PairOf(p: Policy, timing: Timing, s: Sample, rows: seq<Row>, quotes: seq<Quote>): Pair
    requires Inputs(p, rows, quotes) && s.outcome == Settle(p, s.Plan(), quotes) && s.outcome.Resolved?
  {
    Pair(s.at, s.outcome, Experimental(CaseOf(p, timing, s, rows, quotes)).outcome)
  }

  /** One pair for each taken and resolved opportunity. */
  function Pairs(p: Policy, timing: Timing, samples: seq<Sample>, rows: seq<Row>, quotes: seq<Quote>): seq<Pair>
    requires Inputs(p, rows, quotes) && Settled(p, samples, quotes)
  {
    if samples == [] then []
    else
      var n := |samples| - 1;
      Pairs(p, timing, samples[..n], rows, quotes)
      + if Taken(p, samples, n) && samples[n].outcome.Resolved? then [PairOf(p, timing, samples[n], rows, quotes)] else []
  }

  ghost predicate PairedAt(p: Policy, timing: Timing, samples: seq<Sample>, rows: seq<Row>, quotes: seq<Quote>, pairs: seq<Pair>,
                           at: seq<nat>)
    requires Inputs(p, rows, quotes) && Settled(p, samples, quotes)
  {
    && |pairs| == |at|
    && (forall i :: 0 <= i < |at| ==> TakenResolved(p, samples, at[i]) && Pairing(p, timing, samples[at[i]], rows, quotes, pairs[i]))
    && (forall i, j :: 0 <= i < j < |at| ==> at[i] < at[j])
    && (forall n: nat :: TakenResolved(p, samples, n) <==> n in at)
  }

  /** A pair is the baseline's outcome of an opportunity and what watching its own quotes from its entry for the stalled exit
      gives in its place. */
  ghost predicate Pairing(p: Policy, timing: Timing, s: Sample, rows: seq<Row>, quotes: seq<Quote>, pair: Pair)
    requires Inputs(p, rows, quotes) && s.outcome == Settle(p, s.Plan(), quotes) && s.outcome.Resolved?
  {
    var c := Case(p, timing, Setup(s.at, s.stop, s.target), rows, quotes, s.outcome);
    pair.at == s.at && pair.baseline == s.outcome && pair.experimental == Experimental(c).outcome
  }

  predicate PairOk(pair: Pair, free: real) {
    && pair.baseline.Resolved? && pair.experimental.Resolved?
    && pair.at <= pair.baseline.entryAt == pair.experimental.entryAt
    && pair.experimental.entryAt <= pair.experimental.exitAt <= pair.baseline.exitAt <= free
  }

  predicate Apart(pairs: seq<Pair>, free: real) {
    && (forall i :: 0 <= i < |pairs| ==> PairOk(pairs[i], free))
    && (forall i, j :: 0 <= i < j < |pairs| ==> pairs[i].baseline.exitAt < pairs[j].at)
  }

  lemma PairIsOk(p: Policy, timing: Timing, s: Sample, rows: seq<Row>, quotes: seq<Quote>)
    requires Inputs(p, rows, quotes) && s.outcome == Settle(p, s.Plan(), quotes) && s.outcome.Resolved?
    ensures PairOk(PairOf(p, timing, s, rows, quotes), s.outcome.exitAt)
    ensures s.at <= s.outcome.entryAt
  {
    hide Settle, Experimental;
    PairedExit(CaseOf(p, timing, s, rows, quotes));
    SettleTimes(p, s.Plan(), quotes);
  }

  lemma LastPair(p: Policy, timing: Timing, samples: seq<Sample>, rows: seq<Row>, quotes: seq<Quote>)
    requires Inputs(p, rows, quotes) && Settled(p, samples, quotes) && samples != []
    ensures var n := |samples| - 1;
      && Settled(p, samples[..n], quotes)
      && Pairs(p, timing, samples, rows, quotes)
         == Pairs(p, timing, samples[..n], rows, quotes)
            + if TakenResolved(p, samples, n) then [PairOf(p, timing, samples[n], rows, quotes)] else []
  {
    hide Settle, Experimental, Taken;
  }

  lemma PairingIs(p: Policy, timing: Timing, s: Sample, rows: seq<Row>, quotes: seq<Quote>)
    requires Inputs(p, rows, quotes) && s.outcome == Settle(p, s.Plan(), quotes) && s.outcome.Resolved?
    ensures Pairing(p, timing, s, rows, quotes, PairOf(p, timing, s, rows, quotes))
  {
    hide Settle, Experimental;
  }

  lemma PairedNext(p: Policy, timing: Timing, samples: seq<Sample>, rows: seq<Row>, quotes: seq<Quote>, early: seq<nat>)
    requires Inputs(p, rows, quotes) && Settled(p, samples, quotes) && samples != []
    requires Settled(p, samples[..|samples| - 1], quotes)
    requires PairedAt(p, timing, samples[..|samples| - 1], rows, quotes,
                      Pairs(p, timing, samples[..|samples| - 1], rows, quotes), early)
    ensures var n := |samples| - 1;
      PairedAt(p, timing, samples, rows, quotes, Pairs(p, timing, samples, rows, quotes),
               if TakenResolved(p, samples, n) then early + [n] else early)
  {
    hide Settle, Experimental, Taken, Pairs, Pairing, PairOf, Inputs;
    var n, head := |samples| - 1, samples[..|samples| - 1];
    LastPair(p, timing, samples, rows, quotes);
    var at := if TakenResolved(p, samples, n) then early + [n] else early;
    forall m: nat ensures TakenResolved(p, samples, m) <==> m in at {
      PrefixTaken(p, samples, m);
      assert m < n ==> (TakenResolved(p, head, m) <==> m in early);
      assert m >= n ==> m !in early;
    }
    if TakenResolved(p, samples, n) {
      PairingIs(p, timing, samples[n], rows, quotes);
    }
    forall i | 0 <= i < |at|
      ensures TakenResolved(p, samples, at[i])
      ensures Pairing(p, timing, samples[at[i]], rows, quotes, Pairs(p, timing, samples, rows, quotes)[i])
    {
      assert at[i] in at;
      assert i < |early| ==> TakenResolved(p, head, early[i]) && head[early[i]] == samples[early[i]];
    }
  }

  /** The pairs are those of exactly the opportunities taken and resolved, in order. */
  lemma {:induction false} PairsAre(p: Policy, timing: Timing, samples: seq<Sample>, rows: seq<Row>, quotes: seq<Quote>)
    returns (at: seq<nat>)
    requires Inputs(p, rows, quotes) && Settled(p, samples, quotes)
    ensures PairedAt(p, timing, samples, rows, quotes, Pairs(p, timing, samples, rows, quotes), at)
    decreases |samples|
  {
    at := [];
    if samples != [] {
      hide Settle, Experimental, Taken, PairedAt, Pairs, TakenResolved;
      LastPair(p, timing, samples, rows, quotes);
      var early := PairsAre(p, timing, samples[..|samples| - 1], rows, quotes);
      PairedNext(p, timing, samples, rows, quotes, early);
      at := if TakenResolved(p, samples, |samples| - 1) then early + [|samples| - 1] else early;
    }
  }

  lemma ApartGrows(pairs: seq<Pair>, free: real, pair: Pair, later: real)
    requires Apart(pairs, free) && pair.at > free && PairOk(pair, later)
    ensures Apart(pairs + [pair], later)
  {
    var longer := pairs + [pair];
    forall i | 0 <= i < |longer| ensures PairOk(longer[i], later) {
      if i < |pairs| {
        assert PairOk(pairs[i], free);
      }
    }
    forall i, j | 0 <= i < j < |longer| ensures longer[i].baseline.exitAt < longer[j].at {
      assert PairOk(pairs[i], free);
    }
  }

  lemma FreeStep(p: Policy, samples: seq<Sample>, quotes: seq<Quote>)
    requires p.Valid() && QuotesOrdered(quotes) && Settled(p, samples, quotes) && samples != []
    ensures var n := |samples| - 1;
      && Free(p, samples) == (if Taken(p, samples, n) then BusyUntil(p, samples[n]) else Free(p, samples[..n]))
      && Free(p, samples[..n]) <= Free(p, samples)
  {
    hide Settle;
    FreeGrows(p, samples, quotes, |samples| - 1);
  }

  lemma ApartLater(pairs: seq<Pair>, free: real, later: real)
    requires Apart(pairs, free) && free <= later
    ensures Apart(pairs, later)
  {
    forall i | 0 <= i < |pairs| ensures PairOk(pairs[i], later) {
      assert PairOk(pairs[i], free);
    }
  }

  /** Neither the baseline trades nor the experimental ones overlap, and the family is still busy until the last exit. */
  lemma {:induction false} PairsAreApart(p: Policy, timing: Timing, samples: seq<Sample>, rows: seq<Row>, quotes: seq<Quote>)
    requires Inputs(p, rows, quotes) && Settled(p, samples, quotes)
    ensures Apart(Pairs(p, timing, samples, rows, quotes), Free(p, samples))
    decreases |samples|
  {
    if samples != [] {
      hide Settle, Experimental, Apart, PairOk, BusyUntil;
      var n := |samples| - 1;
      var s, before := samples[n], Free(p, samples[..n]);
      PairsAreApart(p, timing, samples[..n], rows, quotes);
      FreeStep(p, samples, quotes);
      if Taken(p, samples, n) && s.outcome.Resolved? {
        PairIsOk(p, timing, s, rows, quotes);
        ResolvedBusy(p, s);
        ApartGrows(Pairs(p, timing, samples[..n], rows, quotes), before, PairOf(p, timing, s, rows, quotes), s.outcome.exitAt);
      } else {
        ApartLater(Pairs(p, timing, samples[..n], rows, quotes), before, Free(p, samples));
      }
    }
  }

  lemma ResolvedBusy(p: Policy, s: Sample)
    requires s.outcome.Resolved?
    ensures BusyUntil(p, s) == s.outcome.exitAt
  {
  }

  /** Any two paired experimental trades: the earlier one is out, and its baseline too, before the later one fills. */
  lemma ExperimentalTradesNeverOverlap(p: Policy, timing: Timing, samples: seq<Sample>, rows: seq<Row>, quotes: seq<Quote>,
                                       i: nat, j: nat)
    requires Inputs(p, rows, quotes) && Settled(p, samples, quotes)
    requires i < j < |Pairs(p, timing, samples, rows, quotes)|
    ensures var a, b := Pairs(p, timing, samples, rows, quotes)[i], Pairs(p, timing, samples, rows, quotes)[j];
      && a.experimental.Resolved? && a.baseline.Resolved? && b.experimental.Resolved? && b.baseline.Resolved?
      && a.experimental.entryAt <= a.experimental.exitAt <= a.baseline.exitAt
      && a.baseline.exitAt < b.experimental.entryAt == b.baseline.entryAt
  {
    hide Settle, Experimental, Pairs;
    PairsAreApart(p, timing, samples, rows, quotes);
    var pairs := Pairs(p, timing, samples, rows, quotes);
    assert PairOk(pairs[i], Free(p, samples)) && PairOk(pairs[j], Free(p, samples));
  }

  lemma SampleSettles(p: Policy, rows: seq<Row>, quotes: seq<Quote>, s: Sample)
    requires p.Valid() && QuotesOrdered(quotes) && Divisible(quotes)
    requires FromCandidate(p, rows, quotes, s)
    ensures s.outcome == Settle(p, s.Plan(), quotes)
  {
    hide Settle, Obstacles, CandidatesAt, TargetFor;
    var k: nat, c: nat :| Sampled(p, rows, quotes, s, k, c);
  }

  /** A study's outcomes are those its own quotes settle, family by family. */
  lemma {:induction false} StudySettles(p: Policy, rows: seq<Row>, quotes: seq<Quote>, samples: seq<Sample>, family: Family)
    requires p.Valid() && QuotesOrdered(quotes) && Divisible(quotes)
    requires AllSampled(p, rows, quotes, samples)
    ensures Settled(p, OfFamily(samples, family), quotes)
    ensures forall s :: s in OfFamily(samples, family) ==> s.family == family
    decreases |samples|
  {
    hide Settle, FromCandidate;
    if samples != [] {
      SampleSettles(p, rows, quotes, samples[0]);
      StudySettles(p, rows, quotes, samples[1..], family);
    }
  }

  /** Walks the family's opportunities, keeping it busy by baseline outcomes alone, and pairs each taken one. */
  method Analyze(p: Policy, timing: Timing, samples: seq<Sample>, rows: seq<Row>, quotes: seq<Quote>)
    returns (paired: seq<Pair>)
    requires Inputs(p, rows, quotes) && Settled(p, OfFamily(samples, AcceptedFamily), quotes)
    ensures paired == Pairs(p, timing, OfFamily(samples, AcceptedFamily), rows, quotes)
  {
    hide Settle, OfFamily, Experimental, Free;
    var selected := OfFamily(samples, AcceptedFamily);
    paired := [];
    var available := 0.0;
    Unselected(p, selected);
    var n := 0;
    while n < |selected|
      invariant 0 <= n <= |selected| && available == Free(p, selected[..n])
      invariant paired == Pairs(p, timing, selected[..n], rows, quotes)
    {
      var s := selected[n];
      NextOpportunity(p, selected, n);
      assert selected[..n + 1][..n] == selected[..n];
      if s.blocked == [] && s.at > available {
        match s.outcome
        case Censored(_, reservedUntil) =>
          available := reservedUntil;
        case Resolved(_, _, exitAt, _, _, _) =>
          available := exitAt;
          var experiment := AdaptiveExit.Run(CaseOf(p, timing, s, rows, quotes));
          paired := paired + [Pair(s.at, s.outcome, experiment.outcome)];
        case _ =>
          available := s.at + p.quoteAge;
      }
      n := n + 1;
    }
    assert selected[..n] == selected;
  }
}
