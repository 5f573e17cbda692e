/** What the paired experiment does, told from its quotes and candles alone. */
module AdaptiveLaws {
  import opened Common
  import opened ReplayModel
  import opened BaselineOutcome
  import opened AdaptiveExit

  // ---------- The stalled quote and the quote its exit fills at ----------

  /** The first stalled quote since the entry, met before any quote reached stop or target. */
  ghost predicate Stalls(c: Case, i: nat, s: nat)
    requires c.Valid() && c.First() == i
  {
    && i <= s < |c.quotes| && c.quotes[s].at <= c.plan.at + c.p.horizon
    && Stalled(c, s) && (forall j :: i <= j < s ==> !Stalled(c, j))
    && forall k: nat :: k <= s ==> !Reached(c.p, c.plan, c.quotes, i, k)
  }

  /** The first quote a latency after it, still before any that reached stop or target. */
  ghost predicate Fills(c: Case, i: nat, s: nat, x: nat)
    requires c.Valid() && c.First() == i
  {
    && Stalls(c, i, s) && s < x < |c.quotes| && c.quotes[x].at <= c.plan.at + c.p.horizon
    && c.quotes[s].at + c.p.latency <= c.quotes[x].at && (forall j :: s < j < x ==> c.quotes[j].at < c.quotes[s].at + c.p.latency)
    && forall k: nat :: k <= x ==> !Reached(c.p, c.plan, c.quotes, i, k)
  }

  /** The hit is the first quote that reaches stop or target, and stands at the horizon when none does. */
  lemma HitMeans(c: Case, i: nat)
    requires c.Valid() && IsEntry(c.p, c.plan, c.quotes, i)
    ensures c.First() == i < c.Last() <= |c.quotes|
    ensures var hit := FirstHit(c.plan, c.quotes, i, c.Last());
      forall k: nat :: i <= k < |c.quotes| ==>
        (k < hit <==> c.quotes[k].at <= c.plan.at + c.p.horizon && forall j: nat :: j <= k ==> !Reached(c.p, c.plan, c.quotes, i, j))
  {
    hide Settle, Stalled, Case.First, FirstHit;
    SameEntry(c);
    EntryIs(c.p, c.plan, c.quotes, i);
    HitIsReached(c.p, c.plan, c.quotes, i);
  }

  lemma StallsIff(c: Case, i: nat, s: nat)
    requires c.Valid() && IsEntry(c.p, c.plan, c.quotes, i)
    ensures c.First() == i < c.Last() <= |c.quotes|
    ensures var hit := FirstHit(c.plan, c.quotes, i, c.Last());
      Stalls(c, i, s) <==> s < hit && s == FirstStalled(c, i, hit)
  {
    hide Settle, Stalled, Case.First, FirstHit, FirstStalled, Reached, IsEntry;
    HitMeans(c, i);
    var hit := FirstHit(c.plan, c.quotes, i, c.Last());
    FirstStalledIs(c, i, hit);
    var first := FirstStalled(c, i, hit);
    if Stalls(c, i, s) {
      assert s < hit;
      assert first <= s;
      assert !(first < s);
    }
  }

  lemma FillsIff(c: Case, i: nat, s: nat, x: nat)
    requires c.Valid() && IsEntry(c.p, c.plan, c.quotes, i)
    ensures c.First() == i < c.Last() <= |c.quotes|
    ensures Fills(c, i, s, x) <==> Stalls(c, i, s) && x < FirstHit(c.plan, c.quotes, i, c.Last()) && x == StalledFill(c)
  {
    hide Settle, Stalled, Case.First, FirstHit, FirstStalled, Reached, IsEntry, Stalls;
    HitMeans(c, i);
    StallsIff(c, i, s);
    var hit := FirstHit(c.plan, c.quotes, i, c.Last());
    assert Stalls(c, i, s) ==> StalledFill(c) == FirstFrom(c.quotes, s + 1, hit, c.quotes[s].at + c.p.latency);
  }

  /** Left at a quote, netting the shares at its bid less slippage, less what the entry cost, less two fees. */
  predicate LeavesAt(c: Case, o: Outcome, i: nat, x: nat)
    requires c.base.Resolved? && o.Resolved? && i < |c.quotes| && x < |c.quotes|
  {
    && o.entry == c.base.entry && o.entryAt == c.quotes[i].at && o.exitAt == c.quotes[x].at
    && o.net == c.p.shares * (c.quotes[x].bid - c.quotes[x].bid * c.p.slippageBps / 10000.0)
                - c.p.fee - c.p.shares * c.base.entry - c.p.fee
  }

  ghost predicate SomeFill(c: Case, i: nat)
    requires c.Valid() && c.First() == i
  {
    exists s: nat, x: nat :: Fills(c, i, s, x)
  }

  ghost predicate LeavesAtFill(c: Case, o: Outcome, i: nat)
    requires c.Valid() && c.First() == i && o.Resolved? && i < |c.quotes|
  {
    forall s: nat, x: nat :: Fills(c, i, s, x) ==> LeavesAt(c, o, i, x)
  }

  /** The experiment leaves by a stalled exit exactly when some quote stalls and another fills, and then there. Otherwise it is
      the baseline. */
  lemma ExperimentIs(c: Case, i: nat)
    requires c.Valid() && IsEntry(c.p, c.plan, c.quotes, i)
    ensures c.First() == i && Experimental(c).outcome.Resolved?
    ensures var o := Experimental(c).outcome;
      && (o.reason == StalledFailure <==> SomeFill(c, i)) && LeavesAtFill(c, o, i)
      && (o.reason != StalledFailure ==> o == c.base)
  {
    hide Settle, Stalled, Case.First, FirstHit, FirstStalled, Reached, Stalls, Experimental, Fills;
    HitMeans(c, i);
    SameEntry(c);
    PairedExit(c);
    var hit, x := FirstHit(c.plan, c.quotes, i, c.Last()), StalledFill(c);
    if x < hit {
      var s := FirstStalled(c, i, hit);
      StallsIff(c, i, s);
      FillsIff(c, i, s, x);
      NetOf(c, x);
    }
    forall s: nat, y: nat | Fills(c, i, s, y) ensures y == x && x < hit {
      FillsIff(c, i, s, y);
    }
  }

  lemma NetOf(c: Case, x: nat)
    requires c.Valid() && x < |c.quotes|
    ensures Net(c.p, c.base.entry, c.quotes[x].bid)
      == c.p.shares * (c.quotes[x].bid - c.quotes[x].bid * c.p.slippageBps / 10000.0) - c.p.fee - c.p.shares * c.base.entry - c.p.fee
  {
    hide Settle, QuotesOrdered, RowsOrdered;
    var bid, cut := c.quotes[x].bid, c.p.slippageBps / 10000.0;
    assert bid * (1.0 - cut) == bid - bid * cut;
    assert bid * cut == bid * c.p.slippageBps / 10000.0;
  }

  // ---------- What the request records ----------

  lemma {:induction false} StaysRequested(c: Case, k: nat, r: nat)
    requires c.Valid() && c.First() <= k <= c.Last() <= |c.quotes| && r < k
    ensures Watch(c, k, Some(r)).requested == Some(r)
    decreases c.Last() - k
  {
    hide Settle, Stalled, QuotesOrdered, RowsOrdered, BisectLeft, BisectRight;
    if k < c.Last() {
      StaysRequested(c, k + 1, r);
    }
  }

  /** One exit is requested exactly when a quote stalls, and its record is that of this quote. */
  lemma TraceIs(c: Case, i: nat)
    requires c.Valid() && IsEntry(c.p, c.plan, c.quotes, i)
    ensures c.First() == i
    ensures Experimental(c).trace == [] <==> forall s: nat :: !Stalls(c, i, s)
    ensures forall s: nat :: Stalls(c, i, s) ==> Experimental(c).trace == [RequestAt(c, s)]
  {
    hide Settle, Stalled, Case.First, FirstHit, FirstStalled, Reached, IsEntry, Stalls, Watch, RequestAt, AtHit;
    HitMeans(c, i);
    WatchUntilStalled(c, i);
    var hit := FirstHit(c.plan, c.quotes, i, c.Last());
    var r := FirstStalled(c, i, hit);
    StallsIff(c, i, r);
    if r < hit {
      StaysRequested(c, r + 1, r);
    }
    forall s: nat | Stalls(c, i, s) ensures s == r && r < hit {
      StallsIff(c, i, s);
    }
  }

  /** A candle closes below the one it directly follows, both after the entry. */
  predicate Fell(c: Case, n: nat)
    requires c.base.Resolved?
  {
    && 0 < n < |c.rows| && c.rows[n - 1].at > c.base.entryAt
    && c.rows[n].bar.time == c.rows[n - 1].at && c.rows[n].bar.close < c.rows[n - 1].bar.close
  }

  predicate IsNewest(c: Case, at: real, n: nat) {
    n < |c.rows| && c.rows[n].at <= at && (n + 1 < |c.rows| ==> c.rows[n + 1].at > at)
  }

  /** Just so many candles up to this one fell, each from the one before. */
  predicate FallsEnd(c: Case, n: nat, falls: nat)
    requires c.base.Resolved?
  {
    falls <= n && (forall r: nat :: n - falls < r <= n ==> Fell(c, r)) && !Fell(c, n - falls)
  }

  ghost predicate LatestTurn(c: Case, at: real, latest: Option<real>)
    requires c.base.Resolved?
  {
    match latest
    case None => forall row :: !TurnedBack(c, at, row)
    case Some(t) => (exists row :: TurnedBack(c, at, row) && row.at == t) && forall row :: TurnedBack(c, at, row) ==> row.at <= t
  }

  /** The record names the highest bid and when it was first reached, the latest candle that turned price back, how many of the
      latest candles fell in a row, and the retrace that was asked for. */
  lemma RequestMeans(c: Case, k: nat, m: nat, n: nat)
    requires c.Valid() && c.First() <= k < |c.quotes| && IsPeak(c, k, m)
    ensures var r, q := RequestAt(c, k), c.quotes[k];
      && r.at == q.at && r.peakBid == c.quotes[m].bid && r.lastProgress == c.quotes[m].at
      && LatestTurn(c, q.at, r.rejection) && (IsNewest(c, q.at, n) ==> FallsEnd(c, n, r.falling))
      && var spreads, points := c.timing.retraceSpreads * (q.ask - q.bid), c.base.entry * c.timing.retraceBps / 10000.0;
        r.retrace >= spreads && r.retrace >= points && (r.retrace == spreads || r.retrace == points)
  {
    hide Settle, QuotesOrdered, RowsOrdered, PeakAt, IsPeak, LastRejection, FallCount, RowsBisectRight, LatestTurn, FallsEnd, IsNewest,
      BisectLeft, Case.First, Case.FirstRow;
    PeakIsFirst(c, k, m);
    RejectionMeans(c, c.quotes[k].at);
    if IsNewest(c, c.quotes[k].at, n) {
      NewestIs(c, c.quotes[k].at, n);
      FallsMean(c, c.FirstRow(), n + 1);
    }
  }

  lemma RejectionMeans(c: Case, at: real)
    requires c.Valid()
    ensures LatestTurn(c, at, LastRejection(c.rows, c.FirstRow(), RowsBisectRight(c.rows, at)))
  {
    hide Settle;
    var lo, hi := c.FirstRow(), RowsBisectRight(c.rows, at);
    LastIsLatest(c.rows, lo, hi);
    forall row | TurnedBack(c, at, row) ensures exists r :: lo <= r < hi && c.rows[r] == row && Rejects(c.rows[r]) {
      var r :| 0 <= r < |c.rows| && c.rows[r] == row;
      assert lo <= r < hi;
    }
    assert forall r: nat :: lo <= r < hi && Rejects(c.rows[r]) ==> TurnedBack(c, at, c.rows[r]);
  }

  lemma NewestIs(c: Case, at: real, n: nat)
    requires c.Valid() && IsNewest(c, at, n)
    ensures RowsBisectRight(c.rows, at) == n + 1
  {
    hide Settle;
  }

  lemma LastFell(c: Case, lo: nat, hi: nat)
    requires c.Valid() && lo == c.FirstRow() && 0 < hi <= |c.rows|
    ensures Fell(c, hi - 1) <==> hi >= lo + 2 && Falls(c.rows, hi - 1)
  {
    hide Settle;
  }

  lemma {:induction false} FallsMean(c: Case, lo: nat, hi: nat)
    requires c.Valid() && lo == c.FirstRow() && 0 < hi <= |c.rows|
    ensures FallsEnd(c, hi - 1, FallCount(c.rows, lo, hi))
    decreases hi
  {
    hide Settle, Falls, Fell, Case.FirstRow, RowsOrdered, QuotesOrdered;
    LastFell(c, lo, hi);
    if Fell(c, hi - 1) {
      FallsMean(c, lo, hi - 1);
    }
  }
}
