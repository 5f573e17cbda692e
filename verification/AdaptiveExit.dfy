/** The stalled-progress exit paired with the baseline outcome of the same entry. */
module AdaptiveExit {
  import opened Common
  import opened ReplayModel
  import opened BaselineOutcome

  datatype Timing = Timing(minimumAge: real, stall: real, rejectionAge: real, retraceSpreads: real, retraceBps: real)

  const TIMING := Timing(10.0, 5.0, 5.0, 2.0, 10.0)

  /** One resolved baseline entry with the candles and quotes around it. */
  datatype Case = Case(p: Policy, timing: Timing, plan: Setup, rows: seq<Row>, quotes: seq<Quote>, base: Outcome) {
    predicate Valid() {
      && p.Valid() && QuotesOrdered(quotes) && RowsOrdered(rows)
      && base == Settle(p, plan, quotes) && base.Resolved?
    }

    function Start(): real
      requires base.Resolved?
    {
      base.entryAt
    }

    /** The quotes watched run from the entry's own to the last one within the horizon. */
    function First(): nat
      requires base.Resolved?
    {
      BisectLeft(quotes, Start())
    }

    function Last(): nat {
      BisectRight(quotes, plan.at + p.horizon)
    }

    /** Only candles closing after the entry are evidence. */
    function FirstRow(): nat
      requires base.Resolved?
    {
      RowsBisectRight(rows, Start())
    }
  }

  /** Searching again for the time of a found quote finds the same quote. */
  lemma BisectAgain(quotes: seq<Quote>, t: real)
    requires QuotesOrdered(quotes) && BisectLeft(quotes, t) < |quotes|
    ensures BisectLeft(quotes, quotes[BisectLeft(quotes, t)].at) == BisectLeft(quotes, t)
  {
    var i := BisectLeft(quotes, t);
    var f := BisectLeft(quotes, quotes[i].at);
    assert f <= i;
    assert quotes[f].at >= quotes[i].at >= t;
  }

  /** The entry quote the pairing finds again is the one the baseline filled at. */
  lemma SameEntry(c: Case)
    requires c.Valid()
    ensures c.First() == BisectLeft(c.quotes, c.plan.at + c.p.latency)
    ensures c.First() < c.Last() <= |c.quotes| && c.quotes[c.First()].at == c.Start()
  {
    var i := BisectLeft(c.quotes, c.plan.at + c.p.latency);
    EntryIsInside(c.p, c.plan, c.quotes);
    BisectAgain(c.quotes, c.plan.at + c.p.latency);
  }

  // ---------- What the exit looks for, as of a quote ----------

  /** A rejection of an overhead band within reach of the candle. */
  predicate Rejects(row: Row) {
    exists e :: e in row.events && (e.state == Rejection || e.state == FailedBreakout)
                && e.level.lower <= row.bar.high && e.level.upper >= row.bar.close
  }

  /** A candle closes lower than the one it directly follows. */
  predicate Falls(rows: seq<Row>, r: nat)
    requires 0 < r < |rows|
  {
    rows[r - 1].at == rows[r].bar.time && rows[r].bar.close < rows[r - 1].bar.close
  }

  /** The last two candles both fall from the one before, all three after the entry. */
  predicate FallingTwice(rows: seq<Row>, lo: nat, hi: nat)
    requires hi <= |rows|
  {
    hi >= lo + 3 && Falls(rows, hi - 1) && Falls(rows, hi - 2)
  }

  predicate RecentRejection(rows: seq<Row>, lo: nat, hi: nat, at: real, age: real)
    requires hi <= |rows|
  {
    exists r :: lo <= r < hi && Rejects(rows[r]) && at - rows[r].at <= age
  }

  /** How many candles up to the last one fall in a row. */
  function FallCount(rows: seq<Row>, lo: nat, hi: nat): nat
    requires hi <= |rows|
  {
    if hi < lo + 2 || !Falls(rows, hi - 1) then 0 else 1 + FallCount(rows, lo, hi - 1)
  }

  /** The time of the last rejection among a range of candles. */
  function LastRejection(rows: seq<Row>, lo: nat, hi: nat): Option<real>
    requires hi <= |rows|
  {
    if hi <= lo then None
    else if Rejects(rows[hi - 1]) then Some(rows[hi - 1].at)
    else LastRejection(rows, lo, hi - 1)
  }

  /** The first quote with the highest bid so far. */
  function PeakAt(quotes: seq<Quote>, i: nat, k: nat): (m: nat)
    requires i <= k < |quotes|
    ensures i <= m <= k
    ensures forall x :: i <= x <= k ==> quotes[x].bid <= quotes[m].bid && (x < m ==> quotes[x].bid < quotes[m].bid)
    decreases k - i
  {
    if i == k then i
    else
      var m := PeakAt(quotes, i, k - 1);
      if quotes[k].bid > quotes[m].bid then k else m
  }

  function Retrace(c: Case, q: Quote): real
    requires c.base.Resolved?
  {
    Max(c.timing.retraceSpreads * (q.ask - q.bid), c.base.entry * c.timing.retraceBps / 10000.0)
  }

  predicate Weak(c: Case, at: real)
    requires c.Valid()
  {
    var hi := RowsBisectRight(c.rows, at);
    || RecentRejection(c.rows, c.FirstRow(), hi, at, c.timing.rejectionAge)
    || (FallingTwice(c.rows, c.FirstRow(), hi) && at - c.rows[hi - 1].at <= c.p.quoteAge)
  }

  /** Old enough, no new high for long enough, far enough below the high, and weak. */
  predicate Stalled(c: Case, k: nat)
    requires c.Valid() && c.First() <= k < |c.quotes|
  {
    var q, peak := c.quotes[k], c.quotes[PeakAt(c.quotes, c.First(), k)];
    && q.at - c.Start() >= c.timing.minimumAge
    && q.at - peak.at >= c.timing.stall
    && peak.bid - q.bid >= Retrace(c, q)
    && Weak(c, q.at)
  }

  // ---------- The same in prices and times ----------

  /** The first quote since the entry with the highest bid up to this one. */
  predicate IsPeak(c: Case, k: nat, m: nat)
    requires c.Valid() && c.First() <= k < |c.quotes|
  {
    && c.First() <= m <= k && (forall x :: c.First() <= x < m ==> c.quotes[x].bid < c.quotes[m].bid)
    && forall x :: m < x <= k ==> c.quotes[x].bid <= c.quotes[m].bid
  }

  lemma PeakIsFirst(c: Case, k: nat, m: nat)
    requires c.Valid() && c.First() <= k < |c.quotes|
    ensures IsPeak(c, k, m) <==> m == PeakAt(c.quotes, c.First(), k)
  {
    hide Settle, QuotesOrdered, RowsOrdered, BisectLeft;
    var p := PeakAt(c.quotes, c.First(), k);
    assert c.First() <= m <= k ==> c.quotes[m].bid <= c.quotes[p].bid;
  }

  /** A candle, closed after the entry and by a time, that a band overhead turned back: its event is a rejection or a failed
      breakout of a band that reaches below the candle's high and above its close. */
  predicate TurnedBack(c: Case, at: real, row: Row)
    requires c.base.Resolved?
  {
    && row in c.rows && row.at > c.base.entryAt && row.at <= at
    && exists e :: e in row.events && (e.state == Rejection || e.state == FailedBreakout)
         && e.level.lower <= row.bar.high && row.bar.close <= e.level.upper
  }

  /** Each of two candles in a row opens where the one before it closed, and closes lower. */
  predicate TwoFalls(c: Case, at: real, n: nat)
    requires c.base.Resolved?
  {
    && 2 <= n < |c.rows| && c.rows[n].at <= at && (n + 1 < |c.rows| ==> c.rows[n + 1].at > at) && c.rows[n - 2].at > c.base.entryAt
    && c.rows[n].bar.time == c.rows[n - 1].at && c.rows[n].bar.close < c.rows[n - 1].bar.close
    && c.rows[n - 1].bar.time == c.rows[n - 2].at && c.rows[n - 1].bar.close < c.rows[n - 2].bar.close
  }

  /** The structure is weak when a band turned price back lately, or the last two candles fell and are fresh. */
  lemma WeakIff(c: Case, at: real)
    requires c.Valid()
    ensures Weak(c, at) <==>
      || (exists row :: TurnedBack(c, at, row) && at - row.at <= c.timing.rejectionAge)
      || (exists n: nat :: TwoFalls(c, at, n) && at - c.rows[n].at <= c.p.quoteAge)
  {
    hide Settle, RowsBisectRight;
    var lo, hi := c.FirstRow(), RowsBisectRight(c.rows, at);
    RejectionIff(c, at);
    FallsIff(c, at);
  }

  lemma RejectionIff(c: Case, at: real)
    requires c.Valid()
    ensures RecentRejection(c.rows, c.FirstRow(), RowsBisectRight(c.rows, at), at, c.timing.rejectionAge)
      <==> exists row :: TurnedBack(c, at, row) && at - row.at <= c.timing.rejectionAge
  {
    hide Settle, RowsBisectRight, QuotesOrdered;
    var lo, hi := c.FirstRow(), RowsBisectRight(c.rows, at);
    if r :| lo <= r < hi && Rejects(c.rows[r]) && at - c.rows[r].at <= c.timing.rejectionAge {
      assert TurnedBack(c, at, c.rows[r]);
    }
    if row :| TurnedBack(c, at, row) && at - row.at <= c.timing.rejectionAge {
      var r :| 0 <= r < |c.rows| && c.rows[r] == row;
      assert lo <= r < hi && Rejects(c.rows[r]);
    }
  }

  lemma FallsIff(c: Case, at: real)
    requires c.Valid()
    ensures var hi := RowsBisectRight(c.rows, at);
      && (FallingTwice(c.rows, c.FirstRow(), hi) ==> TwoFalls(c, at, hi - 1))
      && forall n: nat :: TwoFalls(c, at, n) ==> n == hi - 1 && FallingTwice(c.rows, c.FirstRow(), hi)
  {
    hide Settle, RowsBisectRight, QuotesOrdered;
    var lo, hi := c.FirstRow(), RowsBisectRight(c.rows, at);
    forall n: nat | TwoFalls(c, at, n) ensures n == hi - 1 && lo <= n - 2 {
    }
  }

  /** A quote is stalled exactly when it is old enough, its peak is old enough and far enough above it, by spreads and by basis
      points of the entry, and the structure is weak. */
  lemma StalledMeans(c: Case, k: nat, m: nat)
    requires c.Valid() && c.First() <= k < |c.quotes| && IsPeak(c, k, m)
    ensures var q, high := c.quotes[k], c.quotes[m];
      Stalled(c, k) <==>
        && q.at >= c.base.entryAt + c.timing.minimumAge && q.at >= high.at + c.timing.stall
        && high.bid - q.bid >= c.timing.retraceSpreads * (q.ask - q.bid)
        && high.bid - q.bid >= c.base.entry * c.timing.retraceBps / 10000.0
        && Weak(c, q.at)
  {
    hide Settle, Weak, IsPeak, QuotesOrdered, RowsOrdered, BisectLeft, PeakAt;
    PeakIsFirst(c, k, m);
  }

  // ---------- The exit it comes to ----------

  datatype Exit = Exit(index: nat, reason: Reason)

  datatype Verdict = Verdict(exit: Option<Exit>, requested: Option<nat>)

  /** From one quote on: stop, target, a due stalled exit, otherwise perhaps a first request. */
  function Watch(c: Case, k: nat, requested: Option<nat>): Verdict
    requires c.Valid() && c.First() <= k <= c.Last() && (requested.Some? ==> requested.value < k)
    decreases c.Last() - k
  {
    if k == c.Last() then Verdict(None, requested)
    else if c.quotes[k].bid <= c.plan.stop then Verdict(Some(Exit(k, Stop)), requested)
    else if c.quotes[k].bid >= c.plan.target then Verdict(Some(Exit(k, Target)), requested)
    else if requested.Some? && c.quotes[k].at >= c.quotes[requested.value].at + c.p.latency then
      Verdict(Some(Exit(k, StalledFailure)), requested)
    else Watch(c, k + 1, if requested.None? && Stalled(c, k) then Some(k) else requested)
  }

  datatype Request = Request(at: real, peakBid: real, lastProgress: real, rejection: Option<real>, falling: nat, retrace: real)

  datatype Experiment = Unpaired | Paired(outcome: Outcome, trace: seq<Request>)

  function RequestAt(c: Case, k: nat): Request
    requires c.Valid() && c.First() <= k < |c.quotes|
  {
    var q, m := c.quotes[k], PeakAt(c.quotes, c.First(), k);
    var hi := RowsBisectRight(c.rows, q.at);
    Request(q.at, c.quotes[m].bid, c.quotes[m].at,
            LastRejection(c.rows, c.FirstRow(), hi), FallCount(c.rows, c.FirstRow(), hi), Retrace(c, q))
  }

  function OutcomeOf(c: Case, e: Option<Exit>): Outcome
    requires c.Valid() && (e.Some? ==> e.value.index < |c.quotes|)
  {
    if e.None? then c.base
    else
      var q := c.quotes[e.value.index];
      Resolved(c.base.entry, c.base.entryAt, q.at, e.value.reason, Net(c.p, c.base.entry, q.bid), c.base.horizonObserved)
  }

  function Experimental(c: Case): (r: Experiment)
    requires c.Valid()
    ensures r.Paired?
  {
    SameEntry(c);
    var v := Watch(c, c.First(), None);
    WatchStays(c, c.First(), None);
    Paired(OutcomeOf(c, v.exit), if v.requested.None? then [] else [RequestAt(c, v.requested.value)])
  }

  lemma {:induction false} WatchStays(c: Case, k: nat, requested: Option<nat>)
    requires c.Valid() && c.First() <= k <= c.Last()
    requires requested.Some? ==> c.First() <= requested.value < k
    ensures var v := Watch(c, k, requested);
      && (v.exit.Some? ==> k <= v.exit.value.index < c.Last())
      && (v.requested.Some? ==> c.First() <= v.requested.value < c.Last())
    decreases c.Last() - k
  {
    hide Settle, Stalled, QuotesOrdered, RowsOrdered, BisectLeft, BisectRight;
    if k < c.Last() {
      WatchStays(c, k + 1, if requested.None? && Stalled(c, k) then Some(k) else requested);
    }
  }

  // ---------- Paired with the baseline ----------

  /** Where the baseline left: its first hit, or the last quote of the horizon. */
  function BaselineExit(c: Case): nat
    requires c.Valid()
  {
    SameEntry(c);
    var hit := FirstHit(c.plan, c.quotes, c.First(), c.Last());
    if hit < c.Last() then hit else c.Last() - 1
  }

  lemma BaselineExitIs(c: Case)
    requires c.Valid()
    ensures var x := c.quotes[BaselineExit(c)];
      c.base.exitAt == x.at && c.base.net == Net(c.p, c.base.entry, x.bid)
    ensures var hit := FirstHit(c.plan, c.quotes, c.First(), c.Last());
      c.base.reason == if hit == c.Last() then Horizon else if c.quotes[hit].bid <= c.plan.stop then Stop else Target
  {
    hide QuotesOrdered, RowsOrdered, BisectLeft, BisectRight, FirstHit, Net;
    SameEntry(c);
  }

  /** Leaving at the baseline's hit, when there is one within the horizon. */
  function AtHit(c: Case, hit: nat): Option<Exit>
    requires hit <= c.Last() <= |c.quotes|
  {
    if hit < c.Last() then Some(Exit(hit, if c.quotes[hit].bid <= c.plan.stop then Stop else Target)) else None
  }

  /** The watch can leave before the first hit only by a stalled exit, and otherwise leaves exactly there. */
  lemma {:induction false} WatchMeetsHit(c: Case, k: nat, requested: Option<nat>)
    requires c.Valid() && c.First() <= k <= c.Last() <= |c.quotes|
    requires requested.Some? ==> requested.value < k
    ensures var v, hit := Watch(c, k, requested), FirstHit(c.plan, c.quotes, k, c.Last());
      if v.exit.Some? && v.exit.value.reason == StalledFailure then v.exit.value.index < hit
      else v.exit == AtHit(c, hit)
    decreases c.Last() - k
  {
    hide Settle, Stalled, QuotesOrdered, RowsOrdered, BisectLeft, BisectRight;
    if k < c.Last() {
      var due := requested.Some? && c.quotes[k].at >= c.quotes[requested.value].at + c.p.latency;
      if !Hits(c.plan, c.quotes[k]) && !due {
        WatchMeetsHit(c, k + 1, if requested.None? && Stalled(c, k) then Some(k) else requested);
      }
    }
  }

  // ---------- When the stalled exit comes ----------

  /** The first stalled quote in a range; the range's end when there is none. */
  function FirstStalled(c: Case, k: nat, hi: nat): (r: nat)
    requires c.Valid() && c.First() <= k <= hi <= |c.quotes|
    ensures k <= r <= hi
    decreases hi - k
  {
    hide Settle, Stalled, QuotesOrdered, RowsOrdered, BisectLeft;
    if k == hi || Stalled(c, k) then k else FirstStalled(c, k + 1, hi)
  }

  lemma {:induction false} FirstStalledIs(c: Case, k: nat, hi: nat)
    requires c.Valid() && c.First() <= k <= hi <= |c.quotes|
    ensures var r := FirstStalled(c, k, hi);
      (r < hi ==> Stalled(c, r)) && forall j :: k <= j < r ==> !Stalled(c, j)
    decreases hi - k
  {
    hide Settle, Stalled, QuotesOrdered, RowsOrdered, BisectLeft;
    if k < hi && !Stalled(c, k) {
      FirstStalledIs(c, k + 1, hi);
    }
  }

  /** The first quote in a range at or after a time; the range's end when there is none. */
  function FirstFrom(quotes: seq<Quote>, k: nat, hi: nat, t: real): (r: nat)
    requires k <= hi <= |quotes|
    ensures k <= r <= hi && (r < hi ==> quotes[r].at >= t) && forall j :: k <= j < r ==> quotes[j].at < t
    decreases hi - k
  {
    if k == hi || quotes[k].at >= t then k else FirstFrom(quotes, k + 1, hi, t)
  }

  /** The quote a stalled exit fills at: the first one at or after the latency from the first stalled quote, both before
      the baseline's hit; the hit's place when there is none. */
  function StalledFill(c: Case): (r: nat)
    requires c.Valid()
    ensures c.First() <= r <= c.Last()
  {
    SameEntry(c);
    var hit := FirstHit(c.plan, c.quotes, c.First(), c.Last());
    var stalled := FirstStalled(c, c.First(), hit);
    if stalled == hit then hit
    else FirstFrom(c.quotes, stalled + 1, hit, c.quotes[stalled].at + c.p.latency)
  }

  lemma HitStep(c: Case, k: nat)
    requires k < c.Last() <= |c.quotes|
    ensures FirstHit(c.plan, c.quotes, k, c.Last())
      == if Hits(c.plan, c.quotes[k]) then k else FirstHit(c.plan, c.quotes, k + 1, c.Last())
  {
  }

  lemma FromStep(quotes: seq<Quote>, k: nat, hi: nat, t: real)
    requires k <= hi <= |quotes|
    ensures FirstFrom(quotes, k, hi, t) == if k == hi || quotes[k].at >= t then k else FirstFrom(quotes, k + 1, hi, t)
  {
  }

  lemma RequestedStep(c: Case, k: nat, requested: nat)
    requires c.Valid() && c.First() <= k <= c.Last() <= |c.quotes| && requested < k
    ensures Watch(c, k, Some(requested)).exit
      == if k == c.Last() || Hits(c.plan, c.quotes[k]) then AtHit(c, k)
         else if c.quotes[k].at >= c.quotes[requested].at + c.p.latency then Some(Exit(k, StalledFailure))
         else Watch(c, k + 1, Some(requested)).exit
  {
    hide Settle, Stalled, QuotesOrdered, RowsOrdered, BisectLeft, BisectRight;
  }

  /** Once requested, the exit comes at the first quote that is due, unless the hit comes first. */
  lemma {:induction false} WatchWhenRequested(c: Case, k: nat, requested: nat)
    requires c.Valid() && c.First() <= k <= c.Last() <= |c.quotes| && requested < k
    ensures var hit := FirstHit(c.plan, c.quotes, k, c.Last());
      var due := FirstFrom(c.quotes, k, hit, c.quotes[requested].at + c.p.latency);
      Watch(c, k, Some(requested)).exit == if due < hit then Some(Exit(due, StalledFailure)) else AtHit(c, hit)
    decreases c.Last() - k
  {
    hide Settle, Stalled, QuotesOrdered, RowsOrdered, BisectLeft, BisectRight, Watch, FirstHit, FirstFrom, Hits, AtHit;
    RequestedStep(c, k, requested);
    FromStep(c.quotes, k, FirstHit(c.plan, c.quotes, k, c.Last()), c.quotes[requested].at + c.p.latency);
    if k < c.Last() {
      HitStep(c, k);
      if !Hits(c.plan, c.quotes[k]) && c.quotes[k].at < c.quotes[requested].at + c.p.latency {
        WatchWhenRequested(c, k + 1, requested);
      }
    }
  }

  /** Before any request the exit is asked for at the first stalled quote before the hit. */
  lemma {:induction false} WatchUntilStalled(c: Case, k: nat)
    requires c.Valid() && c.First() <= k <= c.Last() <= |c.quotes|
    ensures var hit := FirstHit(c.plan, c.quotes, k, c.Last());
      var r := FirstStalled(c, k, hit);
      Watch(c, k, None)
        == if r < hit then Watch(c, r + 1, Some(r))
           else Verdict(AtHit(c, hit), None)
    decreases c.Last() - k
  {
    hide Settle, Stalled, QuotesOrdered, RowsOrdered, BisectLeft, BisectRight;
    if k < c.Last() && !Hits(c.plan, c.quotes[k]) && !Stalled(c, k) {
      WatchUntilStalled(c, k + 1);
    }
  }

  lemma {:induction false} HitAfter(c: Case, k: nat, j: nat)
    requires k <= j <= c.Last() <= |c.quotes| && j <= FirstHit(c.plan, c.quotes, k, c.Last())
    ensures FirstHit(c.plan, c.quotes, j, c.Last()) == FirstHit(c.plan, c.quotes, k, c.Last())
    decreases j - k
  {
    if k < j {
      HitAfter(c, k + 1, j);
    }
  }

  /** The watch leaves by a stalled exit exactly when there is a fill for one before the hit, and then there. */
  lemma StalledExitIff(c: Case)
    requires c.Valid()
    ensures var v, hit, fill := Watch(c, c.First(), None), FirstHit(c.plan, c.quotes, c.First(), c.Last()), StalledFill(c);
      && (v.exit.Some? && v.exit.value.reason == StalledFailure <==> fill < hit)
      && (fill < hit ==> v.exit == Some(Exit(fill, StalledFailure)))
  {
    hide Settle, Stalled, Watch, FirstHit, FirstStalled, FirstFrom, BisectLeft, BisectRight, Hits;
    SameEntry(c);
    WatchUntilStalled(c, c.First());
    var hit := FirstHit(c.plan, c.quotes, c.First(), c.Last());
    var r := FirstStalled(c, c.First(), hit);
    if r < hit {
      HitAfter(c, c.First(), r + 1);
      WatchWhenRequested(c, r + 1, r);
    }
  }

  /** The experiment shares the baseline's fill and is over no later. It differs from the baseline exactly when there is a
      stalled fill before the hit, and then leaves there; it is over strictly earlier exactly when that quote's time is
      strictly below that of the quote the baseline left at. */
  lemma PairedExit(c: Case)
    requires c.Valid()
    ensures var o, fill := Experimental(c).outcome, StalledFill(c);
      var stalled := fill < FirstHit(c.plan, c.quotes, c.First(), c.Last());
      && o.Resolved? && o.entry == c.base.entry && o.entryAt == c.base.entryAt
      && o.entryAt <= o.exitAt <= c.base.exitAt
      && (o.reason == StalledFailure <==> stalled)
      && (!stalled ==> o == c.base)
      && (stalled ==> c.First() < fill <= BaselineExit(c)
                      && o.exitAt == c.quotes[fill].at && o.net == Net(c.p, c.base.entry, c.quotes[fill].bid))
      && (o.exitAt < c.base.exitAt <==> stalled && c.quotes[fill].at < c.quotes[BaselineExit(c)].at)
      && (stalled && fill == BaselineExit(c) ==> c.base.reason == Horizon && o.net == c.base.net)
  {
    hide Settle, Stalled, StalledFill;
    SameEntry(c);
    var v := Watch(c, c.First(), None);
    WatchStays(c, c.First(), None);
    WatchMeetsHit(c, c.First(), None);
    StalledExitIff(c);
    BaselineExitIs(c);
    StalledIsLater(c);
  }

  /** A stalled exit never comes on the entry quote itself: no candle has closed since the entry. */
  lemma StalledIsLater(c: Case)
    requires c.Valid() && c.First() < c.Last()
    ensures var v := Watch(c, c.First(), None);
      v.exit.Some? && v.exit.value.reason == StalledFailure ==> c.First() < v.exit.value.index
  {
    SameEntry(c);
    assert !Stalled(c, c.First());
    WatchStays(c, c.First() + 1, None);
  }

  // ---------- Two entries whose stalled exit is no earlier than the baseline's ----------

  /** A candle closing at 11 whose event is a rejection of the band it closed in. */
  const REJECTED := Row(11.0, Bar(10.0, 11.0, 10.0, 9.5, 9.5), [], [Event(Rejection, Level("", 9.5, 10.0, true, 0.0))],
                        0.0, 0.0, 0.0, 0.0)

  /** An entry decided at time zero, filled at 10 and stalled at the quote that follows the rejection. */
  function StalledAt12(later: seq<Quote>): Case {
    var plan, quotes := Setup(0.0, 8.0, 100.0), [Quote(0.1, 10.0, 10.0), Quote(12.0, 9.5, 9.5)] + later;
    Case(POLICY, TIMING, plan, [REJECTED], quotes,
         if QuotesOrdered(quotes) then Settle(POLICY, plan, quotes) else NoTimelyEntryQuote)
  }

  lemma SearchIs(quotes: seq<Quote>, t: real, k: nat)
    requires QuotesOrdered(quotes) && k <= |quotes|
    ensures (k > 0 ==> quotes[k - 1].at < t) && (k < |quotes| ==> quotes[k].at >= t) ==> BisectLeft(quotes, t) == k
    ensures (k > 0 ==> quotes[k - 1].at <= t) && (k < |quotes| ==> quotes[k].at > t) ==> BisectRight(quotes, t) == k
  {
    hide BisectLeft, BisectRight;
    var left, right := BisectLeft(quotes, t), BisectRight(quotes, t);
    assert left < |quotes| ==> quotes[left].at >= t;
    assert right < |quotes| ==> quotes[right].at > t;
  }

  /** Both entries fill on the first quote, and every quote lies within the horizon. */
  lemma EntersAtOnce(later: seq<Quote>)
    requires var c := StalledAt12(later);
      later != [] && QuotesOrdered(c.quotes) && c.quotes[|c.quotes| - 1].at <= 30.0
    ensures var c := StalledAt12(later);
      && BisectLeft(c.quotes, c.plan.at + c.p.latency) == 0 && BisectLeft(c.quotes, 0.1) == 0
      && BisectRight(c.quotes, c.plan.at + c.p.horizon) == |c.quotes|
  {
    hide BisectLeft, BisectRight, Settle;
    var c := StalledAt12(later);
    SearchIs(c.quotes, 0.1, 0);
    SearchIs(c.quotes, 30.0, |c.quotes|);
    assert c.plan.at + c.p.latency == 0.1 && c.plan.at + c.p.horizon == 30.0;
  }

  /** What both entries share: the second quote is the first stalled one. */
  lemma StallsAt12(later: seq<Quote>)
    requires var c := StalledAt12(later);
      later != [] && QuotesOrdered(c.quotes) && c.quotes[|c.quotes| - 1].at <= 30.0 && c.base.Resolved?
    ensures var c := StalledAt12(later);
      && c.Valid() && c.First() == 0 && c.Last() == |c.quotes| && c.base.entryAt == 0.1 && c.base.entry == 10.0 * 1.0005
      && !Stalled(c, 0) && Stalled(c, 1) && !Hits(c.plan, c.quotes[0]) && !Hits(c.plan, c.quotes[1])
  {
    hide BisectLeft, BisectRight, FirstHit, PeakAt, RowsBisectRight;
    var c := StalledAt12(later);
    EntersAtOnce(later);
    assert c.base.entryAt == 0.1 && c.base.entry == 10.0 * 1.0005;
    assert PeakAt(c.quotes, 0, 0) == 0 && PeakAt(c.quotes, 0, 1) == 0;
    RowsStep();
    assert c.FirstRow() == 0 && RowsBisectRight(c.rows, 12.0) == 1;
    assert Rejects(c.rows[0]) by {
      assert REJECTED.events[0] in c.rows[0].events;
    }
    assert RecentRejection(c.rows, 0, 1, 12.0, 5.0);
    assert Weak(c, 12.0);
  }

  lemma RowsStep()
    ensures RowsBisectRight([REJECTED], 0.1) == 0 && RowsBisectRight([REJECTED], 12.0) == 1
  {
    assert RowsBisectRight([REJECTED][1..], 12.0) == 0;
  }

  /** When no quote but perhaps the last one hits, the third quote is where the stalled exit fills. */
  lemma FillsThird(later: seq<Quote>)
    requires var c := StalledAt12(later);
      later != [] && QuotesOrdered(c.quotes) && c.quotes[|c.quotes| - 1].at <= 30.0 && c.base.Resolved?
    requires later[0].at >= 12.1 && !Hits(StalledAt12(later).plan, later[0])
    ensures var c := StalledAt12(later);
      c.Valid() && StalledFill(c) == 2 < FirstHit(c.plan, c.quotes, c.First(), c.Last())
  {
    hide Settle, Stalled, Hits, BisectLeft, BisectRight, FirstHit, FirstStalled, FirstFrom;
    var c := StalledAt12(later);
    StallsAt12(later);
    var hit := FirstHit(c.plan, c.quotes, 0, c.Last());
    assert c.quotes[2] == later[0];
    assert 2 < hit;
    FirstStalledIs(c, 0, hit);
    assert FirstStalled(c, 0, hit) == 1;
    assert FirstFrom(c.quotes, 2, hit, c.quotes[1].at + c.p.latency) == 2;
  }

  /** The horizon case: the stalled exit fills on the very quote at which the baseline runs out of horizon, so time and net
      are the baseline's and only the reason differs. */
  lemma StalledOnHorizonQuote()
    ensures var c := StalledAt12([Quote(30.0, 9.5, 9.5)]);
      && c.Valid() && c.base.reason == Horizon
      && Experimental(c).outcome == c.base.(reason := StalledFailure)
  {
    hide BisectLeft, BisectRight, FirstHit, StalledFill, Experimental;
    var later := [Quote(30.0, 9.5, 9.5)];
    var c := StalledAt12(later);
    EntersAtOnce(later);
    assert FirstHit(c.plan, c.quotes, 0, 3) == 3;
    FillsThird(later);
    PairedExit(c);
    StalledOutcome(c);
  }

  /** A stalled exit changes the exit's time, reason and net and nothing else. */
  lemma StalledOutcome(c: Case)
    requires c.Valid() && StalledFill(c) < FirstHit(c.plan, c.quotes, c.First(), c.Last())
    ensures var x := c.quotes[StalledFill(c)];
      Experimental(c).outcome
        == c.base.(exitAt := x.at, reason := StalledFailure, net := Net(c.p, c.base.entry, x.bid))
  {
    hide Settle, Stalled, StalledFill, FirstHit, BisectLeft, BisectRight;
    StalledExitIff(c);
  }

  /** The equal-time case: the stalled exit fills at 9.5 on a quote that shares its time with the next one, on which the
      baseline stops out at 7. The times are equal; the reasons and the nets are not. */
  lemma StalledAtTheSameTime()
    ensures var c := StalledAt12([Quote(12.1, 9.5, 9.5), Quote(12.1, 7.0, 7.0)]);
      && c.Valid() && c.base.reason == Stop
      && var o := Experimental(c).outcome;
        o.reason == StalledFailure && o.exitAt == c.base.exitAt && o.net > c.base.net
  {
    hide BisectLeft, BisectRight, FirstHit, StalledFill, Experimental;
    var later := [Quote(12.1, 9.5, 9.5), Quote(12.1, 7.0, 7.0)];
    var c := StalledAt12(later);
    EntersAtOnce(later);
    assert FirstHit(c.plan, c.quotes, 0, 4) == 3;
    FillsThird(later);
    StalledOutcome(c);
  }

  // ---------- The streaming exit ----------

  /** Latest rejection seen in a range of candles, if any. */
  ghost predicate LatestRejection(rows: seq<Row>, lo: nat, hi: nat, latest: Option<real>)
    requires hi <= |rows|
  {
    match latest
    case None => forall r :: lo <= r < hi ==> !Rejects(rows[r])
    case Some(at) =>
      && (exists r :: lo <= r < hi && Rejects(rows[r]) && rows[r].at == at)
      && (forall r :: lo <= r < hi && Rejects(rows[r]) ==> rows[r].at <= at)
  }

  lemma FallCountIs(rows: seq<Row>, lo: nat, hi: nat)
    requires hi <= |rows|
    ensures FallCount(rows, lo, hi) >= 2 <==> FallingTwice(rows, lo, hi)
  {
    if hi >= lo + 3 && Falls(rows, hi - 1) {
      assert FallCount(rows, lo, hi) == 1 + FallCount(rows, lo, hi - 1);
    }
  }

  /** In time order the last rejection is the latest. */
  lemma {:induction false} LastIsLatest(rows: seq<Row>, lo: nat, hi: nat)
    requires RowsOrdered(rows) && hi <= |rows|
    ensures LatestRejection(rows, lo, hi, LastRejection(rows, lo, hi))
  {
    hide Rejects;
    if lo < hi && !Rejects(rows[hi - 1]) {
      LastIsLatest(rows, lo, hi - 1);
    }
  }

  lemma RejectionIs(rows: seq<Row>, lo: nat, hi: nat, at: real, age: real)
    requires RowsOrdered(rows) && hi <= |rows|
    ensures var latest := LastRejection(rows, lo, hi);
      (latest.Some? && at - latest.value <= age) <==> RecentRejection(rows, lo, hi, at, age)
  {
    LastIsLatest(rows, lo, hi);
  }

  /** Candle evidence carried between quotes. */
  datatype Evidence = Evidence(ri: nat, rejection: Option<real>, close: Option<real>, end: Option<real>, falling: nat)

  ghost predicate EvidenceOk(rows: seq<Row>, lo: nat, e: Evidence) {
    && lo <= e.ri <= |rows| && e.rejection == LastRejection(rows, lo, e.ri)
    && e.falling == FallCount(rows, lo, e.ri)
    && (if e.ri == lo then e.close.None? && e.end.None?
        else e.close == Some(rows[e.ri - 1].bar.close) && e.end == Some(rows[e.ri - 1].at))
  }

  /** The evidence after one more candle. */
  function Read(e: Evidence, row: Row): Evidence {
    var contiguous := e.end == Some(row.bar.time);
    Evidence(e.ri + 1, if Rejects(row) then Some(row.at) else e.rejection, Some(row.bar.close), Some(row.at),
             if contiguous && e.close.Some? && row.bar.close < e.close.value then e.falling + 1 else 0)
  }

  lemma ReadKeeps(rows: seq<Row>, lo: nat, e: Evidence)
    requires RowsOrdered(rows) && EvidenceOk(rows, lo, e) && e.ri < |rows|
    ensures EvidenceOk(rows, lo, Read(e, rows[e.ri]))
  {
    hide Rejects;
  }

  /** Takes in the candles closed by a time. */
  method ReadRows(rows: seq<Row>, lo: nat, seen: Evidence, at: real) returns (e: Evidence)
    requires RowsOrdered(rows) && EvidenceOk(rows, lo, seen) && seen.ri <= RowsBisectRight(rows, at)
    ensures EvidenceOk(rows, lo, e) && e.ri == RowsBisectRight(rows, at)
  {
    hide EvidenceOk, Rejects;
    var ri, rejection, close, end, falling := seen.ri, seen.rejection, seen.close, seen.end, seen.falling;
    while ri < |rows| && rows[ri].at <= at
      invariant seen.ri <= ri <= RowsBisectRight(rows, at)
      invariant EvidenceOk(rows, lo, Evidence(ri, rejection, close, end, falling))
    {
      var row := rows[ri];
      ReadKeeps(rows, lo, Evidence(ri, rejection, close, end, falling));
      if Rejects(row) {
        rejection := Some(row.at);
      }
      var contiguous := end == Some(row.bar.time);
      falling := if contiguous && close.Some? && row.bar.close < close.value then falling + 1 else 0;
      close, end := Some(row.bar.close), Some(row.at);
      ri := ri + 1;
    }
    e := Evidence(ri, rejection, close, end, falling);
  }

  /** The carried evidence decides weakness as the definition does. */
  lemma WeakIs(c: Case, e: Evidence, at: real)
    requires c.Valid() && EvidenceOk(c.rows, c.FirstRow(), e) && e.ri == RowsBisectRight(c.rows, at)
    ensures Weak(c, at) <==>
      || (e.rejection.Some? && at - e.rejection.value <= c.timing.rejectionAge)
      || (e.falling >= 2 && e.end.Some? && at - e.end.value <= c.p.quoteAge)
  {
    FallCountIs(c.rows, c.FirstRow(), e.ri);
    RejectionIs(c.rows, c.FirstRow(), e.ri, at, c.timing.rejectionAge);
  }

  /** The first candle after the entry is no later than the first one after any later quote. */
  lemma RowsAhead(c: Case, k: nat)
    requires c.Valid() && c.First() <= k < |c.quotes|
    ensures c.FirstRow() <= RowsBisectRight(c.rows, c.quotes[k].at)
    ensures forall j :: k <= j < |c.quotes| ==> RowsBisectRight(c.rows, c.quotes[k].at) <= RowsBisectRight(c.rows, c.quotes[j].at)
  {
    SameEntry(c);
    forall j | k <= j < |c.quotes|
      ensures RowsBisectRight(c.rows, c.quotes[k].at) <= RowsBisectRight(c.rows, c.quotes[j].at)
    {
      RowsMonotone(c.rows, c.quotes[k].at, c.quotes[j].at);
    }
    RowsMonotone(c.rows, c.Start(), c.quotes[k].at);
  }

  lemma RowsMonotone(rows: seq<Row>, s: real, t: real)
    requires RowsOrdered(rows) && s <= t
    ensures RowsBisectRight(rows, s) <= RowsBisectRight(rows, t)
  {
    var i := RowsBisectRight(rows, s);
    if i > 0 {
      assert rows[i - 1].at <= s;
    }
  }

  /** The highest bid before a quote and when it was first reached; the entry's own before any quote is read. */
  predicate PeakIs(quotes: seq<Quote>, i: nat, k: nat, peak: real, progress: real)
    requires i <= k <= |quotes| && i < |quotes|
  {
    var m := if k == i then i else PeakAt(quotes, i, k - 1);
    peak == quotes[m].bid && progress == quotes[m].at
  }

  lemma PeakStarts(quotes: seq<Quote>, i: nat)
    requires i < |quotes|
    ensures PeakIs(quotes, i, i, quotes[i].bid, quotes[i].at)
  {
  }

  lemma PeakReads(quotes: seq<Quote>, i: nat, k: nat, peak: real, progress: real)
    requires i <= k < |quotes| && PeakIs(quotes, i, k, peak, progress)
    ensures var q := quotes[k];
      if q.bid > peak then PeakIs(quotes, i, k + 1, q.bid, q.at) else PeakIs(quotes, i, k + 1, peak, progress)
  {
  }

  lemma NoEvidence(c: Case)
    requires c.Valid()
    ensures EvidenceOk(c.rows, c.FirstRow(), Evidence(c.FirstRow(), None, None, None, 0))
    ensures c.First() < |c.quotes| && c.FirstRow() <= RowsBisectRight(c.rows, c.quotes[c.First()].at)
  {
    SameEntry(c);
  }

  lemma StalledIs(c: Case, k: nat, peak: real, progress: real)
    requires c.Valid() && c.First() <= k < |c.quotes|
    requires PeakIs(c.quotes, c.First(), k + 1, peak, progress)
    ensures var q := c.quotes[k];
      Stalled(c, k) <==> q.at - c.Start() >= c.timing.minimumAge && q.at - progress >= c.timing.stall
                         && peak - q.bid >= Retrace(c, q) && Weak(c, q.at)
  {
    hide Weak;
  }

  lemma RequestIs(c: Case, k: nat, e: Evidence, peak: real, progress: real)
    requires c.Valid() && c.First() <= k < |c.quotes| && PeakIs(c.quotes, c.First(), k + 1, peak, progress)
    requires EvidenceOk(c.rows, c.FirstRow(), e) && e.ri == RowsBisectRight(c.rows, c.quotes[k].at)
    ensures RequestAt(c, k)
         == Request(c.quotes[k].at, peak, progress, e.rejection, e.falling, Retrace(c, c.quotes[k]))
  {
  }

  lemma WatchEnds(c: Case, asked: Option<nat>)
    requires c.Valid() && c.First() <= c.Last() && (asked.Some? ==> asked.value < c.Last())
    ensures Watch(c, c.Last(), asked) == Verdict(None, asked)
  {
  }

  lemma WatchStep(c: Case, k: nat, asked: Option<nat>)
    requires c.Valid() && c.First() <= k < c.Last() && (asked.Some? ==> asked.value < k)
    ensures var q := c.quotes[k];
      Watch(c, k, asked)
      == if q.bid <= c.plan.stop then Verdict(Some(Exit(k, Stop)), asked)
         else if q.bid >= c.plan.target then Verdict(Some(Exit(k, Target)), asked)
         else if asked.Some? && q.at >= c.quotes[asked.value].at + c.p.latency then Verdict(Some(Exit(k, StalledFailure)), asked)
         else Watch(c, k + 1, if asked.None? && Stalled(c, k) then Some(k) else asked)
  {
    hide Stalled;
  }

  /** Streaming the quotes with a running peak, the latest rejection and a falling count comes to the defined exit. */
  method Run(c: Case) returns (r: Experiment)
    requires c.Valid()
    ensures r == Experimental(c)
  {
    hide Settle, Watch, Stalled, Weak, EvidenceOk, PeakIs, PeakAt, Net, Retrace, RequestAt, BisectLeft, BisectRight, RowsBisectRight;
    SameEntry(c);
    NoEvidence(c);
    var i, j := c.First(), c.Last();
    PeakStarts(c.quotes, i);
    var e := Evidence(c.FirstRow(), None, None, None, 0);
    var peak, progress := c.quotes[i].bid, c.Start();
    var requested: Option<real> := None;
    ghost var asked: Option<nat> := None;
    var trace: seq<Request> := [];
    var k := i;
    while k < j
      invariant i <= k <= j
      invariant EvidenceOk(c.rows, c.FirstRow(), e)
      invariant k < j ==> e.ri <= RowsBisectRight(c.rows, c.quotes[k].at)
      invariant PeakIs(c.quotes, i, k, peak, progress)
      invariant asked.Some? ==> i <= asked.value < k && requested == Some(c.quotes[asked.value].at)
      invariant asked.None? ==> requested.None?
      invariant trace == if asked.None? then [] else [RequestAt(c, asked.value)]
      invariant Watch(c, i, None) == Watch(c, k, asked)
    {
      var q := c.quotes[k];
      RowsAhead(c, k);
      e := ReadRows(c.rows, c.FirstRow(), e, q.at);
      PeakReads(c.quotes, i, k, peak, progress);
      if q.bid > peak {
        peak, progress := q.bid, q.at;
      }
      WatchStep(c, k, asked);
      var reason: Option<Reason> := None;
      if q.bid <= c.plan.stop {
        reason := Some(Stop);
      } else if q.bid >= c.plan.target {
        reason := Some(Target);
      } else if requested.Some? && q.at >= requested.value + c.p.latency {
        reason := Some(StalledFailure);
      }
      if reason.Some? {
        return Paired(Resolved(c.base.entry, c.base.entryAt, q.at, reason.value, Net(c.p, c.base.entry, q.bid),
                               c.base.horizonObserved), trace);
      }
      var retrace := Retrace(c, q);
      var weak := (e.rejection.Some? && q.at - e.rejection.value <= c.timing.rejectionAge)
                  || (e.falling >= 2 && e.end.Some? && q.at - e.end.value <= c.p.quoteAge);
      WeakIs(c, e, q.at);
      StalledIs(c, k, peak, progress);
      RequestIs(c, k, e, peak, progress);
      if requested.None? && q.at - c.Start() >= c.timing.minimumAge && q.at - progress >= c.timing.stall
         && peak - q.bid >= retrace && weak {
        requested, asked := Some(q.at), Some(k);
        trace := trace + [Request(q.at, peak, progress, e.rejection, e.falling, retrace)];
      }
      k := k + 1;
    }
    WatchEnds(c, asked);
    return Paired(c.base, trace);
  }
}
