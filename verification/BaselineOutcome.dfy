/** Fixed-horizon outcomes of hypothetical entries, and the family-wise occupancy that selects which ones trade. */
module BaselineOutcome {
  import opened ReplayModel
  import opened ReplayMachine

  datatype Policy = Policy(horizon: real, latency: real, quoteAge: real, maxSpreadBps: real, minDollars: real,
                           minShares: real, minTradeRate: real, tick: real, shares: real, fee: real, slippageBps: real,
                           repeatLevel: real)
  {
    function Slip(): real {
      slippageBps / 10000.0
    }

    predicate Valid() {
      0.0 <= latency && 0.0 < quoteAge <= horizon && repeatLevel > 0.0
    }
  }

  const POLICY := Policy(30.0, 0.1, 1.0, 100.0, 1000000.0, 100000.0, 5.0, 0.01, 100.0, 1.0, 5.0, 30.0)

  // ---------- Searching ordered times ----------

  /** The first quote at or after a time. */
  function BisectLeft(quotes: seq<Quote>, t: real): (i: nat)
    ensures i <= |quotes|
    ensures QuotesOrdered(quotes) ==> forall k :: 0 <= k < |quotes| ==> (k < i <==> quotes[k].at < t)
  {
    if quotes == [] || quotes[0].at >= t then 0
    else
      assert QuotesOrdered(quotes) ==> QuotesOrdered(quotes[1..]);
      1 + BisectLeft(quotes[1..], t)
  }

  /** The first quote after a time. */
  function BisectRight(quotes: seq<Quote>, t: real): (i: nat)
    ensures i <= |quotes|
    ensures QuotesOrdered(quotes) ==> forall k :: 0 <= k < |quotes| ==> (k < i <==> quotes[k].at <= t)
  {
    if quotes == [] || quotes[0].at > t then 0
    else
      assert QuotesOrdered(quotes) ==> QuotesOrdered(quotes[1..]);
      1 + BisectRight(quotes[1..], t)
  }

  /** The first candle after a time. */
  function RowsBisectRight(rows: seq<Row>, t: real): (i: nat)
    ensures i <= |rows|
    ensures RowsOrdered(rows) ==> forall k :: 0 <= k < |rows| ==> (k < i <==> rows[k].at <= t)
  {
    if rows == [] || rows[0].at > t then 0
    else
      assert RowsOrdered(rows) ==> RowsOrdered(rows[1..]);
      1 + RowsBisectRight(rows[1..], t)
  }

  // ---------- Outcomes ----------

  datatype Setup = Setup(at: real, stop: real, target: real)

  datatype Reason = Stop | Target | Horizon | StalledFailure

  datatype Outcome =
    | NoTimelyEntryQuote
    | InvalidAtExecution
    | Censored(entryAt: real, reservedUntil: real)
    | Resolved(entry: real, entryAt: real, exitAt: real, reason: Reason, net: real, horizonObserved: bool)

  function Net(p: Policy, entry: real, bid: real): real {
    (bid * (1.0 - p.Slip()) - entry) * p.shares - 2.0 * p.fee
  }

  predicate Hits(s: Setup, q: Quote) {
    q.bid <= s.stop || q.bid >= s.target
  }

  /** The first quote in a range at or beyond the stop or the target; the range's end when there is none. */
  function FirstHit(s: Setup, quotes: seq<Quote>, i: nat, j: nat): (h: nat)
    requires i <= j <= |quotes|
    ensures i <= h <= j
    ensures forall k :: i <= k < h ==> !Hits(s, quotes[k])
    ensures h < j ==> Hits(s, quotes[h])
    decreases j - i
  {
    if i == j || Hits(s, quotes[i]) then i else FirstHit(s, quotes, i + 1, j)
  }

  function Entry(p: Policy, q: Quote): real {
    q.ask * (1.0 + p.Slip())
  }

  /** A timely entry leaves at least its own quote inside the horizon. */
  lemma EntryIsInside(p: Policy, s: Setup, quotes: seq<Quote>)
    requires p.Valid() && QuotesOrdered(quotes)
    ensures var i := BisectLeft(quotes, s.at + p.latency);
      i < |quotes| && quotes[i].at - s.at <= p.quoteAge ==> i < BisectRight(quotes, s.at + p.horizon)
  {
  }

  /** What an entry decided at the setup's time would have come to. */
  function Settle(p: Policy, s: Setup, quotes: seq<Quote>): Outcome
    requires p.Valid() && QuotesOrdered(quotes)
  {
    var i := BisectLeft(quotes, s.at + p.latency);
    if i == |quotes| || quotes[i].at - s.at > p.quoteAge then NoTimelyEntryQuote
    else
      var entry := Entry(p, quotes[i]);
      if !(s.stop < quotes[i].bid) || s.target <= entry then InvalidAtExecution
      else
        EntryIsInside(p, s, quotes);
        var end := s.at + p.horizon;
        var j := BisectRight(quotes, end);
        var observed := end - quotes[j - 1].at <= p.quoteAge;
        var hit := FirstHit(s, quotes, i, j);
        if !observed && hit == j then Censored(quotes[i].at, end)
        else
          var exit := quotes[if hit < j then hit else j - 1];
          Resolved(entry, quotes[i].at, exit.at,
                   if hit < j then if exit.bid <= s.stop then Stop else Target else Horizon,
                   Net(p, entry, exit.bid), observed)
  }

  /** An outcome uses only quotes from its entry to its horizon: entry within one quote age of the decision, exit no
      earlier than entry, nothing later than the horizon. */
  lemma SettleTimes(p: Policy, s: Setup, quotes: seq<Quote>)
    requires p.Valid() && QuotesOrdered(quotes)
    ensures var o := Settle(p, s, quotes);
      && (o.Resolved? ==> s.at + p.latency <= o.entryAt <= s.at + p.quoteAge && o.entryAt <= o.exitAt <= s.at + p.horizon)
      && (o.Censored? ==> s.at + p.latency <= o.entryAt <= s.at + p.quoteAge && o.reservedUntil == s.at + p.horizon)
  {
    EntryIsInside(p, s, quotes);
  }

  // ---------- What each outcome means ----------

  /** The quote an entry decided at the setup's time would be filled at: the first one past the latency, while it is timely. */
  predicate IsEntry(p: Policy, s: Setup, quotes: seq<Quote>, i: nat) {
    && i < |quotes| && s.at + p.latency <= quotes[i].at <= s.at + p.quoteAge
    && forall k :: 0 <= k < i ==> quotes[k].at < s.at + p.latency
  }

  /** From the entry on, a quote within the horizon at or below the stop, or at or above the target. */
  predicate Reached(p: Policy, s: Setup, quotes: seq<Quote>, i: nat, k: nat) {
    i <= k < |quotes| && quotes[k].at <= s.at + p.horizon && (quotes[k].bid <= s.stop || quotes[k].bid >= s.target)
  }

  /** Some quote lies within one quote age of the horizon's end. */
  predicate HorizonSeen(p: Policy, s: Setup, quotes: seq<Quote>) {
    exists k :: 0 <= k < |quotes| && s.at + p.horizon - p.quoteAge <= quotes[k].at <= s.at + p.horizon
  }

  /** The quote a position is left at: the first one that reaches stop or target, or the last one of the horizon. */
  predicate IsExit(p: Policy, s: Setup, quotes: seq<Quote>, i: nat, x: nat) {
    && i <= x < |quotes| && quotes[x].at <= s.at + p.horizon
    && (forall k: nat :: k < x ==> !Reached(p, s, quotes, i, k))
    && (Reached(p, s, quotes, i, x) || forall k :: x < k < |quotes| ==> quotes[k].at > s.at + p.horizon)
  }

  /** There is no timely entry exactly when no quote lies between latency and quote age. */
  lemma NoTimelyEntryIff(p: Policy, s: Setup, quotes: seq<Quote>)
    requires p.Valid() && QuotesOrdered(quotes)
    ensures Settle(p, s, quotes) == NoTimelyEntryQuote
      <==> forall k :: 0 <= k < |quotes| ==> !(s.at + p.latency <= quotes[k].at <= s.at + p.quoteAge)
    ensures Settle(p, s, quotes) != NoTimelyEntryQuote <==> exists i: nat :: IsEntry(p, s, quotes, i)
  {
    var i := BisectLeft(quotes, s.at + p.latency);
    EntryIsInside(p, s, quotes);
    if Settle(p, s, quotes) != NoTimelyEntryQuote {
      assert IsEntry(p, s, quotes, i);
    }
  }

  lemma EntryIs(p: Policy, s: Setup, quotes: seq<Quote>, i: nat)
    requires p.Valid() && QuotesOrdered(quotes) && IsEntry(p, s, quotes, i)
    ensures BisectLeft(quotes, s.at + p.latency) == i < BisectRight(quotes, s.at + p.horizon)
  {
    EntryIsInside(p, s, quotes);
    assert i > 0 ==> quotes[i - 1].at < s.at + p.latency;
  }

  /** Some quote reaches stop or target exactly when the first hit comes within the horizon. */
  lemma HitIsReached(p: Policy, s: Setup, quotes: seq<Quote>, i: nat)
    requires p.Valid() && QuotesOrdered(quotes) && IsEntry(p, s, quotes, i)
    ensures var j := BisectRight(quotes, s.at + p.horizon);
      var hit := if i <= j then FirstHit(s, quotes, i, j) else j;
      && i < j
      && (hit < j <==> exists k: nat :: Reached(p, s, quotes, i, k))
      && (hit < j ==> Reached(p, s, quotes, i, hit)) && (forall k: nat :: k < hit ==> !Reached(p, s, quotes, i, k))
  {
    EntryIs(p, s, quotes, i);
    var j := BisectRight(quotes, s.at + p.horizon);
    var hit := FirstHit(s, quotes, i, j);
    forall k: nat | k < hit ensures !Reached(p, s, quotes, i, k) {
      if i <= k {
        assert !Hits(s, quotes[k]);
      }
    }
    if hit < j {
      assert Reached(p, s, quotes, i, hit);
    }
  }

  lemma HorizonSeenIff(p: Policy, s: Setup, quotes: seq<Quote>, i: nat)
    requires p.Valid() && QuotesOrdered(quotes) && IsEntry(p, s, quotes, i)
    ensures var j := BisectRight(quotes, s.at + p.horizon);
      0 < j <= |quotes| && (HorizonSeen(p, s, quotes) <==> s.at + p.horizon - quotes[j - 1].at <= p.quoteAge)
  {
    EntryIs(p, s, quotes, i);
    var j := BisectRight(quotes, s.at + p.horizon);
    assert quotes[j - 1].at <= s.at + p.horizon;
    if k :| 0 <= k < |quotes| && s.at + p.horizon - p.quoteAge <= quotes[k].at <= s.at + p.horizon {
      assert k <= j - 1;
    }
  }

  /** Given the entry quote, each of the other three outcomes comes exactly as its quotes say. */
  lemma OutcomeIff(p: Policy, s: Setup, quotes: seq<Quote>, i: nat)
    requires p.Valid() && QuotesOrdered(quotes) && IsEntry(p, s, quotes, i)
    ensures var o := Settle(p, s, quotes);
      var unfit := quotes[i].bid <= s.stop || s.target <= quotes[i].ask + quotes[i].ask * p.slippageBps / 10000.0;
      var reached := exists k: nat :: Reached(p, s, quotes, i, k);
      && (o == InvalidAtExecution <==> unfit)
      && (o.Censored? <==> !unfit && !reached && !HorizonSeen(p, s, quotes))
      && (o.Resolved? <==> !unfit && (reached || HorizonSeen(p, s, quotes)))
      && (o.Censored? ==> o == Censored(quotes[i].at, s.at + p.horizon))
  {
    hide BisectLeft, BisectRight, FirstHit, Reached, IsEntry, HorizonSeen, QuotesOrdered, Net;
    EntryIs(p, s, quotes, i);
    HitIsReached(p, s, quotes, i);
    HorizonSeenIff(p, s, quotes, i);
    EntryTimely(p, s, quotes, i);
    assert Entry(p, quotes[i]) == quotes[i].ask + quotes[i].ask * p.slippageBps / 10000.0;
  }

  lemma EntryTimely(p: Policy, s: Setup, quotes: seq<Quote>, i: nat)
    requires IsEntry(p, s, quotes, i)
    ensures i < |quotes| && quotes[i].at - s.at <= p.quoteAge
  {
  }

  /** A resolved outcome is left at the exit quote, for its reason, and nets what buying at the ask and selling at the bid
      leave after slippage against the trade on both sides and two fees. */
  lemma ResolvedIs(p: Policy, s: Setup, quotes: seq<Quote>, i: nat)
    requires p.Valid() && QuotesOrdered(quotes) && IsEntry(p, s, quotes, i) && Settle(p, s, quotes).Resolved?
    ensures var o := Settle(p, s, quotes);
      exists x: nat :: IsExit(p, s, quotes, i, x)
        && o.entryAt == quotes[i].at && o.exitAt == quotes[x].at
        && o.reason == (if quotes[x].bid <= s.stop then Stop else if quotes[x].bid >= s.target then Target else Horizon)
        && (o.reason == Horizon <==> forall k: nat :: !Reached(p, s, quotes, i, k))
        && (o.horizonObserved <==> HorizonSeen(p, s, quotes))
        && var cut := p.slippageBps / 10000.0;
          var paid, got := p.shares * (quotes[i].ask + quotes[i].ask * cut), p.shares * (quotes[x].bid - quotes[x].bid * cut);
          o.net == got - p.fee - paid - p.fee
  {
    hide BisectLeft, FirstHit, Reached, IsEntry, HorizonSeen, QuotesOrdered, Net, Entry, IsExit;
    EntryIs(p, s, quotes, i);
    HitIsReached(p, s, quotes, i);
    HorizonSeenIff(p, s, quotes, i);
    EntryTimely(p, s, quotes, i);
    var j := BisectRight(quotes, s.at + p.horizon);
    var hit := FirstHit(s, quotes, i, j);
    var x := if hit < j then hit else j - 1;
    ExitIs(p, s, quotes, i, x);
    NetIs(p, quotes[i], quotes[x]);
    if hit == j {
      NotReached(p, s, quotes, i, x);
    }
    ReachedMeans(p, s, quotes, i, x);
  }

  lemma NotReached(p: Policy, s: Setup, quotes: seq<Quote>, i: nat, x: nat)
    requires IsExit(p, s, quotes, i, x) && !Reached(p, s, quotes, i, x)
    ensures quotes[x].bid > s.stop && quotes[x].bid < s.target
  {
  }

  lemma ReachedMeans(p: Policy, s: Setup, quotes: seq<Quote>, i: nat, x: nat)
    requires x < |quotes|
    ensures Reached(p, s, quotes, i, x) ==> quotes[x].bid <= s.stop || quotes[x].bid >= s.target
  {
  }

  lemma ExitIs(p: Policy, s: Setup, quotes: seq<Quote>, i: nat, x: nat)
    requires p.Valid() && QuotesOrdered(quotes) && IsEntry(p, s, quotes, i)
    requires var j := BisectRight(quotes, s.at + p.horizon);
      i < j <= |quotes| && var hit := FirstHit(s, quotes, i, j); x == if hit < j then hit else j - 1
    ensures IsExit(p, s, quotes, i, x)
  {
    HitIsReached(p, s, quotes, i);
  }

  lemma NetIs(p: Policy, bought: Quote, sold: Quote)
    ensures var cut := p.slippageBps / 10000.0;
      Net(p, Entry(p, bought), sold.bid)
        == p.shares * (sold.bid - sold.bid * cut) - p.fee - p.shares * (bought.ask + bought.ask * cut) - p.fee
  {
  }

  // ---------- Samples ----------

  datatype Family = PrebreakPressure | BreakoutFamily | AcceptedFamily

  datatype Obstacle = TooLittleVolume | TooLittleActivity | QuoteUnavailable | WideSpread | NoRoomOrStop

  datatype Sample = Sample(family: Family, at: real, level: Level, close: real, stop: real, target: real,
                           blocked: seq<Obstacle>, outcome: Outcome)
  {
    function Key(): (Family, Id) {
      (family, LevelId(level))
    }

    function Plan(): Setup {
      Setup(at, stop, target)
    }
  }

  function If(condition: bool, o: Obstacle): seq<Obstacle> {
    if condition then [o] else []
  }

  /** The spread test divides by the sum of bid and ask; nothing else is asked of a quote. */
  predicate Divisible(quotes: seq<Quote>) {
    forall q :: q in quotes ==> q.ask + q.bid != 0.0
  }

  /** Everything that forbids an entry, from the candle and the last quote at or before it. */
  function Obstacles(p: Policy, row: Row, stop: real, target: real, quotes: seq<Quote>): seq<Obstacle>
    requires Divisible(quotes)
  {
    var qi := BisectRight(quotes, row.at);
    If(row.shares < p.minShares || row.dollars < p.minDollars, TooLittleVolume)
    + If(Min(row.rate10, row.rate60) < p.minTradeRate, TooLittleActivity)
    + (if qi == 0 || row.at - quotes[qi - 1].at > p.quoteAge then [QuoteUnavailable]
       else
         var q := quotes[qi - 1];
         assert q in quotes;
         If(2.0 * (q.ask - q.bid) / (q.ask + q.bid) * 10000.0 > p.maxSpreadBps, WideSpread)
         + If(!(0.0 < stop < q.bid) || target <= q.ask, NoRoomOrStop))
  }

  /** The last quote at or before a time, no older than one quote age. */
  predicate IsFresh(p: Policy, quotes: seq<Quote>, at: real, k: nat) {
    && k < |quotes| && at - p.quoteAge <= quotes[k].at <= at
    && forall j :: k < j < |quotes| ==> quotes[j].at > at
  }

  /** Each obstacle is named exactly when its cause is there. */
  lemma ObstaclesAre(p: Policy, row: Row, stop: real, target: real, quotes: seq<Quote>)
    requires p.Valid() && QuotesOrdered(quotes) && Divisible(quotes)
    ensures var o := Obstacles(p, row, stop, target, quotes);
      && (TooLittleVolume in o <==> row.shares < p.minShares || row.dollars < p.minDollars)
      && (TooLittleActivity in o <==> row.rate10 < p.minTradeRate || row.rate60 < p.minTradeRate)
      && (QuoteUnavailable in o <==> forall k: nat :: !IsFresh(p, quotes, row.at, k))
      && (forall k: nat :: IsFresh(p, quotes, row.at, k) ==>
            var q := quotes[k];
            && (q.ask + q.bid > 0.0 ==>
                  (WideSpread in o <==> (q.ask - q.bid) * 20000.0 > p.maxSpreadBps * (q.ask + q.bid)))
            && (NoRoomOrStop in o <==> stop <= 0.0 || stop >= q.bid || target <= q.ask))
      && (QuoteUnavailable in o ==> WideSpread !in o && NoRoomOrStop !in o)
  {
    hide BisectRight, QuotesOrdered, IsFresh;
    var n := BisectRight(quotes, row.at);
    FreshIs(p, quotes, row.at);
    if n != 0 && row.at - quotes[n - 1].at <= p.quoteAge {
      SpreadIs(p, quotes[n - 1]);
    }
  }

  lemma FreshIs(p: Policy, quotes: seq<Quote>, at: real)
    requires p.Valid() && QuotesOrdered(quotes)
    ensures var n := BisectRight(quotes, at);
      var recent := n != 0 && at - quotes[n - 1].at <= p.quoteAge;
      && (recent ==> IsFresh(p, quotes, at, n - 1))
      && forall k: nat :: IsFresh(p, quotes, at, k) ==> recent && k == n - 1
  {
    var n := BisectRight(quotes, at);
    forall k: nat | IsFresh(p, quotes, at, k) ensures k == n - 1 {
      assert k < n;
      assert quotes[n - 1].at <= at;
    }
  }

  lemma SpreadIs(p: Policy, q: Quote)
    requires q.ask + q.bid > 0.0 || q.ask + q.bid != 0.0
    ensures q.ask + q.bid > 0.0 ==>
      (2.0 * (q.ask - q.bid) / (q.ask + q.bid) * 10000.0 > p.maxSpreadBps
       <==> (q.ask - q.bid) * 20000.0 > p.maxSpreadBps * (q.ask + q.bid))
  {
    if q.ask + q.bid > 0.0 {
      var sum, x := q.ask + q.bid, 2.0 * (q.ask - q.bid) / (q.ask + q.bid);
      assert x * sum == 2.0 * (q.ask - q.bid);
      assert x * 10000.0 * sum == (q.ask - q.bid) * 20000.0;
      if x * 10000.0 > p.maxSpreadBps {
        assert (x * 10000.0 - p.maxSpreadBps) * sum > 0.0;
      } else {
        assert (p.maxSpreadBps - x * 10000.0) * sum >= 0.0;
      }
    }
  }

  function Decide(p: Policy, row: Row, family: Family, level: Level, quotes: seq<Quote>): Sample
    requires p.Valid() && QuotesOrdered(quotes) && Divisible(quotes)
  {
    var stop, target := level.lower - p.tick, TargetFor(row, level);
    Sample(family, row.at, level, row.bar.close, stop, target, Obstacles(p, row, stop, target, quotes),
           Settle(p, Setup(row.at, stop, target), quotes))
  }

  lemma ObstaclesIgnoreFuture(p: Policy, row: Row, stop: real, target: real, quotes: seq<Quote>, other: seq<Quote>)
    requires Divisible(quotes) && Divisible(other)
    requires quotes[..BisectRight(quotes, row.at)] == other[..BisectRight(other, row.at)]
    ensures Obstacles(p, row, stop, target, quotes) == Obstacles(p, row, stop, target, other)
  {
    var n := BisectRight(quotes, row.at);
    assert |quotes[..n]| == |other[..BisectRight(other, row.at)]|;
    assert n > 0 ==> quotes[..n][n - 1] == other[..n][n - 1];
  }

  /** No lookahead: two quote histories that agree up to a candle give the same decision there, whatever follows. */
  lemma DecisionIgnoresFuture(p: Policy, row: Row, family: Family, level: Level, quotes: seq<Quote>, other: seq<Quote>)
    requires p.Valid() && QuotesOrdered(quotes) && QuotesOrdered(other)
    requires Divisible(quotes) && Divisible(other)
    requires quotes[..BisectRight(quotes, row.at)] == other[..BisectRight(other, row.at)]
    ensures Decide(p, row, family, level, quotes)
         == Decide(p, row, family, level, other).(outcome := Decide(p, row, family, level, quotes).outcome)
  {
    hide Settle, Obstacles;
    ObstaclesIgnoreFuture(p, row, level.lower - p.tick, TargetFor(row, level), quotes, other);
  }

  /** Resistances whose top is at or within ten basis points above the close. */
  function Nearby(levels: seq<Level>, close: real): seq<Level> {
    if levels == [] then []
    else (if levels[0].resistance && close <= levels[0].upper <= close * 1.001 then [levels[0]] else [])
         + Nearby(levels[1..], close)
  }

  function LowestTop(levels: seq<Level>): (l: Level)
    requires levels != []
    ensures l in levels && forall m :: m in levels ==> l.upper <= m.upper
  {
    if |levels| == 1 then levels[0]
    else
      var rest := LowestTop(levels[1..]);
      if levels[0].upper <= rest.upper then levels[0] else rest
  }

  function Breakouts(events: seq<Event>): seq<(Family, Level)> {
    if events == [] then []
    else
      (match events[0].state
       case Breakout => [(BreakoutFamily, events[0].level)]
       case BreakoutAccepted => [(AcceptedFamily, events[0].level)]
       case _ => [])
      + Breakouts(events[1..])
  }

  /** Three rising closes that keep rising into a nearby resistance. */
  function Candidates(row: Row, previous: seq<real>): seq<(Family, Level)> {
    var nearby := Nearby(row.levels, row.bar.close);
    Breakouts(row.events)
    + if |previous| == 3 && previous[0] < previous[1] < previous[2] < row.bar.close && nearby != []
      then [(PrebreakPressure, LowestTop(nearby))] else []
  }

  /** A resistance the close is about to reach: its top at or within ten basis points above. */
  predicate IsNearby(row: Row, l: Level) {
    l in row.levels && l.resistance && row.bar.close <= l.upper && l.upper <= row.bar.close + row.bar.close / 1000.0
  }

  lemma {:induction false} NearbyIs(levels: seq<Level>, close: real, l: Level)
    ensures l in Nearby(levels, close) <==> l in levels && l.resistance && close <= l.upper <= close + close / 1000.0
  {
    if levels != [] {
      NearbyIs(levels[1..], close, l);
      assert l in levels <==> l == levels[0] || l in levels[1..];
      assert close * 1.001 == close + close / 1000.0;
    }
  }

  predicate Announces(events: seq<Event>, family: Family, level: Level) {
    exists e :: e in events && e.level == level
      && ((family == BreakoutFamily && e.state == Breakout) || (family == AcceptedFamily && e.state == BreakoutAccepted))
  }

  lemma {:induction false} BreakoutsAre(events: seq<Event>, family: Family, level: Level)
    ensures (family, level) in Breakouts(events) <==> Announces(events, family, level)
  {
    if events != [] {
      BreakoutsAre(events[1..], family, level);
      assert forall e :: e in events <==> e == events[0] || e in events[1..];
    }
  }

  /** A candle's candidates: each level it breaks or accepts, and after three rising closes and a fourth the nearby
      resistance with the lowest top. */
  lemma CandidatesAre(row: Row, previous: seq<real>, family: Family, level: Level)
    ensures family != PrebreakPressure ==>
      ((family, level) in Candidates(row, previous) <==> Announces(row.events, family, level))
    ensures (PrebreakPressure, level) in Candidates(row, previous) ==>
      && |previous| == 3 && previous[0] < previous[1] && previous[1] < previous[2] && previous[2] < row.bar.close
      && IsNearby(row, level) && forall m :: IsNearby(row, m) ==> level.upper <= m.upper
    ensures |previous| == 3 && previous[0] < previous[1] && previous[1] < previous[2] && previous[2] < row.bar.close
            && (exists l :: IsNearby(row, l)) ==>
      exists l :: (PrebreakPressure, l) in Candidates(row, previous)
  {
    BreakoutsAre(row.events, family, level);
    BreakoutsAre(row.events, PrebreakPressure, level);
    var nearby := Nearby(row.levels, row.bar.close);
    forall l ensures l in nearby <==> IsNearby(row, l) {
      NearbyIs(row.levels, row.bar.close, l);
    }
    if nearby != [] {
      assert nearby[0] in nearby;
      assert |previous| == 3 && previous[0] < previous[1] < previous[2] < row.bar.close ==>
        Candidates(row, previous)[|Breakouts(row.events)|] == (PrebreakPressure, LowestTop(nearby));
    }
  }

  /** The closes of the up to three candles before the k-th. */
  function ClosesBefore(rows: seq<Row>, k: nat): seq<real>
    requires k <= |rows|
  {
    var from := if k >= 3 then k - 3 else 0;
    seq(k - from, i requires 0 <= i < k - from => rows[from + i].bar.close)
  }

  function CandidatesAt(rows: seq<Row>, k: nat): seq<(Family, Level)>
    requires k < |rows|
  {
    Candidates(rows[k], ClosesBefore(rows, k))
  }

  /** The samples emitted so far, each from one candidate of one candle already passed. */
  ghost predicate Sampled(p: Policy, rows: seq<Row>, quotes: seq<Quote>, s: Sample, k: nat, c: nat)
    requires p.Valid() && QuotesOrdered(quotes) && Divisible(quotes)
  {
    && k < |rows| && c < |CandidatesAt(rows, k)|
    && s == Decide(p, rows[k], CandidatesAt(rows, k)[c].0, CandidatesAt(rows, k)[c].1, quotes)
  }

  /** What a sample says of its candle: the stop a tick below the level's band, the lowest overhead resistance as target, the
      obstacles and the outcome of just that plan. */
  lemma SampleMeans(p: Policy, rows: seq<Row>, quotes: seq<Quote>, s: Sample, k: nat, c: nat)
    requires p.Valid() && QuotesOrdered(quotes) && Divisible(quotes) && Sampled(p, rows, quotes, s, k, c)
    ensures s.at == rows[k].at && s.close == rows[k].bar.close && s.stop + p.tick == s.level.lower
    ensures IsTarget(rows[k], s.level, s.target)
    ensures if s.family == PrebreakPressure then IsNearby(rows[k], s.level) else Announces(rows[k].events, s.family, s.level)
    ensures s.blocked == Obstacles(p, rows[k], s.stop, s.target, quotes) && s.outcome == Settle(p, s.Plan(), quotes)
  {
    hide Settle, Obstacles, TargetFor, Candidates, IsNearby, Announces;
    TargetIs(rows[k], s.level);
    CandidatesAre(rows[k], ClosesBefore(rows, k), s.family, s.level);
    assert (s.family, s.level) == CandidatesAt(rows, k)[c];
  }

  /** A candidate is passed over only when its own level was sampled less than the repeat window before it; the window
      also opens at time zero. */
  ghost predicate Covered(p: Policy, samples: seq<Sample>, at: real, key: (Family, Id)) {
    || at < p.repeatLevel
    || exists n :: 0 <= n < |samples| && samples[n].Key() == key && at - p.repeatLevel < samples[n].at <= at
  }

  predicate Spaced(p: Policy, samples: seq<Sample>) {
    forall m, n :: 0 <= m < n < |samples| ==>
      && samples[m].at <= samples[n].at
      && (samples[m].Key() == samples[n].Key() ==> samples[n].at - samples[m].at >= p.repeatLevel)
  }

  /** The time a level was last sampled in a family. */
  ghost predicate LastSampled(samples: seq<Sample>, last: map<(Family, Id), real>) {
    && (forall key :: key in last ==> exists n :: 0 <= n < |samples| && samples[n].Key() == key && samples[n].at == last[key])
    && (forall n :: 0 <= n < |samples| ==> samples[n].Key() in last && samples[n].at <= last[samples[n].Key()])
  }

  ghost predicate FromCandidate(p: Policy, rows: seq<Row>, quotes: seq<Quote>, s: Sample)
    requires p.Valid() && QuotesOrdered(quotes) && Divisible(quotes)
  {
    exists k: nat, c: nat :: Sampled(p, rows, quotes, s, k, c)
  }

  ghost predicate AllSampled(p: Policy, rows: seq<Row>, quotes: seq<Quote>, samples: seq<Sample>)
    requires p.Valid() && QuotesOrdered(quotes) && Divisible(quotes)
  {
    forall n :: 0 <= n < |samples| ==> FromCandidate(p, rows, quotes, samples[n])
  }

  /** Every candidate of the first k candles, and the first c of the next one, is sampled or passed over for cause. */
  ghost predicate AllCovered(p: Policy, rows: seq<Row>, samples: seq<Sample>, count: nat, c: nat) {
    forall k: nat, d: nat :: k < |rows| && d < |CandidatesAt(rows, k)| && (k < count || (k == count && d < c)) ==>
      Covered(p, samples, rows[k].at, KeyOf(CandidatesAt(rows, k)[d]))
  }

  function KeyOf(candidate: (Family, Level)): (Family, Id) {
    (candidate.0, LevelId(candidate.1))
  }

  /** Samples repeat one another when they are of one family and of one level: one unified identity, or none and both edges. */
  lemma KeyIff(s: Sample, family: Family, level: Level)
    ensures s.Key() == KeyOf((family, level)) <==>
      && s.family == family && s.level.unified == level.unified
      && (level.unified == "" ==> s.level.lower == level.lower && s.level.upper == level.upper)
  {
    assert LevelId(s.level) == LevelId(level) <==>
      s.level.unified == level.unified && (level.unified == "" ==> s.level.lower == level.lower && s.level.upper == level.upper);
  }

  ghost predicate Sampling(p: Policy, rows: seq<Row>, quotes: seq<Quote>, samples: seq<Sample>, last: map<(Family, Id), real>,
                           k: nat, c: nat)
    requires p.Valid() && QuotesOrdered(quotes) && Divisible(quotes)
  {
    && AllSampled(p, rows, quotes, samples) && Spaced(p, samples) && LastSampled(samples, last)
    && AllCovered(p, rows, samples, k, c)
    && (forall n :: 0 <= n < |samples| && k < |rows| ==> samples[n].at <= rows[k].at)
  }

  lemma CoveredGrows(p: Policy, samples: seq<Sample>, s: Sample, at: real, key: (Family, Id))
    requires Covered(p, samples, at, key)
    ensures Covered(p, samples + [s], at, key)
  {
    if at >= p.repeatLevel {
      var n :| 0 <= n < |samples| && samples[n].Key() == key && at - p.repeatLevel < samples[n].at <= at;
      assert (samples + [s])[n] == samples[n];
    }
  }

  /** A candidate whose level was sampled too recently is rightly passed over. */
  lemma SkipKeeps(p: Policy, rows: seq<Row>, quotes: seq<Quote>, samples: seq<Sample>, last: map<(Family, Id), real>, k: nat, c: nat)
    requires p.Valid() && QuotesOrdered(quotes) && Divisible(quotes)
    requires Sampling(p, rows, quotes, samples, last, k, c) && k < |rows| && c < |CandidatesAt(rows, k)|
    requires var key := KeyOf(CandidatesAt(rows, k)[c]);
      rows[k].at - (if key in last then last[key] else 0.0) < p.repeatLevel
    ensures Sampling(p, rows, quotes, samples, last, k, c + 1)
  {
    var key := KeyOf(CandidatesAt(rows, k)[c]);
    if key in last {
      var n :| 0 <= n < |samples| && samples[n].Key() == key && samples[n].at == last[key];
      assert Covered(p, samples, rows[k].at, key);
    }
  }

  lemma SpacedGrows(p: Policy, samples: seq<Sample>, last: map<(Family, Id), real>, s: Sample)
    requires Spaced(p, samples) && LastSampled(samples, last)
    requires forall n :: 0 <= n < |samples| ==> samples[n].at <= s.at
    requires s.Key() in last ==> s.at - last[s.Key()] >= p.repeatLevel
    ensures Spaced(p, samples + [s])
  {
    hide Decide, LevelId;
    var longer := samples + [s];
    forall m, n | 0 <= m < n < |longer|
      ensures longer[m].at <= longer[n].at
      ensures longer[m].Key() == longer[n].Key() ==> longer[n].at - longer[m].at >= p.repeatLevel
    {
      assert longer[m] == samples[m];
      assert n < |samples| ==> longer[n] == samples[n];
    }
  }

  lemma LastGrows(samples: seq<Sample>, last: map<(Family, Id), real>, s: Sample)
    requires LastSampled(samples, last) && forall n :: 0 <= n < |samples| ==> samples[n].at <= s.at
    ensures LastSampled(samples + [s], last[s.Key() := s.at])
  {
    hide LevelId;
    var longer, next := samples + [s], last[s.Key() := s.at];
    forall key | key in next
      ensures exists n :: 0 <= n < |longer| && longer[n].Key() == key && longer[n].at == next[key]
    {
      if key == s.Key() {
        assert longer[|samples|] == s;
      } else {
        var n :| 0 <= n < |samples| && samples[n].Key() == key && samples[n].at == last[key];
        assert longer[n] == samples[n];
      }
    }
  }

  lemma CoverageGrows(p: Policy, rows: seq<Row>, samples: seq<Sample>, s: Sample, k: nat, c: nat)
    requires p.Valid() && AllCovered(p, rows, samples, k, c) && k < |rows| && c < |CandidatesAt(rows, k)|
    requires s.Key() == KeyOf(CandidatesAt(rows, k)[c]) && s.at == rows[k].at
    ensures AllCovered(p, rows, samples + [s], k, c + 1)
  {
    hide CandidatesAt, LevelId;
    var longer := samples + [s];
    forall i: nat, d: nat | i < |rows| && d < |CandidatesAt(rows, i)| && (i < k || (i == k && d < c + 1))
      ensures Covered(p, longer, rows[i].at, KeyOf(CandidatesAt(rows, i)[d]))
    {
      if i == k && d == c {
        assert longer[|samples|].Key() == KeyOf(CandidatesAt(rows, k)[c]);
      } else {
        CoveredGrows(p, samples, s, rows[i].at, KeyOf(CandidatesAt(rows, i)[d]));
      }
    }
  }

  /** A candidate far enough from its level's last sample becomes the next sample. */
  lemma EmitKeeps(p: Policy, rows: seq<Row>, quotes: seq<Quote>, samples: seq<Sample>, last: map<(Family, Id), real>, k: nat, c: nat)
    requires p.Valid() && QuotesOrdered(quotes) && Divisible(quotes)
    requires Sampling(p, rows, quotes, samples, last, k, c) && k < |rows| && c < |CandidatesAt(rows, k)|
    requires var key := KeyOf(CandidatesAt(rows, k)[c]);
      rows[k].at - (if key in last then last[key] else 0.0) >= p.repeatLevel
    ensures var (family, level) := CandidatesAt(rows, k)[c];
      Sampling(p, rows, quotes, samples + [Decide(p, rows[k], family, level, quotes)],
               last[KeyOf(CandidatesAt(rows, k)[c]) := rows[k].at], k, c + 1)
  {
    hide CandidatesAt, LevelId, Obstacles, Settle, LastSampled, Spaced, AllCovered;
    var (family, level) := CandidatesAt(rows, k)[c];
    var s := Decide(p, rows[k], family, level, quotes);
    assert s.Key() == KeyOf(CandidatesAt(rows, k)[c]);
    SpacedGrows(p, samples, last, s);
    LastGrows(samples, last, s);
    assert Sampled(p, rows, quotes, s, k, c);
    CoverageGrows(p, rows, samples, s, k, c);
  }

  lemma RowDone(p: Policy, rows: seq<Row>, quotes: seq<Quote>, samples: seq<Sample>, last: map<(Family, Id), real>, k: nat)
    requires p.Valid() && QuotesOrdered(quotes) && Divisible(quotes) && RowsOrdered(rows)
    requires k < |rows| && Sampling(p, rows, quotes, samples, last, k, |CandidatesAt(rows, k)|)
    ensures Sampling(p, rows, quotes, samples, last, k + 1, 0)
  {
  }

  lemma NothingSampled(p: Policy, rows: seq<Row>, quotes: seq<Quote>)
    requires p.Valid() && QuotesOrdered(quotes) && Divisible(quotes)
    ensures Sampling(p, rows, quotes, [], map[], 0, 0)
  {
  }

  method SampleRow(p: Policy, rows: seq<Row>, quotes: seq<Quote>, k: nat, candidates: seq<(Family, Level)>,
                   samples0: seq<Sample>, last0: map<(Family, Id), real>)
    returns (samples: seq<Sample>, last: map<(Family, Id), real>)
    requires p.Valid() && QuotesOrdered(quotes) && Divisible(quotes)
    requires k < |rows| && candidates == CandidatesAt(rows, k) && Sampling(p, rows, quotes, samples0, last0, k, 0)
    ensures Sampling(p, rows, quotes, samples, last, k, |candidates|)
  {
    hide Sampling, CandidatesAt, Decide;
    samples, last := samples0, last0;
    var c := 0;
    while c < |candidates|
      invariant 0 <= c <= |candidates| && Sampling(p, rows, quotes, samples, last, k, c)
    {
      var (family, level) := candidates[c];
      var key := (family, LevelId(level));
      if rows[k].at - (if key in last then last[key] else 0.0) < p.repeatLevel {
        SkipKeeps(p, rows, quotes, samples, last, k, c);
      } else {
        EmitKeeps(p, rows, quotes, samples, last, k, c);
        last := last[key := rows[k].at];
        samples := samples + [Decide(p, rows[k], family, level, quotes)];
      }
      c := c + 1;
    }
  }

  datatype Study = Study(samples: seq<Sample>) | Refused(error: Error)

  /** Every sample is one candidate of one candle; samples come in time order, those of one level in one family at
      least the repeat window apart; and no candidate is lost outside that window. */
  ghost predicate Complete(p: Policy, rows: seq<Row>, quotes: seq<Quote>, samples: seq<Sample>)
    requires p.Valid() && QuotesOrdered(quotes) && Divisible(quotes)
  {
    && AllSampled(p, rows, quotes, samples) && Spaced(p, samples) && AllCovered(p, rows, samples, |rows|, 0)
  }

  predicate AllRowsOk(rows: seq<Row>) {
    forall k :: 0 <= k < |rows| ==> RowOk(rows[k])
  }

  method SampleRows(p: Policy, rows: seq<Row>, quotes: seq<Quote>) returns (r: Study)
    requires p.Valid() && QuotesOrdered(quotes) && RowsOrdered(rows) && Divisible(quotes)
    ensures r.Refused? ==> !AllRowsOk(rows) && r == Refused(FutureConfirmation)
    ensures r.Study? ==> AllRowsOk(rows) && Complete(p, rows, quotes, r.samples)
  {
    hide Sampling, Candidates, Decide, RowOk;
    var samples: seq<Sample>, last: map<(Family, Id), real>, previous: seq<real> := [], map[], [];
    NothingSampled(p, rows, quotes);
    var k := 0;
    while k < |rows|
      invariant 0 <= k <= |rows| && previous == ClosesBefore(rows, k)
      invariant forall i :: 0 <= i < k ==> RowOk(rows[i])
      invariant Sampling(p, rows, quotes, samples, last, k, 0)
    {
      if !RowOk(rows[k]) {
        return Refused(FutureConfirmation);
      }
      var candidates := Candidates(rows[k], previous);
      previous := (if |previous| == 3 then previous[1..] else previous) + [rows[k].bar.close];
      samples, last := SampleRow(p, rows, quotes, k, candidates, samples, last);
      RowDone(p, rows, quotes, samples, last, k);
      k := k + 1;
    }
    SamplingEnds(p, rows, quotes, samples, last);
    return Study(samples);
  }

  lemma SamplingEnds(p: Policy, rows: seq<Row>, quotes: seq<Quote>, samples: seq<Sample>, last: map<(Family, Id), real>)
    requires p.Valid() && QuotesOrdered(quotes) && Divisible(quotes)
    requires Sampling(p, rows, quotes, samples, last, |rows|, 0)
    ensures Complete(p, rows, quotes, samples)
  {
  }

  /** Unordered inputs and evidence from the future are refused; anything else yields a complete study. */
  method EvaluateRows(p: Policy, rows: seq<Row>, quotes: seq<Quote>) returns (r: Study)
    requires p.Valid() && Divisible(quotes)
    ensures r.Study? <==> QuotesOrdered(quotes) && RowsOrdered(rows) && AllRowsOk(rows)
    ensures r.Study? ==> Complete(p, rows, quotes, r.samples)
    ensures r.Refused? ==> r.error == if !QuotesOrdered(quotes) then UnorderedQuotes
                                      else if !RowsOrdered(rows) then UnorderedCandles else FutureConfirmation
  {
    hide Complete, AllRowsOk;
    var ordered := QuotesInOrder(quotes);
    if !ordered {
      return Refused(UnorderedQuotes);
    }
    ordered := CandlesOrdered(rows);
    if !ordered {
      return Refused(UnorderedCandles);
    }
    r := SampleRows(p, rows, quotes);
  }

  // ---------- One position per family ----------

  /** How long an accepted opportunity keeps its family busy. */
  function BusyUntil(p: Policy, s: Sample): real {
    match s.outcome
    case Resolved(_, _, exitAt, _, _, _) => exitAt
    case Censored(_, reservedUntil) => reservedUntil
    case _ => s.at + p.quoteAge
  }

  /** When a family is free again after a prefix of its samples. */
  function Free(p: Policy, samples: seq<Sample>): real {
    if samples == [] then 0.0
    else
      var before, s := Free(p, samples[..|samples| - 1]), samples[|samples| - 1];
      if s.blocked == [] && s.at > before then BusyUntil(p, s) else before
  }

  predicate Taken(p: Policy, samples: seq<Sample>, n: nat)
    requires n < |samples|
  {
    samples[n].blocked == [] && samples[n].at > Free(p, samples[..n])
  }

  predicate Settled(p: Policy, samples: seq<Sample>, quotes: seq<Quote>)
    requires p.Valid() && QuotesOrdered(quotes)
  {
    forall n :: 0 <= n < |samples| ==> samples[n].outcome == Settle(p, samples[n].Plan(), quotes)
  }

  /** A taken opportunity keeps its family busy past its own decision, and the family's time never runs back. */
  lemma {:induction false} FreeGrows(p: Policy, samples: seq<Sample>, quotes: seq<Quote>, n: nat)
    requires p.Valid() && QuotesOrdered(quotes) && Settled(p, samples, quotes) && n <= |samples|
    ensures Free(p, samples[..n]) <= Free(p, samples)
    decreases |samples|
  {
    if n < |samples| {
      var head := samples[..|samples| - 1];
      FreeGrows(p, head, quotes, n);
      assert head[..n] == samples[..n];
      SettleTimes(p, samples[|samples| - 1].Plan(), quotes);
    } else {
      assert samples[..n] == samples;
    }
  }

  /** Trades of one family never overlap: each is decided, so entered, only after every earlier one is over. */
  lemma TakenDoNotOverlap(p: Policy, samples: seq<Sample>, quotes: seq<Quote>, m: nat, n: nat)
    requires p.Valid() && QuotesOrdered(quotes) && Settled(p, samples, quotes)
    requires m < n < |samples| && Taken(p, samples, m) && Taken(p, samples, n)
    ensures samples[n].at > BusyUntil(p, samples[m])
    ensures samples[m].outcome.Resolved? && samples[n].outcome.Resolved? ==>
      samples[m].outcome.entryAt <= samples[m].outcome.exitAt < samples[n].outcome.entryAt
  {
    var upTo := samples[..m + 1];
    assert upTo[..m] == samples[..m] && Free(p, upTo) == BusyUntil(p, samples[m]);
    FreeGrows(p, samples[..n], quotes, m + 1);
    assert samples[..n][..m + 1] == upTo;
    SettleTimes(p, samples[m].Plan(), quotes);
    SettleTimes(p, samples[n].Plan(), quotes);
  }

  /** When the opportunity no longer occupies its family, if it was taken: its exit, the end of the horizon it could not be
      resolved in, or one quote age when it could not be entered. */
  predicate OverBy(p: Policy, s: Sample, t: real) {
    match s.outcome
    case Resolved(_, _, exitAt, _, _, _) => t > exitAt
    case Censored(_, reservedUntil) => t > reservedUntil
    case NoTimelyEntryQuote => t > s.at + p.quoteAge
    case InvalidAtExecution => t > s.at + p.quoteAge
  }

  /** An opportunity is taken exactly when nothing blocks it and every one taken before it in its family is over. */
  lemma TakenIff(p: Policy, samples: seq<Sample>, quotes: seq<Quote>, n: nat)
    requires p.Valid() && QuotesOrdered(quotes) && Settled(p, samples, quotes) && n < |samples|
    ensures Taken(p, samples, n) <==>
      && samples[n].blocked == [] && samples[n].at > 0.0
      && forall m: nat :: m < n && Taken(p, samples, m) ==> OverBy(p, samples[m], samples[n].at)
  {
    FreeGrows(p, samples[..n], quotes, 0);
    if Taken(p, samples, n) {
      forall m: nat | m < n && Taken(p, samples, m) ensures OverBy(p, samples[m], samples[n].at) {
        TakenDoNotOverlap(p, samples, quotes, m, n);
      }
    } else if samples[n].blocked == [] && samples[n].at > 0.0 {
      var m := LastTaken(p, samples, n);
      assert Taken(p, samples, m) && !OverBy(p, samples[m], samples[n].at);
    }
  }

  /** A busy family is busy with the last opportunity taken. */
  lemma {:induction false} LastTaken(p: Policy, samples: seq<Sample>, n: nat) returns (m: nat)
    requires n <= |samples| && Free(p, samples[..n]) > 0.0
    ensures m < n && Taken(p, samples, m) && Free(p, samples[..n]) == BusyUntil(p, samples[m])
  {
    var upTo := samples[..n];
    assert upTo[..n - 1] == samples[..n - 1] && upTo[n - 1] == samples[n - 1];
    if Taken(p, samples, n - 1) {
      m := n - 1;
    } else {
      m := LastTaken(p, samples, n - 1);
    }
  }

  /** The trades of a prefix of a family's samples. */
  function TradesOf(p: Policy, samples: seq<Sample>): seq<Outcome> {
    if samples == [] then []
    else
      var n := |samples| - 1;
      TradesOf(p, samples[..n])
      + if Taken(p, samples, n) && samples[n].outcome.Resolved? then [samples[n].outcome] else []
  }

  function UnresolvedOf(p: Policy, samples: seq<Sample>): nat {
    if samples == [] then 0
    else
      var n := |samples| - 1;
      UnresolvedOf(p, samples[..n]) + if Taken(p, samples, n) && samples[n].outcome.Censored? then 1 else 0
  }

  function OfFamily(samples: seq<Sample>, family: Family): seq<Sample> {
    if samples == [] then []
    else (if samples[0].family == family then [samples[0]] else []) + OfFamily(samples[1..], family)
  }

  predicate TakenResolved(p: Policy, samples: seq<Sample>, n: nat) {
    n < |samples| && Taken(p, samples, n) && samples[n].outcome.Resolved?
  }

  predicate TakenCensored(p: Policy, samples: seq<Sample>, n: nat) {
    n < |samples| && Taken(p, samples, n) && samples[n].outcome.Censored?
  }

  lemma PrefixTaken(p: Policy, samples: seq<Sample>, m: nat)
    requires samples != []
    ensures var n, head := |samples| - 1, samples[..|samples| - 1];
      && (TakenResolved(p, head, m) <==> m < n && TakenResolved(p, samples, m))
      && (TakenCensored(p, head, m) <==> m < n && TakenCensored(p, samples, m))
  {
    if m < |samples| - 1 {
      assert samples[..|samples| - 1][..m] == samples[..m];
    }
  }

  lemma LastTrade(p: Policy, samples: seq<Sample>)
    requires samples != []
    ensures var n := |samples| - 1;
      && TradesOf(p, samples)
         == TradesOf(p, samples[..n]) + (if TakenResolved(p, samples, n) then [samples[n].outcome] else [])
      && UnresolvedOf(p, samples) == UnresolvedOf(p, samples[..n]) + if TakenCensored(p, samples, n) then 1 else 0
  {
    hide Taken;
  }

  ghost predicate TradedAt(p: Policy, samples: seq<Sample>, at: seq<nat>) {
    && |TradesOf(p, samples)| == |at|
    && (forall i :: 0 <= i < |at| ==> at[i] < |samples| && TradesOf(p, samples)[i] == samples[at[i]].outcome)
    && (forall i, j :: 0 <= i < j < |at| ==> at[i] < at[j])
    && (forall n: nat :: TakenResolved(p, samples, n) <==> n in at)
  }

  lemma TradedNext(p: Policy, samples: seq<Sample>, early: seq<nat>)
    requires samples != [] && TradedAt(p, samples[..|samples| - 1], early)
    ensures var n := |samples| - 1;
      TradedAt(p, samples, if TakenResolved(p, samples, n) then early + [n] else early)
  {
    hide Taken, TradesOf, UnresolvedOf;
    var n, head := |samples| - 1, samples[..|samples| - 1];
    LastTrade(p, samples);
    var at := if TakenResolved(p, samples, n) then early + [n] else early;
    forall m: nat ensures TakenResolved(p, samples, m) <==> m in at {
      PrefixTaken(p, samples, m);
      assert m < n ==> (TakenResolved(p, head, m) <==> m in early);
      assert m >= n ==> m !in early;
    }
    hide TakenResolved;
    forall i | 0 <= i < |at| ensures at[i] < |samples| && TradesOf(p, samples)[i] == samples[at[i]].outcome {
      assert i < |early| ==> head[early[i]] == samples[early[i]];
    }
  }

  /** The trades are the outcomes of exactly the opportunities taken and resolved, in order ... */
  lemma {:induction false} TradesAre(p: Policy, samples: seq<Sample>) returns (at: seq<nat>)
    ensures |TradesOf(p, samples)| == |at|
    ensures forall i :: 0 <= i < |at| ==> at[i] < |samples| && TradesOf(p, samples)[i] == samples[at[i]].outcome
    ensures forall i, j :: 0 <= i < j < |at| ==> at[i] < at[j]
    ensures forall n: nat :: TakenResolved(p, samples, n) <==> n in at
    decreases |samples|
  {
    at := [];
    if samples != [] {
      hide Taken, TakenResolved, TradesOf;
      at := TradesAre(p, samples[..|samples| - 1]);
      TradedNext(p, samples, at);
      at := if TakenResolved(p, samples, |samples| - 1) then at + [|samples| - 1] else at;
    }
  }

  /** ... and the unresolved count is that of the ones taken and censored. */
  lemma {:induction false} UnresolvedAre(p: Policy, samples: seq<Sample>) returns (at: set<nat>)
    ensures UnresolvedOf(p, samples) == |at| && forall n: nat :: TakenCensored(p, samples, n) <==> n in at
    decreases |samples|
  {
    at := {};
    if samples != [] {
      hide Taken, UnresolvedOf;
      var n, head := |samples| - 1, samples[..|samples| - 1];
      var early := UnresolvedAre(p, head);
      LastTrade(p, samples);
      at := if TakenCensored(p, samples, n) then early + {n} else early;
      forall m: nat ensures TakenCensored(p, samples, m) <==> m in at {
        PrefixTaken(p, samples, m);
        assert TakenCensored(p, head, m) <==> m in early;
      }
      assert !TakenCensored(p, head, n);
    }
  }

  lemma {:induction false} FamilyIs(samples: seq<Sample>, family: Family, s: Sample)
    ensures s in OfFamily(samples, family) <==> s in samples && s.family == family
  {
    if samples != [] {
      FamilyIs(samples[1..], family, s);
      assert s in samples <==> s == samples[0] || s in samples[1..];
    }
  }

  lemma Unselected(p: Policy, samples: seq<Sample>)
    ensures Free(p, samples[..0]) == 0.0 && TradesOf(p, samples[..0]) == [] && UnresolvedOf(p, samples[..0]) == 0
  {
  }

  lemma NextOpportunity(p: Policy, samples: seq<Sample>, n: nat)
    requires n < |samples|
    ensures var s, free := samples[n], Free(p, samples[..n]);
      var taken := s.blocked == [] && s.at > free;
      && Free(p, samples[..n + 1]) == (if taken then BusyUntil(p, s) else free)
      && TradesOf(p, samples[..n + 1])
         == TradesOf(p, samples[..n]) + (if taken && s.outcome.Resolved? then [s.outcome] else [])
      && UnresolvedOf(p, samples[..n + 1])
         == UnresolvedOf(p, samples[..n]) + (if taken && s.outcome.Censored? then 1 else 0)
  {
    assert samples[..n + 1][..n] == samples[..n];
  }

  /** The selection loop takes exactly the opportunities whose family is free, in order. */
  method SelectTrades(p: Policy, samples: seq<Sample>, family: Family) returns (trades: seq<Outcome>, unresolved: nat)
    ensures trades == TradesOf(p, OfFamily(samples, family))
    ensures unresolved == UnresolvedOf(p, OfFamily(samples, family))
  {
    hide OfFamily, Free, TradesOf, UnresolvedOf;
    var selected := OfFamily(samples, family);
    Unselected(p, selected);
    trades, unresolved := [], 0;
    var available := 0.0;
    var n := 0;
    while n < |selected|
      invariant 0 <= n <= |selected| && available == Free(p, selected[..n])
      invariant trades == TradesOf(p, selected[..n]) && unresolved == UnresolvedOf(p, selected[..n])
    {
      var s := selected[n];
      NextOpportunity(p, selected, n);
      if s.blocked == [] && s.at > available {
        match s.outcome
        case Resolved(_, _, exitAt, _, _, _) =>
          trades := trades + [s.outcome];
          available := exitAt;
        case Censored(_, reservedUntil) =>
          unresolved := unresolved + 1;
          available := reservedUntil;
        case _ =>
          available := s.at + p.quoteAge;
      }
      n := n + 1;
    }
    assert selected[..n] == selected;
  }
}
