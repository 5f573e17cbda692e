/** What a replay writes in its journal, and when: every sale, purchase, exit request, stop and entry request follows from the
    candles and quotes seen so far and from the journal itself. */
module ReplayLaws {
  import opened Common
  import opened ReplayModel
  import opened ReplayAudit
  import opened ReplayRuns

  // ---------- What the journal says of the position held ----------

  /** The journal from the purchase still held; empty once everything bought has been sold. */
  function Open(journal: seq<Entry>): (span: seq<Entry>)
    ensures span != [] ==> span[0].Buy?
    decreases |journal|
  {
    if journal == [] then []
    else
      var n := |journal| - 1;
      var e, span := journal[n], Open(journal[..n]);
      if e.Buy? then [e]
      else if span == [] || (e.Sell? && e.quantity == span[0].quantity - SoldQuantity(span)) then []
      else span + [e]
  }

  lemma OpenSnoc(journal: seq<Entry>, e: Entry)
    ensures var span := Open(journal);
      Open(journal + [e]) ==
        if e.Buy? then [e]
        else if span == [] || (e.Sell? && e.quantity == span[0].quantity - SoldQuantity(span)) then [] else span + [e]
  {
    assert (journal + [e])[..|journal|] == journal;
  }

  /** The stop in force: the last one raised, or the purchase's own. */
  function StopOf(span: seq<Entry>): real {
    if span == [] then 0.0
    else
      var e := span[|span| - 1];
      if e.RaiseStop? || e.Buy? then e.stop else StopOf(span[..|span| - 1])
  }

  /** When a structural exit was first asked for. */
  function FirstAsked(span: seq<Entry>): Option<real> {
    if span == [] then None
    else
      var before := FirstAsked(span[..|span| - 1]);
      if before.None? && span[|span| - 1].ExitRequested? then Some(span[|span| - 1].at) else before
  }

  /** The target has been sold at. */
  predicate Took(span: seq<Entry>) {
    exists i :: 0 <= i < |span| && span[i].Sell? && span[i].reason == ProfitTarget
  }

  lemma SpanEnds(span: seq<Entry>, e: Entry)
    ensures StopOf(span + [e]) == if e.RaiseStop? || e.Buy? then e.stop else StopOf(span)
    ensures FirstAsked(span + [e])
      == if FirstAsked(span).None? && e.ExitRequested? then Some(e.at) else FirstAsked(span)
    ensures Took(span + [e]) <==> Took(span) || (e.Sell? && e.reason == ProfitTarget)
    ensures SoldQuantity(span + [e]) == SoldQuantity(span) + if e.Sell? then e.quantity else 0
  {
    var longer := span + [e];
    assert longer[..|span|] == span && longer[|span|] == e;
    if Took(span) {
      var i :| 0 <= i < |span| && span[i].Sell? && span[i].reason == ProfitTarget;
      assert longer[i] == span[i];
    }
  }

  /** A purchase that no other follows is held, with all that follows it, exactly until its sales add up to it. */
  lemma {:induction false} OpenIs(journal: seq<Entry>, from: nat)
    requires from < |journal| && journal[from].Buy? && forall i :: from < i < |journal| ==> !journal[i].Buy?
    ensures Open(journal) == if exists k :: SoldOut(journal, from, k) then [] else journal[from..]
    decreases |journal|
  {
    hide SoldOut, Open, SoldQuantity;
    var n := |journal| - 1;
    var head := journal[..n];
    assert journal == head + [journal[n]];
    OpenSnoc(head, journal[n]);
    if from == n {
      assert journal[from..] == [journal[n]];
      forall k ensures !SoldOut(journal, from, k) {
        SoldOutIs(journal, from, k);
      }
    } else {
      OpenIs(head, from);
      forall k ensures SoldOut(head, from, k) <==> k != n && SoldOut(journal, from, k) {
        SoldOutBefore(journal, from, k);
      }
      SoldOutLast(journal, from);
      assert SoldOut(journal, from, n) || (exists k :: SoldOut(head, from, k)) <==> exists k :: SoldOut(journal, from, k);
    }
  }

  lemma SoldOutIs(journal: seq<Entry>, from: nat, k: int)
    requires from < |journal| && journal[from].Buy?
    ensures SoldOut(journal, from, k) ==> from < k < |journal|
  {
  }

  lemma SoldOutBefore(journal: seq<Entry>, from: nat, k: int)
    requires from < |journal| - 1 && journal[from].Buy?
    ensures var n := |journal| - 1; SoldOut(journal[..n], from, k) <==> k != n && SoldOut(journal, from, k)
  {
    var head := journal[..|journal| - 1];
    if from < k < |head| {
      assert head[from..k + 1] == journal[from..k + 1];
    }
  }

  lemma SoldOutLast(journal: seq<Entry>, from: nat)
    requires from < |journal| - 1 && journal[from].Buy?
    ensures var n, span := |journal| - 1, journal[..|journal| - 1][from..];
      && span != [] && span[0] == journal[from] && journal[from..] == span + [journal[n]]
      && (SoldOut(journal, from, n) <==> journal[n].Sell? && journal[n].quantity == span[0].quantity - SoldQuantity(span))
  {
    var n, span := |journal| - 1, journal[..|journal| - 1][from..];
    assert journal[from..] == span + [journal[n]] == journal[from..n + 1];
    SpanEnds(span, journal[n]);
  }

  /** The sales since a purchase add up to it at this entry. */
  predicate SoldOut(journal: seq<Entry>, from: nat, k: int)
    requires from < |journal| && journal[from].Buy?
  {
    from < k < |journal| && journal[k].Sell? && SoldQuantity(journal[from..k + 1]) == journal[from].quantity
  }

  lemma {:induction false} NeverOpen(journal: seq<Entry>)
    requires forall i :: 0 <= i < |journal| ==> !journal[i].Buy?
    ensures Open(journal) == []
    decreases |journal|
  {
    if journal != [] {
      NeverOpen(journal[..|journal| - 1]);
    }
  }

  lemma {:induction false} StopIs(span: seq<Entry>, k: nat)
    requires k < |span| && (span[k].RaiseStop? || span[k].Buy?)
    requires forall i :: k < i < |span| ==> !span[i].RaiseStop? && !span[i].Buy?
    ensures StopOf(span) == span[k].stop
    decreases |span|
  {
    if k < |span| - 1 {
      StopIs(span[..|span| - 1], k);
    }
  }

  lemma {:induction false} FirstAskedIs(span: seq<Entry>)
    ensures FirstAsked(span).None? <==> forall i :: 0 <= i < |span| ==> !span[i].ExitRequested?
    ensures FirstAsked(span).Some? ==>
      exists k :: 0 <= k < |span| && span[k].ExitRequested? && FirstAsked(span) == Some(span[k].at)
                  && forall i :: 0 <= i < k ==> !span[i].ExitRequested?
    decreases |span|
  {
    if span != [] {
      var n := |span| - 1;
      FirstAskedIs(span[..n]);
      assert forall i :: 0 <= i < n ==> span[..n][i] == span[i];
    }
  }

  /** When a position was last sold out. */
  function LastExit(journal: seq<Entry>): Option<real>
    decreases |journal|
  {
    if journal == [] then None
    else
      var n := |journal| - 1;
      if journal[n].Sell? && Open(journal[..n]) != [] && Open(journal) == [] then Some(journal[n].at)
      else LastExit(journal[..n])
  }

  lemma LastExitSnoc(journal: seq<Entry>, e: Entry)
    ensures LastExit(journal + [e])
      == if e.Sell? && Open(journal) != [] && Open(journal + [e]) == [] then Some(e.at) else LastExit(journal)
  {
    assert (journal + [e])[..|journal|] == journal;
  }

  // ---------- What has been seen ----------

  lemma SeenCons(x: Input, rest: seq<Input>)
    ensures RowsIn([x] + rest) == (if x.R? then [x.row] else []) + RowsIn(rest)
    ensures QuotesIn([x] + rest) == (if x.Q? then [x.quote] else []) + QuotesIn(rest)
  {
    assert ([x] + rest)[1..] == rest;
  }

  lemma NothingSeen()
    ensures RowsIn([]) == [] && QuotesIn([]) == []
  {
  }

  lemma {:induction false} RowsSnoc(inputs: seq<Input>, x: Input)
    ensures RowsIn(inputs + [x]) == RowsIn(inputs) + if x.R? then [x.row] else []
    ensures QuotesIn(inputs + [x]) == QuotesIn(inputs) + if x.Q? then [x.quote] else []
  {
    hide RowsIn, QuotesIn;
    NothingSeen();
    if inputs == [] {
      assert inputs + [x] == [x] + [];
      SeenCons(x, []);
    } else {
      var rest := inputs[1..];
      RowsSnoc(rest, x);
      assert inputs == [inputs[0]] + rest && inputs + [x] == [inputs[0]] + (rest + [x]);
      SeenCons(inputs[0], rest);
      SeenCons(inputs[0], rest + [x]);
    }
  }

  lemma {:induction false} RowSeen(inputs: seq<Input>, row: Row)
    ensures row in RowsIn(inputs) <==> R(row) in inputs
  {
    if inputs != [] {
      RowSeen(inputs[1..], row);
      assert R(row) in inputs <==> R(row) == inputs[0] || R(row) in inputs[1..];
    }
  }

  lemma {:induction false} QuoteSeen(inputs: seq<Input>, q: Quote)
    ensures q in QuotesIn(inputs) <==> Q(q) in inputs
  {
    if inputs != [] {
      QuoteSeen(inputs[1..], q);
      assert Q(q) in inputs <==> Q(q) == inputs[0] || Q(q) in inputs[1..];
    }
  }

  /** Nothing seen before is later than the next input, and no candle as late as a quote that follows it. */
  lemma SeenBefore(inputs: seq<Input>, x: Input)
    requires Chronological(inputs + [x])
    ensures Chronological(inputs)
    ensures forall r :: r in RowsIn(inputs) ==> r.at <= x.At() && (x.Q? ==> r.at < x.At())
    ensures forall q :: q in QuotesIn(inputs) ==> q.at <= x.At()
  {
    var all := inputs + [x];
    assert forall i :: 0 <= i < |inputs| ==> all[i] == inputs[i];
    assert all[|inputs|] == x;
    forall r | r in RowsIn(inputs) ensures r.at <= x.At() && (x.Q? ==> r.at < x.At()) {
      RowSeen(inputs, r);
      var i :| 0 <= i < |inputs| && inputs[i] == R(r);
      assert all[i].At() <= all[|inputs|].At();
    }
    forall q | q in QuotesIn(inputs) ensures q.at <= x.At() {
      QuoteSeen(inputs, q);
      var i :| 0 <= i < |inputs| && inputs[i] == Q(q);
      assert all[i].At() <= all[|inputs|].At();
    }
  }

  /** How many of the latest candles since a time closed below a price, one after another. */
  function Below(rows: seq<Row>, since: real, price: real): nat {
    if rows == [] then 0
    else
      var r := rows[|rows| - 1];
      if r.at < since || r.bar.close >= price then 0 else 1 + Below(rows[..|rows| - 1], since, price)
  }

  lemma BelowSnoc(rows: seq<Row>, r: Row, since: real, price: real)
    ensures Below(rows + [r], since, price)
      == if r.at < since || r.bar.close >= price then 0 else 1 + Below(rows, since, price)
  {
    assert (rows + [r])[..|rows|] == rows;
  }

  lemma BelowTwiceIff(rows: seq<Row>, since: real, price: real)
    ensures Below(rows, since, price) >= 2 <==>
      |rows| >= 2 && forall i :: |rows| - 2 <= i < |rows| ==> rows[i].at >= since && rows[i].bar.close < price
  {
    if |rows| >= 2 {
      var n := |rows| - 1;
      assert rows[..n][n - 1] == rows[n - 1];
    }
  }

  // ---------- What the machine remembers is what was seen and written ----------

  predicate Opened(c: Config, rows: seq<Row>, s: Machine) {
    var span := Open(s.journal);
    match s.position
    case None => span == []
    case Some(p) =>
      && span != [] && span[0] == BuyOf(c, p)
      && p.remaining == c.rules.shares - SoldQuantity(span) && p.stop == StopOf(span) && p.tookProfit == Took(span)
      && p.exitDue == (if FirstAsked(span).Some? then Some(FirstAsked(span).value + c.Latency()) else None)
      && p.belowCount == Below(rows, p.entryAt, p.order.level.lower)
  }

  /** The journal ends in an entry request no quote has come due for yet. */
  predicate Waiting(c: Config, quotes: seq<Quote>, journal: seq<Entry>) {
    && journal != [] && journal[|journal| - 1].EntryRequested?
    && var e := journal[|journal| - 1]; forall q :: q in quotes && q.at > e.at ==> q.at < e.at + c.Latency()
  }

  function OrderOf(c: Config, e: Entry): Order
    requires e.EntryRequested?
  {
    Order(e.at, e.at + c.Latency(), e.stop, e.target, e.level)
  }

  ghost predicate Awaits(c: Config, rows: seq<Row>, quotes: seq<Quote>, s: Machine) {
    && (s.pending.Some? <==> Waiting(c, quotes, s.journal))
    && (s.pending.Some? ==> s.pending.value == OrderOf(c, s.journal[|s.journal| - 1]))
    && (s.journal != [] && s.journal[|s.journal| - 1].EntryRequested? ==>
          exists r :: r in rows && r.at == s.journal[|s.journal| - 1].at)
  }

  function LastBars(rows: seq<Row>): seq<Bar> {
    var from := if |rows| > 3 then |rows| - 3 else 0;
    seq(|rows| - from, i requires 0 <= i < |rows| - from => rows[from + i].bar)
  }

  function LastQuote(quotes: seq<Quote>): Option<Quote> {
    if quotes == [] then None else Some(quotes[|quotes| - 1])
  }

  /** The remembered breakout of a level is its latest one. */
  ghost predicate LatestBreak(rows: seq<Row>, breaks: map<Id, real>, id: Id) {
    if id in breaks then
      && (exists r :: r in rows && BreaksLevel(r, id) && r.at == breaks[id])
      && (forall r :: r in rows && BreaksLevel(r, id) ==> r.at <= breaks[id])
    else forall r :: r in rows ==> !BreaksLevel(r, id)
  }

  ghost predicate BreaksSeen(rows: seq<Row>, breaks: map<Id, real>) {
    forall id :: LatestBreak(rows, breaks, id)
  }

  ghost predicate Knows(c: Config, done: seq<Input>, s: Machine) {
    && Opened(c, RowsIn(done), s) && Awaits(c, RowsIn(done), QuotesIn(done), s)
    && s.quote == LastQuote(QuotesIn(done)) && s.bars == LastBars(RowsIn(done))
    && BreaksSeen(RowsIn(done), s.breaks) && s.exit == LastExit(s.journal)
    && (s.quote.Some? ==> QuoteOk(s.quote.value)) && (s.position.Some? ==> s.pending.None? && s.position.value.remaining > 0)
    && (s.position.Some? ==> QuotedAt(QuotesIn(done), s.position.value.entryAt))
  }

  predicate QuotedAt(quotes: seq<Quote>, t: real) {
    exists q :: q in quotes && q.at == t
  }

  lemma KnowsNothing(c: Config)
    ensures Knows(c, [], INITIAL)
  {
  }

  // ---------- Sales ----------

  /** What was bought less what was sold of it. */
  function Held(span: seq<Entry>): int
    requires span != [] && span[0].Buy?
  {
    span[0].quantity - SoldQuantity(span)
  }

  /** The four causes to sell at a quote, most urgent first. */
  predicate Causes(c: Config, span: seq<Entry>, q: Quote, reason: ExitReason)
    requires span != [] && span[0].Buy?
  {
    match reason
    case ProtectiveStop => q.bid <= StopOf(span)
    case WindowEnd => q.at >= c.end
    case StructuralFailure => FirstAsked(span).Some? && q.at >= FirstAsked(span).value + c.rules.latencyMs / 1000.0
    case ProfitTarget => q.bid >= span[0].target && !Took(span)
  }

  function Urgency(reason: ExitReason): nat {
    match reason
    case ProtectiveStop => 0
    case WindowEnd => 1
    case StructuralFailure => 2
    case ProfitTarget => 3
  }

  /** The most urgent cause there is. */
  predicate FirstCause(c: Config, span: seq<Entry>, q: Quote, reason: ExitReason)
    requires span != [] && span[0].Buy?
  {
    Causes(c, span, q, reason) && forall r :: Urgency(r) < Urgency(reason) ==> !Causes(c, span, q, r)
  }

  /** Slippage goes against the trade on both sides. */
  function SoldAt(c: Config, q: Quote): real {
    q.bid - q.bid * c.rules.slippageBps / 10000.0
  }

  function BoughtAt(c: Config, q: Quote): real {
    q.ask + q.ask * c.rules.slippageBps / 10000.0
  }

  /** Everything held is sold at the bid less slippage; at the target half of it when exits are partial. */
  function SaleOf(c: Config, span: seq<Entry>, q: Quote, reason: ExitReason): Entry
    requires span != [] && span[0].Buy?
  {
    Sell(q.at, if reason == ProfitTarget && c.partial then Held(span) / 2 else Held(span),
         SoldAt(c, q), reason, StopOf(span))
  }

  lemma Discounted(c: Config, q: Quote)
    ensures SalePrice(c, q) == SoldAt(c, q)
    ensures FillPrice(c, q) == BoughtAt(c, q)
  {
  }

  /** A machine that marks the target as sold at when that is why it sells. */
  function Marked(s: Machine, reason: ExitReason): Machine
    requires s.position.Some?
  {
    var held := s.position.value;
    s.(position := Some(held.(tookProfit := held.tookProfit || reason == ProfitTarget)))
  }

  lemma SaleKnown(c: Config, rows: seq<Row>, s: Machine, q: Quote, quantity: int, reason: ExitReason)
    requires c.rules.shares > 0 && Opened(c, rows, s) && s.position.Some? && s.exit == LastExit(s.journal)
    requires 0 <= quantity <= s.position.value.remaining && s.position.value.remaining > 0
    ensures var span, t := Open(s.journal), Sold(c, Marked(s, reason), q, quantity, reason);
      && t.journal == s.journal + [Sell(q.at, quantity, SoldAt(c, q), reason, StopOf(span))]
      && Opened(c, rows, t) && t.exit == LastExit(t.journal)
      && (t.position.Some? ==> t.position.value.remaining == s.position.value.remaining - quantity > 0)
  {
    hide StopOf, FirstAsked, Took, SoldQuantity, Open, LastExit, Below, SalePrice, SoldAt, BoughtAt;
    Discounted(c, q);
    var span, t := Open(s.journal), Sold(c, Marked(s, reason), q, quantity, reason);
    var e := t.journal[|s.journal|];
    assert t.journal == s.journal + [e];
    OpenSnoc(s.journal, e);
    LastExitSnoc(s.journal, e);
    SpanEnds(span, e);
  }

  lemma CausesAre(c: Config, rows: seq<Row>, s: Machine, q: Quote)
    requires c.rules.shares > 0 && Opened(c, rows, s) && s.position.Some?
    ensures var span, p := Open(s.journal), s.position.value;
      && span != [] && Held(span) == p.remaining && StopOf(span) == p.stop
      && (Causes(c, span, q, ProtectiveStop) <==> q.bid <= p.stop)
      && (Causes(c, span, q, WindowEnd) <==> q.at >= c.end)
      && (Causes(c, span, q, StructuralFailure) <==> p.exitDue.Some? && q.at >= p.exitDue.value)
      && (Causes(c, span, q, ProfitTarget) <==> q.bid >= p.order.target && !p.tookProfit)
  {
    hide StopOf, FirstAsked, Took, SoldQuantity, Open;
  }

  lemma ExitsFor(c: Config, s: Machine, q: Quote, reason: ExitReason)
    requires s.position.Some?
    requires var p := s.position.value;
      match reason
      case ProtectiveStop => q.bid <= p.stop
      case WindowEnd => q.bid > p.stop && q.at >= c.end && q.at - c.end <= c.rules.quoteAge
      case StructuralFailure => q.bid > p.stop && q.at < c.end && p.exitDue.Some? && q.at >= p.exitDue.value
      case ProfitTarget =>
        q.bid > p.stop && q.at < c.end && (p.exitDue.Some? ==> q.at < p.exitDue.value) && q.bid >= p.order.target && !p.tookProfit
    ensures var p := s.position.value;
      Exits(c, s, q) == Sold(c, Marked(s, reason), q,
                             if reason == ProfitTarget && c.partial then p.remaining / 2 else p.remaining, reason)
  {
    if reason != ProfitTarget {
      assert Marked(s, reason) == s;
    }
  }

  /** A quote after which the position, if any, is still as the journal says. */
  predicate StillKnown(c: Config, rows: seq<Row>, s: Machine, t: Machine, q: Quote) {
    && Opened(c, rows, t) && t.exit == LastExit(t.journal) && (t.position.Some? ==> t.position.value.remaining > 0)
    && t.pending.None? && t.quote == Some(q) && t.bars == s.bars && t.breaks == s.breaks
  }

  predicate Ready(c: Config, rows: seq<Row>, s: Machine) {
    && c.rules.shares > 0 && Opened(c, rows, s) && s.exit == LastExit(s.journal)
    && s.position.Some? && s.position.value.remaining > 0 && s.pending.None?
  }

  /** A quote that gives a cause sells for the most urgent one. */
  lemma ExitSells(c: Config, rows: seq<Row>, s: Machine, q: Quote, reason: ExitReason)
    requires Ready(c, rows, s) && QuoteOk(q)
    requires Open(s.journal) != [] && FirstCause(c, Open(s.journal), q, reason)
    requires reason == WindowEnd ==> q.at <= c.end + c.rules.quoteAge
    ensures var t := QuoteStep(c, s, q);
      StillKnown(c, rows, s, t, q) && t.journal == s.journal + [SaleOf(c, Open(s.journal), q, reason)]
  {
    CausesAre(c, rows, s, q);
    NoEarlierCause(c, Open(s.journal), q, reason);
    hide Opened, LastExit, Open, Causes, FirstCause, Sold, StopOf, Held, Exits, SoldAt;
    var s1, p := s.(quote := Some(q)), s.position.value;
    var quantity := if reason == ProfitTarget && c.partial then p.remaining / 2 else p.remaining;
    QuoteHeard(c, rows, s, q);
    ExitsFor(c, s1, q, reason);
    SaleKnown(c, rows, s1, q, quantity, reason);
    SoldFrame(c, s1, q, quantity, reason);
  }

  lemma NoEarlierCause(c: Config, span: seq<Entry>, q: Quote, reason: ExitReason)
    requires span != [] && span[0].Buy? && FirstCause(c, span, q, reason)
    ensures reason != ProtectiveStop ==> !Causes(c, span, q, ProtectiveStop)
    ensures reason == StructuralFailure || reason == ProfitTarget ==> !Causes(c, span, q, WindowEnd)
    ensures reason == ProfitTarget ==> !Causes(c, span, q, StructuralFailure)
    ensures Causes(c, span, q, reason)
  {
    hide Causes;
    assert Urgency(ProtectiveStop) == 0 && Urgency(WindowEnd) == 1 && Urgency(StructuralFailure) == 2;
  }

  /** A quote that gives none, or that comes too late after the window for any but the stop, changes nothing. */
  lemma ExitHolds(c: Config, rows: seq<Row>, s: Machine, q: Quote)
    requires c.Valid() && Ready(c, rows, s) && QuoteOk(q) && Open(s.journal) != []
    requires var span := Open(s.journal);
      && !Causes(c, span, q, ProtectiveStop)
      && ((q.at > c.end + c.rules.quoteAge) || forall reason :: !Causes(c, span, q, reason))
    ensures var t := QuoteStep(c, s, q); StillKnown(c, rows, s, t, q) && t.journal == s.journal
  {
    CausesAre(c, rows, s, q);
    hide Opened, LastExit, Open, Causes, FirstCause, Sold, StopOf, Held;
    QuoteHeard(c, rows, s, q);
    assert QuoteStep(c, s, q) == s.(quote := Some(q));
  }

  lemma QuoteHeard(c: Config, rows: seq<Row>, s: Machine, q: Quote)
    requires Opened(c, rows, s)
    ensures Opened(c, rows, s.(quote := Some(q)))
  {
  }

  lemma SoldFrame(c: Config, s: Machine, q: Quote, quantity: int, reason: ExitReason)
    requires s.position.Some?
    ensures var t := Sold(c, Marked(s, reason), q, quantity, reason);
      t.pending == s.pending && t.quote == s.quote && t.bars == s.bars && t.breaks == s.breaks
  {
  }

  // ---------- Purchases ----------

  /** What buying the shares at this quote would pay with the target reached, and cost with the stop reached, all fees and
      slippage counted. */
  function Won(c: Config, q: Quote, target: real): real {
    var n, cut := c.rules.shares as real, c.rules.slippageBps / 10000.0;
    n * (target - target * cut) - n * (q.ask + q.ask * cut) - 2.0 * c.rules.fee
  }

  function Lost(c: Config, q: Quote, stop: real): real {
    var n, cut := c.rules.shares as real, c.rules.slippageBps / 10000.0;
    n * (q.ask + q.ask * cut) - n * (stop - stop * cut) + 2.0 * c.rules.fee
  }

  /** A quote worth entering at: stop below and target above it, the stop far enough away, the win worth the loss, the spread
      narrow. */
  predicate GoodFill(c: Config, q: Quote, stop: real, target: real) {
    && 0.0 < stop && stop < q.bid && q.ask < target
    && q.bid - stop + 0.000000001 >= c.rules.stopTicks * c.rules.tick
    && q.bid - stop + 0.000000001 >= c.rules.stopSpreads * (q.ask - q.bid)
    && Won(c, q, target) >= c.rules.minRewardRisk * Lost(c, q, stop)
    && (q.ask - q.bid) * 20000.0 <= c.rules.maxSpreadBps * (q.ask + q.bid)
  }

  lemma QualityIff(c: Config, q: Quote, stop: real, target: real)
    requires c.rules.shares > 0 && QuoteOk(q)
    ensures Quality(c, q, stop, target) <==> GoodFill(c, q, stop, target)
  {
    var n, ask := c.rules.shares as real, FillPrice(c, q);
    Totals(c, q, stop, target);
    TimesShares(Reward(c, ask, target), c.rules.minRewardRisk * Risk(c, ask, stop), n);
    Quotient(20000.0 * (q.ask - q.bid), q.ask + q.bid, c.rules.maxSpreadBps);
  }

  lemma Totals(c: Config, q: Quote, stop: real, target: real)
    requires c.rules.shares > 0
    ensures var n, ask := c.rules.shares as real, FillPrice(c, q);
      && Won(c, q, target) == Reward(c, ask, target) * n
      && c.rules.minRewardRisk * Lost(c, q, stop) == c.rules.minRewardRisk * Risk(c, ask, stop) * n
  {
    var n, ask := c.rules.shares as real, FillPrice(c, q);
    assert c.FeesPerShare() * n == 2.0 * c.rules.fee;
    assert Lost(c, q, stop) == Risk(c, ask, stop) * n;
  }

  lemma TimesShares(x: real, y: real, n: real)
    requires n > 0.0
    ensures x >= y <==> x * n >= y * n
  {
    if x >= y {
      assert (x - y) * n >= 0.0;
    } else {
      assert (y - x) * n > 0.0;
    }
  }

  lemma Quotient(x: real, y: real, z: real)
    requires y > 0.0
    ensures x / y <= z <==> x <= z * y
  {
    var k := x / y;
    assert k * y == x;
    if k <= z {
      assert (z - k) * y >= 0.0;
    } else {
      assert (k - z) * y > 0.0;
    }
  }

  /** A quote buys when it is the first one due for the last request, in time, inside the window and worth entering at. */
  predicate Buys(c: Config, quotes: seq<Quote>, journal: seq<Entry>, q: Quote) {
    && Waiting(c, quotes, journal)
    && var e := journal[|journal| - 1];
      && e.at + c.rules.latencyMs / 1000.0 <= q.at && q.at <= e.at + c.rules.quoteAge && q.at < c.end
      && GoodFill(c, q, e.stop, e.target)
  }

  function PurchaseOf(c: Config, e: Entry, q: Quote): Entry
    requires e.EntryRequested?
  {
    Buy(q.at, e.at, c.rules.shares, BoughtAt(c, q), e.stop, e.target, e.level)
  }

  predicate Flat(c: Config, rows: seq<Row>, s: Machine) {
    c.rules.shares > 0 && Opened(c, rows, s) && s.exit == LastExit(s.journal) && s.position.None?
  }

  /** What a quote does while nothing is held. */
  lemma FillStep(c: Config, rows: seq<Row>, quotes: seq<Quote>, s: Machine, q: Quote)
    requires Flat(c, rows, s) && QuoteOk(q) && Awaits(c, rows, quotes, s) && forall r :: r in rows ==> r.at < q.at
    ensures var t := QuoteStep(c, s, q);
      && t.journal
         == s.journal + (if Buys(c, quotes, s.journal, q) then [PurchaseOf(c, s.journal[|s.journal| - 1], q)] else [])
      && Opened(c, rows, t) && t.exit == LastExit(t.journal) && Awaits(c, rows, quotes + [q], t)
      && t.quote == Some(q) && t.bars == s.bars && t.breaks == s.breaks
      && (t.position.Some? ==> t.pending.None? && t.position.value.remaining > 0 && t.position.value.entryAt == q.at)
  {
    hide Open, LastExit, Below, Quality, StopOf, FirstAsked, Took, SoldQuantity;
    var t := QuoteStep(c, s, q);
    var s1 := s.(quote := Some(q));
    assert t == Fills(c, s1, q);
    WaitingOn(c, rows, quotes, s, q);
    if s.pending.Some? {
      var e := s.journal[|s.journal| - 1];
      QualityIff(c, q, e.stop, e.target);
      if Buys(c, quotes, s.journal, q) {
        BoughtIs(c, rows, s1, q, e);
      }
    }
  }

  /** A quote after a request either leaves it waiting or comes due for it. */
  lemma WaitingOn(c: Config, rows: seq<Row>, quotes: seq<Quote>, s: Machine, q: Quote)
    requires Awaits(c, rows, quotes, s) && forall r :: r in rows ==> r.at < q.at
    ensures Waiting(c, quotes + [q], s.journal)
      <==> Waiting(c, quotes, s.journal) && q.at < s.journal[|s.journal| - 1].at + c.Latency()
  {
    if Waiting(c, quotes, s.journal) {
      assert q in quotes + [q];
    }
    assert forall x :: x in quotes ==> x in quotes + [q];
  }

  lemma BoughtIs(c: Config, rows: seq<Row>, s: Machine, q: Quote, e: Entry)
    requires c.rules.shares > 0 && e.EntryRequested? && s.exit == LastExit(s.journal) && forall r :: r in rows ==> r.at < q.at
    ensures var t := Filled(c, s, q, OrderOf(c, e));
      && t.journal == s.journal + [PurchaseOf(c, e, q)] && Opened(c, rows, t) && t.exit == LastExit(t.journal)
  {
    var b, t := PurchaseOf(c, e, q), Filled(c, s, q, OrderOf(c, e));
    Discounted(c, q);
    OpenSnoc(s.journal, b);
    LastExitSnoc(s.journal, b);
    JustBought(b);
    NoneBelow(rows, q.at, e.level.lower);
    hide Open, LastExit, StopOf, FirstAsked, Took, SoldQuantity, Below, FillPrice, BoughtAt, SoldAt, Spent;
  }

  lemma JustBought(b: Entry)
    requires b.Buy?
    ensures SoldQuantity([b]) == 0 && StopOf([b]) == b.stop && FirstAsked([b]).None? && !Took([b])
  {
    SpanEnds([], b);
    assert [] + [b] == [b];
  }

  lemma NoneBelow(rows: seq<Row>, since: real, price: real)
    requires forall r :: r in rows ==> r.at < since
    ensures Below(rows, since, price) == 0
  {
    if rows != [] {
      assert rows[|rows| - 1] in rows;
    }
  }

  // ---------- Candles while a position is held ----------

  /** The candle says that the level of the purchase failed. */
  predicate Fails(row: Row, level: Level) {
    exists e :: e in row.events && e.state == FailedBreakout && SameLevel(e.level, level)
  }

  /** The same unified id, or the same band when neither has one. */
  predicate SameLevel(a: Level, b: Level) {
    a.unified == b.unified && (a.unified == "" ==> a.lower == b.lower && a.upper == b.upper)
  }

  lemma SameLevelIff(a: Level, b: Level)
    ensures LevelId(a) == LevelId(b) <==> SameLevel(a, b)
  {
  }

  lemma FailsIff(row: Row, level: Level)
    ensures FailedAt(row.events, level) <==> Fails(row, level)
  {
    forall e: Event ensures LevelId(e.level) == LevelId(level) <==> SameLevel(e.level, level) {
      SameLevelIff(e.level, level);
    }
  }

  /** The two latest candles since the purchase both closed below its band. */
  predicate TwoBelow(rows: seq<Row>, buy: Entry)
    requires buy.Buy?
  {
    |rows| >= 2 && forall i :: |rows| - 2 <= i < |rows| ==> rows[i].at >= buy.at && rows[i].bar.close < buy.level.lower
  }

  /** A candle asks for the structural exit, once in the life of a position. */
  predicate Asks(rows: seq<Row>, span: seq<Entry>, row: Row)
    requires span != [] && span[0].Buy?
  {
    FirstAsked(span).None? && (Fails(row, span[0].level) || TwoBelow(rows, span[0]))
  }

  /** The three latest candles, contiguous, the middle one formed after the purchase and lower than both others. */
  predicate SwingSeen(rows: seq<Row>, buy: Entry)
    requires buy.Buy?
  {
    && |rows| >= 3
    && var a, b, d := rows[|rows| - 3].bar, rows[|rows| - 2].bar, rows[|rows| - 1].bar;
      a.end == b.time && b.end == d.time && b.time > buy.at && b.low < a.low && b.low < d.low
  }

  /** A candle raises the stop to a tick below a swing low, if that is higher and far enough below a recent bid. */
  predicate Raises(c: Config, rows: seq<Row>, quotes: seq<Quote>, span: seq<Entry>, row: Row)
    requires span != [] && span[0].Buy?
  {
    && SwingSeen(rows, span[0]) && quotes != []
    && var stop, q := rows[|rows| - 2].bar.low - c.rules.tick, quotes[|quotes| - 1];
      && row.at - q.at <= c.rules.quoteAge && StopOf(span) < stop && stop < q.bid
      && q.bid - stop >= c.rules.stopTicks * c.rules.tick && q.bid - stop >= c.rules.stopSpreads * (q.ask - q.bid)
  }

  function AskOf(rows: seq<Row>, span: seq<Entry>, row: Row): seq<Entry>
    requires span != [] && span[0].Buy?
  {
    if Asks(rows, span, row) then [ExitRequested(row.at)] else []
  }

  function RaiseOf(c: Config, rows: seq<Row>, quotes: seq<Quote>, span: seq<Entry>, row: Row): seq<Entry>
    requires span != [] && span[0].Buy?
  {
    if Raises(c, rows, quotes, span, row) then
      [RaiseStop(row.at, rows[|rows| - 2].bar.low - c.rules.tick, rows[|rows| - 2].bar.end)]
    else []
  }

  lemma BarsSnoc(rows: seq<Row>, row: Row)
    ensures LastThree(LastBars(rows), row.bar) == LastBars(rows + [row])
  {
  }

  lemma AskKnown(c: Config, rows: seq<Row>, s: Machine, row: Row)
    requires c.rules.shares > 0 && Opened(c, rows, s) && s.exit == LastExit(s.journal) && s.position.Some?
    requires row.at >= s.position.value.entryAt
    ensures var t, span := AskExit(c, s, row), Open(s.journal);
      && span != [] && t.journal == s.journal + AskOf(rows + [row], span, row)
      && Opened(c, rows + [row], t) && t.exit == LastExit(t.journal) && t.position.Some?
      && Open(t.journal) == span + AskOf(rows + [row], span, row)
      && t == s.(position := t.position, journal := t.journal)
      && t.position.value.remaining == s.position.value.remaining && t.position.value.entryAt == s.position.value.entryAt
  {
    hide Open, LastExit, StopOf, FirstAsked, Took, SoldQuantity, Below, FailedAt, Fails;
    var p, span := s.position.value, Open(s.journal);
    FailsIff(row, p.order.level);
    BelowSnoc(rows, row, p.entryAt, p.order.level.lower);
    BelowTwiceIff(rows + [row], p.entryAt, p.order.level.lower);
    Noted(s.journal, ExitRequested(row.at));
    assert s.journal + [] == s.journal && span + [] == span;
  }

  /** An entry that neither buys nor sells joins the open span. */
  lemma Noted(journal: seq<Entry>, e: Entry)
    requires !e.Buy? && !e.Sell? && Open(journal) != []
    ensures var span := Open(journal);
      && Open(journal + [e]) == span + [e] && LastExit(journal + [e]) == LastExit(journal)
      && StopOf(span + [e]) == (if e.RaiseStop? then e.stop else StopOf(span)) && (Took(span + [e]) <==> Took(span))
      && FirstAsked(span + [e]) == (if FirstAsked(span).None? && e.ExitRequested? then Some(e.at) else FirstAsked(span))
      && SoldQuantity(span + [e]) == SoldQuantity(span) && (span + [e])[0] == span[0]
  {
    OpenSnoc(journal, e);
    LastExitSnoc(journal, e);
    SpanEnds(Open(journal), e);
  }

  lemma SwingIff(rows: seq<Row>, buy: Entry)
    requires buy.Buy?
    ensures SwingLow(LastBars(rows), buy.at) <==> SwingSeen(rows, buy)
    ensures SwingSeen(rows, buy) ==> LastBars(rows)[1] == rows[|rows| - 2].bar
  {
  }

  lemma RaiseKnown(c: Config, rows: seq<Row>, quotes: seq<Quote>, s: Machine, row: Row)
    requires c.rules.shares > 0 && Opened(c, rows, s) && s.exit == LastExit(s.journal) && s.position.Some?
    requires s.bars == LastBars(rows) && s.quote == LastQuote(quotes)
    ensures var t, span := Ratchet(c, s, row), Open(s.journal);
      && span != [] && t.journal == s.journal + RaiseOf(c, rows, quotes, span, row)
      && Opened(c, rows, t) && t.exit == LastExit(t.journal) && t.position.Some?
      && t == s.(position := t.position, journal := t.journal)
      && t.position.value.remaining == s.position.value.remaining && t.position.value.entryAt == s.position.value.entryAt
  {
    hide Open, LastExit, StopOf, FirstAsked, Took, SoldQuantity, Below, SwingLow, SwingSeen, LastBars;
    var span := Open(s.journal);
    SwingIff(rows, span[0]);
    SwingMeans(rows, span[0]);
    if Raises(c, rows, quotes, span, row) {
      Noted(s.journal, RaiseStop(row.at, rows[|rows| - 2].bar.low - c.rules.tick, rows[|rows| - 2].bar.end));
    }
    assert s.journal + [] == s.journal;
  }

  lemma SwingMeans(rows: seq<Row>, buy: Entry)
    requires buy.Buy?
    ensures SwingSeen(rows, buy) ==> |rows| >= 3
  {
  }

  // ---------- Candles while nothing is held or asked for ----------

  /** Some candle broke the level after a time. */
  predicate BrokenSince(rows: seq<Row>, level: Level, t: real) {
    exists r :: r in rows && r.at > t && BreaksOut(r, level)
  }

  predicate BreaksOut(row: Row, level: Level) {
    exists e :: e in row.events && e.state == Breakout && SameLevel(e.level, level)
  }

  lemma BreaksIff(row: Row, level: Level)
    ensures BreaksLevel(row, LevelId(level)) <==> BreaksOut(row, level)
  {
    forall e: Event ensures LevelId(e.level) == LevelId(level) <==> SameLevel(e.level, level) {
      SameLevelIff(e.level, level);
    }
  }

  /** What may forbid an entry at an accepted breakout, in the order it is looked at. */
  ghost predicate Forbids(c: Config, rows: seq<Row>, quotes: seq<Quote>, journal: seq<Entry>, row: Row, level: Level,
                          why: BlockReason)
  {
    match why
    case FreshBreakRequired => LastExit(journal).Some? && !BrokenSince(rows, level, LastExit(journal).value)
    case SessionVolume => row.shares < c.rules.minShares || row.dollars < c.rules.minDollars
    case Activity => row.rate10 < c.rules.minTradeRate || row.rate60 < c.rules.minTradeRate
    case StaleQuote => quotes == [] || row.at > quotes[|quotes| - 1].at + c.rules.quoteAge
    case RoomStopOrSpread => quotes != [] && !RoomAt(c, quotes[|quotes| - 1], row, level)
    case EntryExpired => false
    case ExecutionQuality => false
  }

  /** The quote is worth entering at with the stop a tick below the level and the lowest overhead resistance as target. */
  ghost predicate RoomAt(c: Config, q: Quote, row: Row, level: Level) {
    exists target :: IsTarget(row, level, target) && GoodFill(c, q, level.lower - c.rules.tick, target)
  }

  function Rank(why: BlockReason): nat {
    match why
    case FreshBreakRequired => 0
    case SessionVolume => 1
    case Activity => 2
    case StaleQuote => 3
    case RoomStopOrSpread => 4
    case _ => 5
  }

  ghost predicate ForbidsFirst(c: Config, rows: seq<Row>, quotes: seq<Quote>, journal: seq<Entry>, row: Row, level: Level,
                               why: BlockReason)
  {
    && Forbids(c, rows, quotes, journal, row, level, why)
    && forall other :: Rank(other) < Rank(why) ==> !Forbids(c, rows, quotes, journal, row, level, other)
  }

  lemma TargetIsOne(row: Row, level: Level, a: real, b: real)
    requires IsTarget(row, level, a) && IsTarget(row, level, b)
    ensures a == b
  {
  }

  lemma RoomIff(c: Config, q: Quote, row: Row, level: Level)
    requires c.rules.shares > 0 && QuoteOk(q)
    ensures RoomAt(c, q, row, level) <==> Quality(c, q, level.lower - c.rules.tick, TargetFor(row, level))
  {
    hide IsTarget, GoodFill, Quality, TargetFor;
    TargetIs(row, level);
    QualityIff(c, q, level.lower - c.rules.tick, TargetFor(row, level));
    if target :| IsTarget(row, level, target) && GoodFill(c, q, level.lower - c.rules.tick, target) {
      TargetIsOne(row, level, target, TargetFor(row, level));
    }
  }

  lemma FreshIff(rows: seq<Row>, breaks: map<Id, real>, level: Level, t: real)
    requires BreaksSeen(rows, breaks)
    ensures LevelId(level) !in breaks || breaks[LevelId(level)] <= t <==> !BrokenSince(rows, level, t)
  {
    var id := LevelId(level);
    assert LatestBreak(rows, breaks, id);
    forall r: Row ensures BreaksLevel(r, id) <==> BreaksOut(r, level) {
      BreaksIff(r, level);
    }
    hide BreaksOut, BreaksLevel, LevelId;
    if id in breaks {
      var r :| r in rows && BreaksLevel(r, id) && r.at == breaks[id];
      assert BreaksOut(r, level);
    }
  }

  /** The gate refuses exactly for the first thing that forbids the entry. */
  lemma GateIff(c: Config, rows: seq<Row>, quotes: seq<Quote>, s: Machine, row: Row, level: Level)
    requires c.rules.shares > 0 && (s.quote.Some? ==> QuoteOk(s.quote.value))
    requires BreaksSeen(rows, s.breaks) && s.exit == LastExit(s.journal) && s.quote == LastQuote(quotes)
    ensures var g := Gate(c, s, row, level);
      && (g.Some? ==> ForbidsFirst(c, rows, quotes, s.journal, row, level, g.value))
      && (g.None? ==> forall why :: !Forbids(c, rows, quotes, s.journal, row, level, why))
  {
    hide BreaksSeen, LastExit, Quality, RoomAt, BrokenSince, LevelId, TargetFor;
    if s.exit.Some? {
      FreshIff(rows, s.breaks, level, s.exit.value);
    }
    if s.quote.Some? {
      RoomIff(c, s.quote.value, row, level);
    }
  }

  /** The levels a candle's events accept, in order. */
  function Accepted(events: seq<Event>): seq<Level> {
    if events == [] then []
    else (if events[0].state == BreakoutAccepted then [events[0].level] else []) + Accepted(events[1..])
  }

  /** The accepted breakouts are refused one after another, each for the first thing that forbids it, up to the first that
      nothing forbids, which is asked for. */
  ghost predicate Scans(c: Config, rows: seq<Row>, quotes: seq<Quote>, journal: seq<Entry>, row: Row, levels: seq<Level>,
                        written: seq<Entry>, n: nat)
  {
    && n <= |levels| && |written| == n + (if n < |levels| then 1 else 0)
    && (forall i :: 0 <= i < n ==> Refusal(c, rows, quotes, journal, row, levels[i], written[i]))
    && (n < |levels| ==> Request(c, rows, quotes, journal, row, levels[n], written[n]))
  }

  ghost predicate Refusal(c: Config, rows: seq<Row>, quotes: seq<Quote>, journal: seq<Entry>, row: Row, level: Level, e: Entry) {
    e.EntryBlocked? && e.at == row.at && e.level == level && ForbidsFirst(c, rows, quotes, journal, row, level, e.block)
  }

  ghost predicate Request(c: Config, rows: seq<Row>, quotes: seq<Quote>, journal: seq<Entry>, row: Row, level: Level, e: Entry) {
    && (forall why :: !Forbids(c, rows, quotes, journal, row, level, why))
    && e.EntryRequested? && e.at == row.at && e.level == level && e.stop == level.lower - c.rules.tick
    && IsTarget(row, level, e.target)
  }

  /** Entries that neither buy nor sell leave no trace in what is held when nothing is. */
  predicate Quiet(entries: seq<Entry>) {
    forall i :: 0 <= i < |entries| ==> !entries[i].Buy? && !entries[i].Sell?
  }

  lemma {:induction false} QuietKeeps(journal: seq<Entry>, more: seq<Entry>)
    requires Quiet(more) && Open(journal) == []
    ensures Open(journal + more) == [] && LastExit(journal + more) == LastExit(journal)
    decreases |more|
  {
    if more == [] {
      assert journal + more == journal;
    } else {
      var n := |more| - 1;
      QuietKeeps(journal, more[..n]);
      OpenSnoc(journal + more[..n], more[n]);
      LastExitSnoc(journal + more[..n], more[n]);
      assert journal + more == journal + more[..n] + [more[n]];
    }
  }

  /** What a scan wrote, and whether an order is pending after it. */
  ghost predicate Scanned(c: Config, rows: seq<Row>, quotes: seq<Quote>, journal: seq<Entry>, s: Machine, t: Machine, row: Row,
                          levels: seq<Level>, written: seq<Entry>, n: nat)
  {
    && t.journal == s.journal + written && Scans(c, rows, quotes, journal, row, levels, written, n) && Quiet(written)
    && (t.pending.Some? <==> n < |levels|)
    && (t.pending.Some? ==> written[n].EntryRequested? && t.pending.value == OrderOf(c, written[n]))
    && (written != [] ==> (written[|written| - 1].EntryRequested? <==> n < |levels|))
  }

  lemma NothingScanned(c: Config, rows: seq<Row>, quotes: seq<Quote>, journal: seq<Entry>, s: Machine, row: Row)
    requires s.pending.None?
    ensures Scanned(c, rows, quotes, journal, s, s, row, [], [], 0)
  {
    assert s.journal + [] == s.journal;
  }

  lemma RequestScanned(c: Config, rows: seq<Row>, quotes: seq<Quote>, journal: seq<Entry>, s: Machine, row: Row, level: Level,
                       rest: seq<Level>)
    requires s.pending.None? && forall why :: !Forbids(c, rows, quotes, journal, row, level, why)
    ensures Scanned(c, rows, quotes, journal, s, Requested(c, s, row, level), row, [level] + rest,
                    [EntryRequested(row.at, level.lower - c.rules.tick, TargetFor(row, level), level)], 0)
  {
    hide Forbids, IsTarget, TargetFor;
    TargetIs(row, level);
  }

  lemma RefusalScanned(c: Config, rows: seq<Row>, quotes: seq<Quote>, journal: seq<Entry>, s: Machine, row: Row, level: Level,
                       rest: seq<Level>, why: BlockReason, t: Machine, later: seq<Entry>, m: nat)
    requires ForbidsFirst(c, rows, quotes, journal, row, level, why)
    requires Scanned(c, rows, quotes, journal, Blocked(s, row, why, level), t, row, rest, later, m)
    ensures Scanned(c, rows, quotes, journal, s, t, row, [level] + rest, [EntryBlocked(row.at, why, level)] + later, m + 1)
  {
    hide Forbids, IsTarget, ForbidsFirst;
    var e := EntryBlocked(row.at, why, level);
    var levels, written := [level] + rest, [e] + later;
    assert s.journal + [e] + later == s.journal + written;
    forall i | 0 <= i < m + 1 ensures Refusal(c, rows, quotes, journal, row, levels[i], written[i]) {
      if i > 0 {
        assert levels[i] == rest[i - 1] && written[i] == later[i - 1];
        assert Refusal(c, rows, quotes, journal, row, rest[i - 1], later[i - 1]);
      }
    }
    assert m < |rest| ==> levels[m + 1] == rest[m] && written[m + 1] == later[m];
    assert later != [] ==> written[|written| - 1] == later[|later| - 1];
  }

  lemma {:induction false} EnterScans(c: Config, rows: seq<Row>, quotes: seq<Quote>, journal: seq<Entry>, s: Machine, row: Row,
                                      events: seq<Event>)
    returns (written: seq<Entry>, n: nat)
    requires c.rules.shares > 0 && (s.quote.Some? ==> QuoteOk(s.quote.value)) && s.pending.None?
    requires BreaksSeen(rows, s.breaks) && s.exit == LastExit(s.journal) == LastExit(journal) && s.quote == LastQuote(quotes)
    requires Open(s.journal) == []
    ensures Scanned(c, rows, quotes, journal, s, Enter(c, s, row, events), row, Accepted(events), written, n)
    decreases |events|
  {
    hide BreaksSeen, LastExit, Open, Gate, Forbids, ForbidsFirst, IsTarget, TargetFor, Scanned, LastQuote, QuoteOk;
    if events == [] {
      NothingScanned(c, rows, quotes, journal, s, row);
      return [], 0;
    }
    var rest := Accepted(events[1..]);
    if events[0].state != BreakoutAccepted {
      written, n := EnterScans(c, rows, quotes, journal, s, row, events[1..]);
      assert Accepted(events) == rest;
    } else {
      var level := events[0].level;
      assert Accepted(events) == [level] + rest;
      GateIff(c, rows, quotes, s, row, level);
      SameExit(c, rows, quotes, s.journal, journal, row, level);
      var why := Gate(c, s, row, level);
      if why.Some? {
        QuietKeeps(s.journal, [EntryBlocked(row.at, why.value, level)]);
        var next := Blocked(s, row, why.value, level);
        var later, m := EnterScans(c, rows, quotes, journal, next, row, events[1..]);
        RefusalScanned(c, rows, quotes, journal, s, row, level, rest, why.value, Enter(c, next, row, events[1..]), later, m);
        return [EntryBlocked(row.at, why.value, level)] + later, m + 1;
      } else {
        RequestScanned(c, rows, quotes, journal, s, row, level, rest);
        return [EntryRequested(row.at, level.lower - c.rules.tick, TargetFor(row, level), level)], 0;
      }
    }
  }

  /** What forbids an entry depends on the journal through the last exit alone. */
  lemma SameExit(c: Config, rows: seq<Row>, quotes: seq<Quote>, a: seq<Entry>, b: seq<Entry>, row: Row, level: Level)
    requires LastExit(a) == LastExit(b)
    ensures forall why :: Forbids(c, rows, quotes, a, row, level, why) <==> Forbids(c, rows, quotes, b, row, level, why)
    ensures forall why :: ForbidsFirst(c, rows, quotes, a, row, level, why) <==> ForbidsFirst(c, rows, quotes, b, row, level, why)
  {
    hide LastExit, RoomAt, BrokenSince;
  }

  // ---------- Every step keeps what the machine knows ----------

  lemma {:induction false} BreaksAfter(breaks: map<Id, real>, events: seq<Event>, at: real, id: Id)
    ensures var after := ReplayModel.Breaks(breaks, events, at);
      if exists e :: e in events && e.state == Breakout && LevelId(e.level) == id then id in after && after[id] == at
      else (id in after <==> id in breaks) && (id in after ==> after[id] == breaks[id])
    decreases |events|
  {
    if events != [] {
      var head := events[0];
      var next := if head.state == Breakout then breaks[LevelId(head.level) := at] else breaks;
      BreaksAfter(next, events[1..], at, id);
      assert forall e :: e in events <==> e == head || e in events[1..];
    }
  }

  lemma BreaksStillSeen(rows: seq<Row>, breaks: map<Id, real>, row: Row)
    requires BreaksSeen(rows, breaks) && forall r :: r in rows ==> r.at <= row.at
    ensures BreaksSeen(rows + [row], ReplayModel.Breaks(breaks, row.events, row.at))
  {
    forall id ensures LatestBreak(rows + [row], ReplayModel.Breaks(breaks, row.events, row.at), id) {
      assert LatestBreak(rows, breaks, id);
      BreaksAfter(breaks, row.events, row.at, id);
      BreakStillLatest(rows, breaks, ReplayModel.Breaks(breaks, row.events, row.at), row, id);
    }
  }

  lemma BreakStillLatest(rows: seq<Row>, breaks: map<Id, real>, after: map<Id, real>, row: Row, id: Id)
    requires LatestBreak(rows, breaks, id) && forall r :: r in rows ==> r.at <= row.at
    requires if BreaksLevel(row, id) then id in after && after[id] == row.at
             else (id in after <==> id in breaks) && (id in after ==> after[id] == breaks[id])
    ensures LatestBreak(rows + [row], after, id)
  {
    hide BreaksLevel;
    var more := rows + [row];
    assert row in more && forall r :: r in more <==> r in rows || r == row;
    if id in breaks {
      var r :| r in rows && BreaksLevel(r, id) && r.at == breaks[id];
      assert r in more;
    }
  }

  /** A quote that finds a position leaves no order. */
  lemma StillNotWaiting(c: Config, rows: seq<Row>, quotes: seq<Quote>, s: Machine, t: Machine, q: Quote)
    requires Awaits(c, rows, quotes, s) && s.pending.None? && t.pending.None?
    requires t.journal == s.journal || (t.journal != [] && t.journal[|t.journal| - 1].Sell?)
    ensures Awaits(c, rows, quotes + [q], t)
  {
    assert forall x :: x in quotes ==> x in quotes + [q];
  }

  lemma CauseOrNone(c: Config, span: seq<Entry>, q: Quote) returns (reason: Option<ExitReason>)
    requires span != [] && span[0].Buy?
    ensures reason.Some? ==> FirstCause(c, span, q, reason.value)
    ensures reason.None? ==> forall r :: !Causes(c, span, q, r)
  {
    hide Causes;
    reason := if Causes(c, span, q, ProtectiveStop) then Some(ProtectiveStop)
              else if Causes(c, span, q, WindowEnd) then Some(WindowEnd)
              else if Causes(c, span, q, StructuralFailure) then Some(StructuralFailure)
              else if Causes(c, span, q, ProfitTarget) then Some(ProfitTarget) else None;
    forall r | reason.None? ensures !Causes(c, span, q, r) {
      assert r == ProtectiveStop || r == WindowEnd || r == StructuralFailure || r == ProfitTarget;
    }
    forall r | reason.Some? && Urgency(r) < Urgency(reason.value) ensures !Causes(c, span, q, r) {
      assert r == ProtectiveStop || r == WindowEnd || r == StructuralFailure;
    }
  }

  lemma QuoteKnown(c: Config, done: seq<Input>, s: Machine, q: Quote)
    requires c.Valid() && Knows(c, done, s) && Chronological(done + [Q(q)]) && QuoteOk(q)
    ensures Knows(c, done + [Q(q)], QuoteStep(c, s, q))
  {
    RowsSnoc(done, Q(q));
    SeenBefore(done, Q(q));
    hide RowsIn, QuotesIn, Chronological, Opened, Awaits, LastExit, LastBars, BreaksSeen, Open, Causes, FirstCause, SaleOf;
    var rows, quotes, t := RowsIn(done), QuotesIn(done), QuoteStep(c, s, q);
    assert rows + [] == rows;
    if s.position.None? {
      FillStep(c, rows, quotes, s, q);
      assert q in quotes + [q];
    } else {
      HeldIsOpen(c, rows, s);
      var reason := CauseOrNone(c, Open(s.journal), q);
      if reason.Some? && (reason.value == ProtectiveStop || q.at <= c.end + c.rules.quoteAge) {
        ExitSells(c, rows, s, q, reason.value);
      } else {
        StopFirst(c, Open(s.journal), q, reason);
        ExitHolds(c, rows, s, q);
      }
      StillNotWaiting(c, rows, quotes, s, t, q);
      SameEntryAt(c, s, q);
      QuotedStill(quotes, q, s.position.value.entryAt);
    }
  }

  lemma StopFirst(c: Config, span: seq<Entry>, q: Quote, reason: Option<ExitReason>)
    requires span != [] && span[0].Buy?
    requires reason.Some? ==> FirstCause(c, span, q, reason.value) && reason.value != ProtectiveStop
    requires reason.None? ==> forall r :: !Causes(c, span, q, r)
    ensures !Causes(c, span, q, ProtectiveStop)
  {
    if reason.Some? {
      assert Urgency(ProtectiveStop) < Urgency(reason.value);
    }
  }

  lemma HeldIsOpen(c: Config, rows: seq<Row>, s: Machine)
    requires Opened(c, rows, s)
    ensures s.position.Some? <==> Open(s.journal) != []
  {
  }

  lemma SameEntryAt(c: Config, s: Machine, q: Quote)
    requires c.rules.shares > 0 && QuoteOk(q) && s.position.Some? && s.pending.None?
    ensures var t := QuoteStep(c, s, q); t.position.Some? ==> t.position.value.entryAt == s.position.value.entryAt
  {
  }

  lemma QuotedStill(quotes: seq<Quote>, q: Quote, t: real)
    requires QuotedAt(quotes, t)
    ensures QuotedAt(quotes + [q], t)
  {
    var x :| x in quotes && x.at == t;
    assert x in quotes + [q];
  }

  /** What a candle writes while a position is held. */
  lemma HeldStep(c: Config, rows: seq<Row>, quotes: seq<Quote>, s: Machine, row: Row)
    requires Ready(c, rows, s) && (s.quote.Some? ==> QuoteOk(s.quote.value)) && row.at >= s.position.value.entryAt
    requires s.quote == LastQuote(quotes) && s.bars == LastBars(rows)
    ensures var span, t, more := Open(s.journal), RowStep(c, s, row), rows + [row];
      && span != []
      && t.journal == s.journal + AskOf(more, span, row) + RaiseOf(c, more, quotes, span + AskOf(more, span, row), row)
      && Opened(c, more, t) && t.exit == LastExit(t.journal) && t.pending.None? && t.quote == s.quote && t.bars == LastBars(more)
      && t.breaks == ReplayModel.Breaks(s.breaks, row.events, row.at)
      && t.position.Some? && t.position.value.remaining > 0 && t.position.value.entryAt == s.position.value.entryAt
  {
    var seen := Observed(s, row);
    BarsSnoc(rows, row);
    HeardRow(c, rows, s, row);
    hide Opened, LastExit, LastBars, Open, AskOf, RaiseOf, LastQuote;
    AskKnown(c, rows, seen, row);
    RaiseKnown(c, rows + [row], quotes, AskExit(c, seen, row), row);
  }

  lemma HeardRow(c: Config, rows: seq<Row>, s: Machine, row: Row)
    requires Opened(c, rows, s)
    ensures Opened(c, rows, Observed(s, row))
  {
  }

  /** What a candle does while an order is pending, or nothing is. */
  lemma FlatStep(c: Config, rows: seq<Row>, quotes: seq<Quote>, s: Machine, row: Row) returns (written: seq<Entry>, n: nat)
    requires Flat(c, rows, s) && Awaits(c, rows, quotes, s) && (s.quote.Some? ==> QuoteOk(s.quote.value))
    requires s.quote == LastQuote(quotes) && s.bars == LastBars(rows) && BreaksSeen(rows, s.breaks)
    requires (forall r :: r in rows ==> r.at <= row.at) && forall q :: q in quotes ==> q.at <= row.at
    ensures var t, more := RowStep(c, s, row), rows + [row];
      && t.journal == s.journal + written && Quiet(written)
      && (if Waiting(c, quotes, s.journal) then written == []
          else Scans(c, more, quotes, s.journal, row, Accepted(row.events), written, n))
      && Flat(c, more, t) && Awaits(c, more, quotes, t) && t.quote == s.quote && t.bars == LastBars(more)
      && BreaksSeen(more, t.breaks)
  {
    var seen, more := Observed(s, row), rows + [row];
    BarsSnoc(rows, row);
    BreaksStillSeen(rows, s.breaks, row);
    hide LastExit, LastBars, Open, LastQuote, BreaksSeen, Accepted, Scans, Waiting, LastThree;
    if s.pending.Some? {
      written, n := [], 0;
      assert s.journal + [] == s.journal;
      RequestStillSeen(c, rows, quotes, s, seen, row);
    } else {
      written, n := EnterScans(c, more, quotes, s.journal, seen, row, row.events);
      EnterFrame(c, seen, row, row.events);
      QuietKeeps(s.journal, written);
      NowAwaits(c, rows, quotes, s, Enter(c, seen, row, row.events), row, written, n);
    }
  }

  lemma RequestStillSeen(c: Config, rows: seq<Row>, quotes: seq<Quote>, s: Machine, t: Machine, row: Row)
    requires Awaits(c, rows, quotes, s) && t.journal == s.journal && t.pending == s.pending
    ensures Awaits(c, rows + [row], quotes, t)
  {
    if s.journal != [] && s.journal[|s.journal| - 1].EntryRequested? {
      var r :| r in rows && r.at == s.journal[|s.journal| - 1].at;
      assert r in rows + [row];
    }
  }

  lemma NowAwaits(c: Config, rows: seq<Row>, quotes: seq<Quote>, s: Machine, t: Machine, row: Row, written: seq<Entry>, n: nat)
    requires Awaits(c, rows, quotes, s) && s.pending.None? && forall q :: q in quotes ==> q.at <= row.at
    requires Scanned(c, rows + [row], quotes, s.journal, s, t, row, Accepted(row.events), written, n)
    ensures Awaits(c, rows + [row], quotes, t)
  {
    if written == [] {
      assert t.journal == s.journal;
      RequestStillSeen(c, rows, quotes, s, t, row);
    } else {
      var e := written[|written| - 1];
      assert t.journal[|t.journal| - 1] == e;
      if e.EntryRequested? {
        assert Request(c, rows + [row], quotes, s.journal, row, Accepted(row.events)[n], written[n]);
        assert row in rows + [row];
      }
    }
  }

  lemma RowKnown(c: Config, done: seq<Input>, s: Machine, row: Row)
    requires c.Valid() && Knows(c, done, s) && Chronological(done + [R(row)])
    ensures Knows(c, done + [R(row)], RowStep(c, s, row))
  {
    RowsSnoc(done, R(row));
    SeenBefore(done, R(row));
    hide RowsIn, QuotesIn, Chronological, Opened, LastExit, LastBars, BreaksSeen, Open, Scans, AskOf, RaiseOf;
    var rows, quotes, t := RowsIn(done), QuotesIn(done), RowStep(c, s, row);
    assert quotes + [] == quotes;
    if s.position.None? {
      var _, _ := FlatStep(c, rows, quotes, s, row);
    } else {
      var q :| q in quotes && q.at == s.position.value.entryAt;
      HeldStep(c, rows, quotes, s, row);
      BreaksStillSeen(rows, s.breaks, row);
      NoneRequested(c, rows, quotes, s, t, row, Open(s.journal));
    }
  }

  lemma NoneRequested(c: Config, rows: seq<Row>, quotes: seq<Quote>, s: Machine, t: Machine, row: Row, span: seq<Entry>)
    requires Awaits(c, rows, quotes, s) && s.pending.None? && t.pending.None? && span != [] && span[0].Buy?
    requires var more := rows + [row];
      t.journal == s.journal + AskOf(more, span, row) + RaiseOf(c, more, quotes, span + AskOf(more, span, row), row)
    ensures Awaits(c, rows + [row], quotes, t)
  {
    hide Asks, Raises;
    RequestStillSeen(c, rows, quotes, s, s, row);
  }

  // ---------- The journal of a replay, input by input ----------

  /** The journal after these inputs. */
  function Journal(c: Config, inputs: seq<Input>): seq<Entry>
    requires c.rules.shares > 0 && AllOk(inputs)
  {
    PlayCompletesIff(c, inputs, INITIAL);
    Play(c, inputs, INITIAL).machine.journal
  }

  lemma PlayedSnoc(c: Config, inputs: seq<Input>, x: Input)
    requires c.rules.shares > 0 && AllOk(inputs + [x])
    ensures AllOk(inputs) && Play(c, inputs, INITIAL).Ok? && Play(c, inputs + [x], INITIAL).Ok?
    ensures var s := Play(c, inputs, INITIAL).machine;
      && (s.quote.Some? ==> QuoteOk(s.quote.value)) && x.Ok()
      && Play(c, inputs + [x], INITIAL).machine == Step(c, s, x)
  {
    var all := inputs + [x];
    assert all[|inputs|] == x && forall i :: 0 <= i < |inputs| ==> all[i] == inputs[i];
    PlayCompletesIff(c, all, INITIAL);
    PlayConcat(c, inputs, [x], INITIAL);
    var s := Play(c, inputs, INITIAL).machine;
    StepKeepsQuoteOk(c, s, x);
    assert [x][1..] == [] && Play(c, [x], s) == Play(c, [], Step(c, s, x));
  }

  /** After any inputs in time order the machine is what has been seen and written. */
  lemma {:induction false} PlayedKnown(c: Config, inputs: seq<Input>)
    requires c.Valid() && AllOk(inputs) && Chronological(inputs)
    ensures Play(c, inputs, INITIAL).Ok? && Knows(c, inputs, Play(c, inputs, INITIAL).machine)
    decreases |inputs|
  {
    if inputs == [] {
      KnowsNothing(c);
    } else {
      var n := |inputs| - 1;
      var head, x := inputs[..n], inputs[n];
      assert inputs == head + [x];
      hide Knows, Play, Chronological;
      PlayedSnoc(c, head, x);
      SeenBefore(head, x);
      PlayedKnown(c, head);
      match x
      case Q(q) => QuoteKnown(c, head, Play(c, head, INITIAL).machine, q);
      case R(row) => RowKnown(c, head, Play(c, head, INITIAL).machine, row);
    }
  }

  predicate Next(c: Config, done: seq<Input>, x: Input) {
    c.Valid() && AllOk(done + [x]) && Chronological(done + [x])
  }

  lemma NextKnown(c: Config, done: seq<Input>, x: Input)
    requires Next(c, done, x)
    ensures AllOk(done) && Play(c, done, INITIAL).Ok?
    ensures var s := Play(c, done, INITIAL).machine;
      && Knows(c, done, s) && s.journal == Journal(c, done) && x.Ok() && (s.quote.Some? ==> QuoteOk(s.quote.value))
      && Journal(c, done + [x]) == Step(c, s, x).journal
  {
    PlayedSnoc(c, done, x);
    SeenBefore(done, x);
    PlayedKnown(c, done);
  }

  /** While a position is held, a quote sells exactly when there is a cause for it: the bid is at or below the stop in force,
      the window has ended, the exit asked for is due, or the target, not sold at yet, is reached. It sells for the most
      urgent cause, and all that is held unless that is the target with partial exits. (A quote more than one quote age past
      the window is consumed by no replay; such a one would sell for the stop alone.) */
  lemma SaleIff(c: Config, done: seq<Input>, q: Quote)
    requires Next(c, done, Q(q)) && AllOk(done) && Open(Journal(c, done)) != []
    ensures var before, after, span := Journal(c, done), Journal(c, done + [Q(q)]), Open(Journal(c, done));
      var late := q.at > c.end + c.rules.quoteAge;
      && (after == before || exists reason :: after == before + [SaleOf(c, span, q, reason)])
      && (after != before <==> Causes(c, span, q, ProtectiveStop) || (!late && exists reason :: Causes(c, span, q, reason)))
      && (forall reason :: FirstCause(c, span, q, reason) && (late ==> reason == ProtectiveStop) ==>
            after == before + [SaleOf(c, span, q, reason)])
  {
    NextKnown(c, done, Q(q));
    hide Opened, Awaits, LastExit, LastBars, BreaksSeen, Open, Causes, FirstCause, SaleOf, Play, Journal, Chronological;
    var s, rows := Play(c, done, INITIAL).machine, RowsIn(done);
    HeldIsOpen(c, rows, s);
    var span := Open(s.journal);
    var reason := CauseOrNone(c, span, q);
    forall r | FirstCause(c, span, q, r) ensures reason == Some(r) {
      OneFirst(c, span, q, r, reason);
    }
    FirstIsCause(c, span, q);
    if reason.Some? && (reason.value == ProtectiveStop || q.at <= c.end + c.rules.quoteAge) {
      ExitSells(c, rows, s, q, reason.value);
    } else {
      StopFirst(c, span, q, reason);
      ExitHolds(c, rows, s, q);
    }
  }

  lemma FirstIsCause(c: Config, span: seq<Entry>, q: Quote)
    requires span != [] && span[0].Buy?
    ensures forall r :: FirstCause(c, span, q, r) ==> Causes(c, span, q, r)
    ensures forall r :: Causes(c, span, q, ProtectiveStop) && FirstCause(c, span, q, r) ==> r == ProtectiveStop
  {
    forall r | Causes(c, span, q, ProtectiveStop) && FirstCause(c, span, q, r) ensures r == ProtectiveStop {
      assert Urgency(ProtectiveStop) < Urgency(r) || r == ProtectiveStop;
    }
  }

  lemma OneFirst(c: Config, span: seq<Entry>, q: Quote, r: ExitReason, reason: Option<ExitReason>)
    requires span != [] && span[0].Buy? && FirstCause(c, span, q, r)
    requires reason.Some? ==> FirstCause(c, span, q, reason.value)
    requires reason.None? ==> forall x :: !Causes(c, span, q, x)
    ensures reason == Some(r)
  {
    hide Causes;
    MostUrgent(r, if reason.Some? then reason.value else r);
  }

  lemma MostUrgent(a: ExitReason, b: ExitReason)
    ensures a == b || Urgency(a) < Urgency(b) || Urgency(b) < Urgency(a)
  {
  }

  /** While nothing is held, a quote buys exactly when it is the first one due for the last request, comes within a quote age
      of it and before the window ends, and is worth entering at. */
  lemma PurchaseIff(c: Config, done: seq<Input>, q: Quote)
    requires Next(c, done, Q(q)) && AllOk(done) && Open(Journal(c, done)) == []
    ensures var before, after := Journal(c, done), Journal(c, done + [Q(q)]);
      after == before + if Buys(c, QuotesIn(done), before, q) then [PurchaseOf(c, before[|before| - 1], q)] else []
  {
    NextKnown(c, done, Q(q));
    SeenBefore(done, Q(q));
    hide LastBars, BreaksSeen, Play, Journal, Chronological, Buys, PurchaseOf, QuoteStep;
    FillStep(c, RowsIn(done), QuotesIn(done), Play(c, done, INITIAL).machine, q);
  }

  /** While a position is held, a candle asks for the structural exit exactly when the level fails or two closes in a row fall
      below it, once; and raises the stop exactly at an admissible swing low. It writes nothing else. */
  lemma HeldCandleIs(c: Config, done: seq<Input>, row: Row)
    requires Next(c, done, R(row)) && AllOk(done) && Open(Journal(c, done)) != []
    ensures var before, span, rows := Journal(c, done), Open(Journal(c, done)), RowsIn(done) + [row];
      var asked := AskOf(rows, span, row);
      Journal(c, done + [R(row)]) == before + asked + RaiseOf(c, rows, QuotesIn(done), span + asked, row)
  {
    NextKnown(c, done, R(row));
    SeenBefore(done, R(row));
    hide Opened, Awaits, LastBars, BreaksSeen, Open, Play, Journal, Chronological, AskOf, RaiseOf, RowStep, LastExit;
    var s := Play(c, done, INITIAL).machine;
    HeldIsOpen(c, RowsIn(done), s);
    var q :| q in QuotesIn(done) && q.at == s.position.value.entryAt;
    HeldStep(c, RowsIn(done), QuotesIn(done), s, row);
  }

  /** While an order is pending a candle writes nothing. Otherwise its accepted breakouts are refused one after another, each
      for the first thing that forbids it, up to the first that nothing forbids, for which an entry is requested. */
  lemma FlatCandleIs(c: Config, done: seq<Input>, row: Row) returns (written: seq<Entry>, n: nat)
    requires Next(c, done, R(row)) && AllOk(done) && Open(Journal(c, done)) == []
    ensures var before, rows := Journal(c, done), RowsIn(done) + [row];
      && Journal(c, done + [R(row)]) == before + written
      && if Waiting(c, QuotesIn(done), before) then written == []
         else Scans(c, rows, QuotesIn(done), before, row, Accepted(row.events), written, n)
  {
    NextKnown(c, done, R(row));
    SeenBefore(done, R(row));
    hide LastBars, BreaksSeen, Play, Journal, Chronological, Scans, Waiting, RowStep, LastExit, Accepted;
    written, n := FlatStep(c, RowsIn(done), QuotesIn(done), Play(c, done, INITIAL).machine, row);
  }

  // ---------- What became of every request ----------

  function Refused(journal: seq<Entry>, why: BlockReason): nat {
    if journal == [] then 0
    else
      var e := journal[|journal| - 1];
      Refused(journal[..|journal| - 1], why) + if e.EntryBlocked? && e.block == why then 1 else 0
  }

  function Requests(journal: seq<Entry>): nat {
    if journal == [] then 0 else Requests(journal[..|journal| - 1]) + if journal[|journal| - 1].EntryRequested? then 1 else 0
  }

  function Purchases(journal: seq<Entry>): nat {
    if journal == [] then 0 else Purchases(journal[..|journal| - 1]) + if journal[|journal| - 1].Buy? then 1 else 0
  }

  lemma CountsSnoc(journal: seq<Entry>, e: Entry)
    ensures forall why :: Refused(journal + [e], why) == Refused(journal, why) + if e.EntryBlocked? && e.block == why then 1 else 0
    ensures Requests(journal + [e]) == Requests(journal) + if e.EntryRequested? then 1 else 0
    ensures Purchases(journal + [e]) == Purchases(journal) + if e.Buy? then 1 else 0
  {
    assert (journal + [e])[..|journal|] == journal;
  }

  predicate AtScan(why: BlockReason) {
    why != EntryExpired && why != ExecutionQuality
  }

  /** The counters of refusals are those the journal shows, and every request was filled, expired, was refused for the quality
      of its quote, or is pending. */
  ghost predicate Accounted(s: Machine) {
    && (forall why :: AtScan(why) ==> s.blocked[why] == Refused(s.journal, why))
    && Requests(s.journal)
       == Purchases(s.journal) + s.blocked[EntryExpired] + s.blocked[ExecutionQuality] + if s.pending.Some? then 1 else 0
  }

  lemma NotedAccounted(s: Machine, t: Machine, e: Entry)
    requires Accounted(s) && t.journal == s.journal + [e] && t.blocked == s.blocked && t.pending == s.pending
    requires !e.EntryBlocked? && !e.EntryRequested? && !e.Buy?
    ensures Accounted(t)
  {
    CountsSnoc(s.journal, e);
    hide Refused, Requests, Purchases;
  }

  lemma ExitsAccounted(c: Config, s: Machine, q: Quote)
    requires Accounted(s)
    ensures Accounted(Exits(c, s, q)) && Exits(c, s, q).pending == s.pending
  {
    hide Accounted, Received, SalePrice;
    var t := Exits(c, s, q);
    if t.journal != s.journal {
      var e := t.journal[|s.journal|];
      assert t.journal == s.journal + [e] && e.Sell?;
      NotedAccounted(s, t, e);
    } else {
      SameAccount(s, t);
    }
  }

  lemma SameAccount(s: Machine, t: Machine)
    requires Accounted(s) && t.journal == s.journal && t.blocked == s.blocked && t.pending == s.pending
    ensures Accounted(t)
  {
  }

  lemma QuoteAccounted(c: Config, s: Machine, q: Quote)
    requires c.rules.shares > 0 && QuoteOk(q) && Accounted(s)
    ensures Accounted(QuoteStep(c, s, q))
  {
    hide Exits, Fills, Accounted;
    SameAccount(s, s.(quote := Some(q)));
    ExitsAccounted(c, s.(quote := Some(q)), q);
    FillsAccounted(c, Exits(c, s.(quote := Some(q)), q), q);
  }

  lemma DroppedAccounted(s: Machine, t: Machine, why: BlockReason)
    requires Accounted(s) && s.pending.Some? && t.pending.None? && t.journal == s.journal
    requires !AtScan(why) && t.blocked == s.blocked + multiset{why}
    ensures Accounted(t)
  {
    hide Refused, Requests, Purchases;
  }

  lemma BoughtAccounted(s: Machine, t: Machine, b: Entry)
    requires Accounted(s) && s.pending.Some? && t.pending.None? && t.journal == s.journal + [b] && b.Buy? && t.blocked == s.blocked
    ensures Accounted(t)
  {
    CountsSnoc(s.journal, b);
    hide Refused, Requests, Purchases;
  }

  lemma FillsAccounted(c: Config, s: Machine, q: Quote)
    requires c.rules.shares > 0 && QuoteOk(q) && Accounted(s)
    ensures Accounted(Fills(c, s, q))
  {
    hide Accounted, Quality, FillPrice, Spent;
    var t := Fills(c, s, q);
    if t.pending == s.pending {
      SameAccount(s, t);
    } else if t.journal != s.journal {
      BoughtAccounted(s, t, t.journal[|s.journal|]);
    } else if t.blocked == s.blocked + multiset{EntryExpired} {
      DroppedAccounted(s, t, EntryExpired);
    } else {
      DroppedAccounted(s, t, ExecutionQuality);
    }
  }

  lemma {:induction false} EnterAccounted(c: Config, s: Machine, row: Row, events: seq<Event>)
    requires c.rules.shares > 0 && (s.quote.Some? ==> QuoteOk(s.quote.value)) && Accounted(s) && s.pending.None?
    ensures Accounted(Enter(c, s, row, events))
    decreases |events|
  {
    hide Gate, TargetFor, Refused, Requests, Purchases;
    if events != [] {
      if events[0].state != BreakoutAccepted {
        EnterAccounted(c, s, row, events[1..]);
      } else {
        var level := events[0].level;
        var why := Gate(c, s, row, level);
        if why.Some? {
          GateIsScan(c, s, row, level);
          CountsSnoc(s.journal, EntryBlocked(row.at, why.value, level));
          EnterAccounted(c, Blocked(s, row, why.value, level), row, events[1..]);
        } else {
          CountsSnoc(s.journal, EntryRequested(row.at, level.lower - c.rules.tick, TargetFor(row, level), level));
        }
      }
    }
  }

  lemma GateIsScan(c: Config, s: Machine, row: Row, level: Level)
    requires c.rules.shares > 0 && (s.quote.Some? ==> QuoteOk(s.quote.value))
    ensures Gate(c, s, row, level).Some? ==> AtScan(Gate(c, s, row, level).value)
  {
  }

  lemma RowAccounted(c: Config, s: Machine, row: Row)
    requires c.rules.shares > 0 && (s.quote.Some? ==> QuoteOk(s.quote.value)) && Accounted(s)
    ensures Accounted(RowStep(c, s, row))
  {
    var seen := Observed(s, row);
    SameAccount(s, seen);
    if seen.position.Some? {
      hide Accounted, FailedAt, SwingLow;
      var asked := AskExit(c, seen, row);
      if asked.journal == seen.journal {
        SameAccount(seen, asked);
      } else {
        NotedAccounted(seen, asked, ExitRequested(row.at));
      }
      var t := Ratchet(c, asked, row);
      if t.journal == asked.journal {
        SameAccount(asked, t);
      } else {
        var e := t.journal[|asked.journal|];
        assert t.journal == asked.journal + [e] && e.RaiseStop?;
        NotedAccounted(asked, t, e);
      }
    } else if seen.pending.None? {
      EnterAccounted(c, seen, row, row.events);
    }
  }

  lemma {:induction false} PlayAccounted(c: Config, inputs: seq<Input>, s: Machine)
    requires c.rules.shares > 0 && (s.quote.Some? ==> QuoteOk(s.quote.value)) && Accounted(s) && Play(c, inputs, s).Ok?
    ensures Accounted(Play(c, inputs, s).machine)
    decreases |inputs|
  {
    hide Accounted, QuoteStep, RowStep;
    if inputs != [] {
      match inputs[0] {
        case Q(q) => QuoteAccounted(c, s, q);
        case R(row) => RowAccounted(c, s, row);
      }
      StepKeepsQuoteOk(c, s, inputs[0]);
      PlayAccounted(c, inputs[1..], Step(c, s, inputs[0]));
    }
  }

  /** In a completed replay no request is lost: as many were filled, expired, refused on quality or left pending as were made,
      and each refusal the journal shows is counted once. */
  lemma RequestsAccounted(c: Config, rows: seq<Row>, quotes: seq<Quote>)
    requires c.Valid() && Replay(c, rows, quotes).Ok?
    ensures Accounted(Replay(c, rows, quotes).machine)
  {
    PlayAccounted(c, Merge(c, rows, quotes), INITIAL);
  }

  // ---------- Whole replays ----------

  lemma {:induction false} BeforeIs(rows: seq<Row>, end: real, row: Row)
    ensures row in RowsBefore(rows, end) <==> row in rows && row.at < end
  {
    if rows != [] {
      BeforeIs(rows[1..], end, row);
    }
  }

  lemma {:induction false} UntilIs(quotes: seq<Quote>, last: real, q: Quote)
    ensures q in QuotesUntil(quotes, last) <==> q in quotes && q.at <= last
  {
    if quotes != [] {
      UntilIs(quotes[1..], last, q);
    }
  }

  /** Everything a candle names, by itself or through an event, was confirmed by its time. */
  predicate KnownBy(row: Row, l: Level) {
    (l in row.levels || exists e :: e in row.events && e.level == l) ==> l.confirmedMs <= row.at * 1000.0
  }

  lemma RowOkIff(row: Row)
    ensures RowOk(row) <==> forall l :: KnownBy(row, l)
  {
    if forall l :: KnownBy(row, l) {
      forall l | l in row.levels ensures l.confirmedMs <= row.at * 1000.0 {
        assert KnownBy(row, l);
      }
      forall e | e in row.events ensures e.level.confirmedMs <= row.at * 1000.0 {
        assert KnownBy(row, e.level);
      }
    }
  }

  lemma InputsOkIff(inputs: seq<Input>)
    ensures AllOk(inputs) <==> (forall r :: r in RowsIn(inputs) ==> RowOk(r)) && forall q :: q in QuotesIn(inputs) ==> QuoteOk(q)
  {
    hide RowOk, QuoteOk;
    forall r: Row ensures r in RowsIn(inputs) <==> R(r) in inputs {
      RowSeen(inputs, r);
    }
    forall q: Quote ensures q in QuotesIn(inputs) <==> Q(q) in inputs {
      QuoteSeen(inputs, q);
    }
    if (forall r :: r in RowsIn(inputs) ==> RowOk(r)) && forall q :: q in QuotesIn(inputs) ==> QuoteOk(q) {
      forall i | 0 <= i < |inputs| ensures inputs[i].Ok() {
        assert inputs[i] in inputs;
        match inputs[i]
        case Q(q) => assert q in QuotesIn(inputs);
        case R(r) => assert r in RowsIn(inputs);
      }
    }
  }

  ghost predicate AllValid(c: Config, rows: seq<Row>, quotes: seq<Quote>) {
    && (forall q :: q in quotes && q.at <= c.end + c.rules.quoteAge ==> 0.0 < q.bid && q.bid <= q.ask)
    && (forall r :: r in rows && r.at < c.end ==> forall l :: KnownBy(r, l))
  }

  lemma ConsumedOkIff(c: Config, rows: seq<Row>, quotes: seq<Quote>)
    requires RowsOrdered(rows) && QuotesOrdered(quotes) && c.rules.quoteAge >= 0.0
    ensures AllOk(Merge(c, rows, quotes)) <==> AllValid(c, rows, quotes)
  {
    hide Merge, Chronological, KnownBy, RowOk, RowsBefore, QuotesUntil, StartsBy, RowsOrdered, QuotesOrdered, AllOk;
    var inputs := Merge(c, rows, quotes);
    MergeIsChronological(c, rows, quotes);
    InputsOkIff(inputs);
    forall r: Row ensures r in RowsIn(inputs) <==> r in rows && r.at < c.end {
      BeforeIs(rows, c.end, r);
    }
    forall q: Quote ensures q in QuotesIn(inputs) <==> q in quotes && q.at <= c.end + c.rules.quoteAge {
      UntilIs(quotes, c.end + c.rules.quoteAge, q);
    }
    forall r: Row ensures RowOk(r) <==> forall l :: KnownBy(r, l) {
      RowOkIff(r);
    }
  }

  /** A replay completes exactly when candle times rise, quote times do not fall, every quote up to a quote age past the window
      has a positive bid no higher than its ask, and no candle inside it knows a level confirmed after it. */
  lemma ReplayCompletesIff(c: Config, rows: seq<Row>, quotes: seq<Quote>)
    requires c.Valid()
    ensures Replay(c, rows, quotes).Ok? <==>
      && (forall i, j :: 0 <= i < j < |rows| ==> rows[i].at < rows[j].at)
      && (forall i, j :: 0 <= i < j < |quotes| ==> quotes[i].at <= quotes[j].at)
      && AllValid(c, rows, quotes)
  {
    hide Merge, Play, AllValid, AllOk;
    if RowsOrdered(rows) && QuotesOrdered(quotes) {
      PlayCompletesIff(c, Merge(c, rows, quotes), INITIAL);
      ConsumedOkIff(c, rows, quotes);
    }
  }

  lemma {:induction false} TailInTime(c: Config, quotes: seq<Quote>, k: nat)
    requires k < |Tail(c, quotes)|
    ensures Tail(c, quotes)[k].Q? && Tail(c, quotes)[k].quote.at <= c.end + c.rules.quoteAge
  {
    if k > 0 {
      TailInTime(c, quotes[1..], k - 1);
    }
  }

  /** No quote is consumed later than a quote age after the window. */
  lemma {:induction false} ConsumedInTime(c: Config, rows: seq<Row>, quotes: seq<Quote>, k: nat)
    requires c.rules.quoteAge >= 0.0 && k < |Merge(c, rows, quotes)| && Merge(c, rows, quotes)[k].Q?
    ensures Merge(c, rows, quotes)[k].quote.at <= c.end + c.rules.quoteAge
    decreases |rows| + |quotes|
  {
    if rows == [] || rows[0].at >= c.end {
      TailInTime(c, quotes, k);
    } else if quotes != [] && quotes[0].at <= rows[0].at {
      if k > 0 {
        ConsumedInTime(c, rows, quotes[1..], k - 1);
      }
    } else if k > 0 {
      ConsumedInTime(c, rows[1..], quotes, k - 1);
    }
  }

  /** The laws above apply to each input of a completed replay after the ones before it, and its journal is the last of theirs. */
  lemma ReplayIsStepwise(c: Config, rows: seq<Row>, quotes: seq<Quote>, k: nat)
    requires c.Valid() && Replay(c, rows, quotes).Ok? && k < |Merge(c, rows, quotes)|
    ensures var inputs := Merge(c, rows, quotes);
      && AllOk(inputs) && Journal(c, inputs) == Replay(c, rows, quotes).machine.journal
      && AllOk(inputs[..k]) && Next(c, inputs[..k], inputs[k]) && inputs[..k + 1] == inputs[..k] + [inputs[k]]
  {
    var inputs := Merge(c, rows, quotes);
    MergeIsChronological(c, rows, quotes);
    PlayCompletesIff(c, inputs, INITIAL);
    hide Merge;
    PrefixInOrder(inputs, k);
  }

  lemma PrefixInOrder(inputs: seq<Input>, k: nat)
    requires k < |inputs| && Chronological(inputs) && AllOk(inputs)
    ensures inputs[..k + 1] == inputs[..k] + [inputs[k]]
    ensures Chronological(inputs[..k] + [inputs[k]]) && AllOk(inputs[..k]) && AllOk(inputs[..k] + [inputs[k]])
  {
    var some := inputs[..k] + [inputs[k]];
    assert some == inputs[..k + 1];
  }

  /** In a replay, while a position is held, a consumed quote sells if and only if its bid is at or below the stop in force, it
      comes at or after the window's end, or at or after the time the exit asked for is due, or its bid reaches the target not
      sold at yet; and it sells for the first of these, everything held unless for the target with partial exits. */
  lemma ReplaySellsIff(c: Config, rows: seq<Row>, quotes: seq<Quote>, k: nat)
    requires c.Valid() && Replay(c, rows, quotes).Ok? && k < |Merge(c, rows, quotes)| && Merge(c, rows, quotes)[k].Q?
    requires var inputs := Merge(c, rows, quotes); AllOk(inputs[..k]) && Open(Journal(c, inputs[..k])) != []
    ensures var inputs := Merge(c, rows, quotes);
      var q, before, span := inputs[k].quote, Journal(c, inputs[..k]), Open(Journal(c, inputs[..k]));
      && AllOk(inputs[..k + 1])
      && (Journal(c, inputs[..k + 1]) != before <==> exists reason :: Causes(c, span, q, reason))
      && (forall reason :: FirstCause(c, span, q, reason) ==>
            Journal(c, inputs[..k + 1]) == before + [SaleOf(c, span, q, reason)])
  {
    hide Merge, Causes, FirstCause, SaleOf, Open, Journal, Replay;
    ReplayIsStepwise(c, rows, quotes, k);
    ConsumedInTime(c, rows, quotes, k);
    var inputs := Merge(c, rows, quotes);
    SaleIff(c, inputs[..k], inputs[k].quote);
  }
}
