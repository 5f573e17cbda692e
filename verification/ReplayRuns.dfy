/** What holds of whole replays: the invariant at every point, conservation, the profit bound, causality. */
module ReplayRuns {
  import opened Common
  import opened ReplayModel
  import opened ReplayAudit

  // ---------- The merged stream ----------

  function RowsIn(inputs: seq<Input>): seq<Row> {
    if inputs == [] then []
    else (if inputs[0].R? then [inputs[0].row] else []) + RowsIn(inputs[1..])
  }

  function QuotesIn(inputs: seq<Input>): seq<Quote> {
    if inputs == [] then []
    else (if inputs[0].Q? then [inputs[0].quote] else []) + QuotesIn(inputs[1..])
  }

  function RowsBefore(rows: seq<Row>, end: real): seq<Row> {
    if rows == [] then []
    else (if rows[0].at < end then [rows[0]] else []) + RowsBefore(rows[1..], end)
  }

  function QuotesUntil(quotes: seq<Quote>, last: real): seq<Quote> {
    if quotes == [] then []
    else (if quotes[0].at <= last then [quotes[0]] else []) + QuotesUntil(quotes[1..], last)
  }

  /** Time order, and a quote is never behind a candle of its own time. */
  predicate Chronological(inputs: seq<Input>) {
    forall i, j :: 0 <= i < j < |inputs| ==>
      && inputs[i].At() <= inputs[j].At()
      && (inputs[i].R? && inputs[j].Q? ==> inputs[i].At() < inputs[j].At())
  }

  predicate NoneBefore(inputs: seq<Input>, at: real) {
    forall i :: 0 <= i < |inputs| ==> inputs[i].At() >= at
  }

  predicate QuotesAfter(inputs: seq<Input>, at: real) {
    forall i :: 0 <= i < |inputs| && inputs[i].Q? ==> inputs[i].At() > at
  }

  lemma ChronologicalCons(first: Input, rest: seq<Input>)
    requires Chronological(rest) && NoneBefore(rest, first.At())
    requires first.R? ==> QuotesAfter(rest, first.At())
    ensures Chronological([first] + rest)
  {
    var all := [first] + rest;
    forall i, j | 0 <= i < j < |all|
      ensures all[i].At() <= all[j].At() && (all[i].R? && all[j].Q? ==> all[i].At() < all[j].At())
    {
      assert all[j] == rest[j - 1];
      if i > 0 {
        assert all[i] == rest[i - 1];
      }
    }
  }

  lemma {:induction false} QuotesBeyond(quotes: seq<Quote>, last: real)
    requires QuotesOrdered(quotes) && (quotes != [] ==> quotes[0].at > last)
    ensures QuotesUntil(quotes, last) == []
    decreases |quotes|
  {
    if quotes != [] {
      assert quotes[1..] != [] ==> quotes[1..][0] == quotes[1];
      QuotesBeyond(quotes[1..], last);
    }
  }

  lemma {:induction false} RowsBeyond(rows: seq<Row>, end: real)
    requires RowsOrdered(rows) && (rows != [] ==> rows[0].at >= end)
    ensures RowsBefore(rows, end) == []
    decreases |rows|
  {
    if rows != [] {
      assert rows[1..] != [] ==> rows[1..][0] == rows[1];
      RowsBeyond(rows[1..], end);
    }
  }

  lemma QuotesTail(quotes: seq<Quote>)
    requires QuotesOrdered(quotes) && quotes != []
    ensures QuotesOrdered(quotes[1..]) && (|quotes| > 1 ==> quotes[0].at <= quotes[1..][0].at)
  {
  }

  lemma NoInputs()
    ensures Chronological([])
  {
  }

  lemma {:induction false} TailIsRest(c: Config, quotes: seq<Quote>)
    requires QuotesOrdered(quotes)
    ensures var t := Tail(c, quotes);
      && QuotesIn(t) == QuotesUntil(quotes, c.end + c.rules.quoteAge) && RowsIn(t) == [] && Chronological(t)
      && (forall i :: 0 <= i < |t| ==> t[i].Q? && quotes != [] && t[i].At() >= quotes[0].at)
    decreases |quotes|
  {
    hide QuotesOrdered, Chronological;
    if quotes == [] || quotes[0].at > c.end + c.rules.quoteAge {
      QuotesBeyond(quotes, c.end + c.rules.quoteAge);
      NoInputs();
    } else {
      QuotesTail(quotes);
      TailIsRest(c, quotes[1..]);
      var t := Tail(c, quotes[1..]);
      assert ([Q(quotes[0])] + t)[1..] == t;
      assert NoneBefore(t, quotes[0].at);
      ChronologicalCons(Q(quotes[0]), t);
    }
  }

  predicate StartsBy(inputs: seq<Input>, rows: seq<Row>, quotes: seq<Quote>) {
    && (forall i :: 0 <= i < |inputs| ==>
          (rows != [] && rows[0].at <= inputs[i].At()) || (quotes != [] && quotes[0].at <= inputs[i].At()))
    && (forall i :: 0 <= i < |inputs| && inputs[i].Q? ==> quotes != [] && quotes[0].at <= inputs[i].At())
  }

  ghost predicate MergesExactly(c: Config, rows: seq<Row>, quotes: seq<Quote>, m: seq<Input>) {
    && RowsIn(m) == RowsBefore(rows, c.end) && QuotesIn(m) == QuotesUntil(quotes, c.end + c.rules.quoteAge)
    && Chronological(m) && StartsBy(m, rows, quotes)
  }

  lemma PrependQuote(c: Config, rows: seq<Row>, quotes: seq<Quote>, rest: seq<Input>)
    requires QuotesOrdered(quotes) && c.rules.quoteAge >= 0.0 && rows != [] && rows[0].at < c.end
    requires quotes != [] && quotes[0].at <= rows[0].at && MergesExactly(c, rows, quotes[1..], rest)
    ensures MergesExactly(c, rows, quotes, [Q(quotes[0])] + rest)
  {
    assert ([Q(quotes[0])] + rest)[1..] == rest;
    forall i | 0 <= i < |rest| ensures rest[i].At() >= quotes[0].at {
      assert |quotes| > 1 ==> quotes[1..][0] == quotes[1];
    }
    ChronologicalCons(Q(quotes[0]), rest);
  }

  lemma PrependRow(c: Config, rows: seq<Row>, quotes: seq<Quote>, rest: seq<Input>)
    requires RowsOrdered(rows) && rows != [] && rows[0].at < c.end
    requires (quotes == [] || quotes[0].at > rows[0].at) && MergesExactly(c, rows[1..], quotes, rest)
    ensures MergesExactly(c, rows, quotes, [R(rows[0])] + rest)
  {
    assert ([R(rows[0])] + rest)[1..] == rest;
    forall i | 0 <= i < |rest| ensures rest[i].At() >= rows[0].at {
      assert |rows| > 1 ==> rows[1..][0] == rows[1];
    }
    ChronologicalCons(R(rows[0]), rest);
  }

  /** The replayed stream holds exactly the candles before the end and the quotes up to one quote age past it,
      each kind in its own order, in time order overall with quotes ahead of a candle at equal times. */
  lemma {:induction false} MergeIsChronological(c: Config, rows: seq<Row>, quotes: seq<Quote>)
    requires RowsOrdered(rows) && QuotesOrdered(quotes) && c.rules.quoteAge >= 0.0
    ensures MergesExactly(c, rows, quotes, Merge(c, rows, quotes))
    decreases |rows| + |quotes|
  {
    if rows == [] || rows[0].at >= c.end {
      RowsBeyond(rows, c.end);
      TailIsRest(c, quotes);
    } else if quotes != [] && quotes[0].at <= rows[0].at {
      MergeIsChronological(c, rows, quotes[1..]);
      PrependQuote(c, rows, quotes, Merge(c, rows, quotes[1..]));
    } else {
      MergeIsChronological(c, rows[1..], quotes);
      PrependRow(c, rows, quotes, Merge(c, rows[1..], quotes));
    }
  }

  // ---------- The invariant over a run ----------

  predicate AllOk(inputs: seq<Input>) {
    forall i :: 0 <= i < |inputs| ==> inputs[i].Ok()
  }

  /** A replay completes exactly when no input it consumes is invalid. */
  lemma {:induction false} PlayCompletesIff(c: Config, inputs: seq<Input>, s: Machine)
    requires c.rules.shares > 0 && (s.quote.Some? ==> QuoteOk(s.quote.value))
    ensures Play(c, inputs, s).Ok? <==> AllOk(inputs)
    decreases |inputs|
  {
    if inputs != [] && inputs[0].Ok() {
      StepKeepsQuoteOk(c, s, inputs[0]);
      PlayCompletesIff(c, inputs[1..], Step(c, s, inputs[0]));
      assert AllOk(inputs) ==> AllOk(inputs[1..]);
      if AllOk(inputs[1..]) {
        forall i | 0 <= i < |inputs| ensures inputs[i].Ok() {
          if i > 0 {
            assert inputs[1..][i - 1].Ok();
          }
        }
      }
    }
  }

  lemma NextKeepsInv(c: Config, done: seq<Input>, rest: seq<Input>, s: Machine)
    requires c.Valid() && Inv(c, done, s) && InputsOrdered(done + rest) && rest != [] && rest[0].Ok()
    ensures Inv(c, done + [rest[0]], Step(c, s, rest[0]))
    ensures done + [rest[0]] + rest[1..] == done + rest
  {
    var all := done + rest;
    assert all[|done|] == rest[0] && (done != [] ==> all[|done| - 1] == done[|done| - 1]);
    StepKeeps(c, done, s, rest[0]);
  }

  lemma {:induction false} PlayKeepsInv(c: Config, done: seq<Input>, rest: seq<Input>, s: Machine)
    requires c.Valid() && Inv(c, done, s) && Play(c, rest, s).Ok?
    requires InputsOrdered(done + rest)
    ensures Inv(c, done + rest, Play(c, rest, s).machine)
    decreases |rest|
  {
    if rest == [] {
      assert done + rest == done;
    } else {
      NextKeepsInv(c, done, rest, s);
      PlayKeepsInv(c, done + [rest[0]], rest[1..], Step(c, s, rest[0]));
    }
  }

  lemma ChronologicalIsOrdered(inputs: seq<Input>)
    requires Chronological(inputs)
    ensures InputsOrdered(inputs)
  {
  }

  /** Every completed replay ends in a state whose journal audits to exactly its positions and trades. */
  lemma ReplayInv(c: Config, rows: seq<Row>, quotes: seq<Quote>)
    requires c.Valid() && Replay(c, rows, quotes).Ok?
    ensures Inv(c, Merge(c, rows, quotes), Replay(c, rows, quotes).machine)
  {
    hide Inv, Merge, Play, Chronological, InputsOrdered, RowsOrdered, QuotesOrdered, StartsBy;
    var inputs := Merge(c, rows, quotes);
    MergeIsChronological(c, rows, quotes);
    ChronologicalIsOrdered(inputs);
    InitialInv(c);
    assert [] + inputs == inputs;
    PlayKeepsInv(c, [], inputs, INITIAL);
  }

  /** The same purchase with a stop no lower and no more shares. */
  predicate Tightened(p: Position, q: Position) {
    && q.stop >= p.stop && q.order == p.order && q.entryAt == p.entryAt && q.entry == p.entry
    && q.remaining <= p.remaining
  }

  lemma QuoteTightens(c: Config, s: Machine, q: Quote)
    requires c.rules.shares > 0 && QuoteOk(q) && s.position.Some? && s.pending.None? && s.position.value.remaining > 0
    requires QuoteStep(c, s, q).position.Some?
    ensures Tightened(s.position.value, QuoteStep(c, s, q).position.value)
  {
    var seen := s.(quote := Some(q));
    assert QuoteStep(c, s, q) == Exits(c, seen, q);
  }

  lemma RowTightens(c: Config, s: Machine, row: Row)
    requires c.rules.shares > 0 && (s.quote.Some? ==> QuoteOk(s.quote.value)) && s.position.Some?
    ensures RowStep(c, s, row).position.Some? && Tightened(s.position.value, RowStep(c, s, row).position.value)
  {
    var seen := Observed(s, row);
    var asked := AskExit(c, seen, row);
    assert Tightened(s.position.value, asked.position.value);
    assert Ratchet(c, asked, row).position.Some? && Tightened(asked.position.value, Ratchet(c, asked, row).position.value);
  }

  /** While a position stays open its entry never changes and its stop never falls. */
  lemma StopNeverFalls(c: Config, inputs: seq<Input>, s: Machine, input: Input)
    requires c.rules.shares > 0 && Inv(c, inputs, s) && input.Ok() && s.position.Some?
    requires Step(c, s, input).position.Some?
    ensures Tightened(s.position.value, Step(c, s, input).position.value)
  {
    if input.Q? {
      QuoteTightens(c, s, input.quote);
    } else {
      RowTightens(c, s, input.row);
    }
  }

  // ---------- Conservation ----------

  function SoldQuantity(entries: seq<Entry>): int {
    if entries == [] then 0
    else
      var e := entries[|entries| - 1];
      SoldQuantity(entries[..|entries| - 1]) + (if e.Sell? then e.quantity else 0)
  }

  function Proceeds(entries: seq<Entry>): real {
    if entries == [] then 0.0
    else
      var e := entries[|entries| - 1];
      Proceeds(entries[..|entries| - 1]) + (if e.Sell? then e.quantity as real * e.price else 0.0)
  }

  function Sales(entries: seq<Entry>): nat {
    if entries == [] then 0
    else
      var e := entries[|entries| - 1];
      Sales(entries[..|entries| - 1]) + (if e.Sell? then 1 else 0)
  }

  /** The journal from a purchase on, up to but not including another purchase. */
  predicate Holding(journal: seq<Entry>, from: nat, to: nat, buy: Entry) {
    && from < to <= |journal| && buy.Buy? && journal[from] == buy
    && (forall i :: from < i < to ==> !journal[i].Buy?)
  }

  /** Net of one purchase: sale proceeds less cost less one fee for every fill. */
  function NetOf(c: Config, buy: Entry, span: seq<Entry>): real
    requires buy.Buy?
  {
    Proceeds(span) - buy.quantity as real * buy.price - c.rules.fee * (1 + Sales(span)) as real
  }

  /** A closed trade's journal: one purchase, then sales of exactly the shares bought, the last one closing it. */
  predicate ClosedSpan(c: Config, journal: seq<Entry>, from: nat, to: nat, x: Closed) {
    && Holding(journal, from, to, x.buy) && from + 1 < to
    && x.buy.quantity == c.rules.shares == SoldQuantity(journal[from..to])
    && x.net == NetOf(c, x.buy, journal[from..to])
    && journal[to - 1].Sell? && journal[to - 1].at == x.exitAt && journal[to - 1].reason == x.reason
  }

  ghost predicate Conserved(c: Config, journal: seq<Entry>, x: Closed) {
    exists from: nat, to: nat :: ClosedSpan(c, journal, from, to, x)
  }

  /** The open purchase holds what it bought less what it sold, and its cash is its net so far. */
  ghost predicate OpenConserved(c: Config, journal: seq<Entry>, b: Books) {
    b.buy.Some? ==>
      && b.buy.value.Buy? && b.buy.value.quantity == c.rules.shares
      && exists from: nat :: OpenSpan(c, journal, from, b)
  }

  predicate OpenSpan(c: Config, journal: seq<Entry>, from: nat, b: Books) {
    && b.buy.Some? && Holding(journal, from, |journal|, b.buy.value)
    && b.held == b.buy.value.quantity - SoldQuantity(journal[from..])
    && b.cash == NetOf(c, b.buy.value, journal[from..])
    && 0 <= b.held <= b.buy.value.quantity
  }

  lemma SpanSnoc(c: Config, entries: seq<Entry>, e: Entry)
    ensures SoldQuantity(entries + [e]) == SoldQuantity(entries) + if e.Sell? then e.quantity else 0
    ensures Proceeds(entries + [e]) == Proceeds(entries) + if e.Sell? then e.quantity as real * e.price else 0.0
    ensures Sales(entries + [e]) == Sales(entries) + if e.Sell? then 1 else 0
  {
    assert (entries + [e])[..|entries|] == entries;
  }

  lemma NetSnoc(c: Config, buy: Entry, span: seq<Entry>, e: Entry)
    requires buy.Buy?
    ensures e.Sell? ==> NetOf(c, buy, span + [e]) == NetOf(c, buy, span) + e.quantity as real * e.price - c.rules.fee
    ensures !e.Sell? ==> NetOf(c, buy, span + [e]) == NetOf(c, buy, span)
  {
    SpanSnoc(c, span, e);
    if e.Sell? {
      assert c.rules.fee * (2 + Sales(span)) as real == c.rules.fee * (1 + Sales(span)) as real + c.rules.fee;
    }
  }

  lemma ConservedExtends(c: Config, journal: seq<Entry>, e: Entry, x: Closed)
    requires Conserved(c, journal, x)
    ensures Conserved(c, journal + [e], x)
  {
    var from: nat, to: nat :| ClosedSpan(c, journal, from, to, x);
    assert (journal + [e])[from..to] == journal[from..to];
    assert ClosedSpan(c, journal + [e], from, to, x);
  }

  lemma BoughtConserves(c: Config, journal: seq<Entry>, b: Books, e: Entry)
    requires e.Buy? && e.quantity == c.rules.shares > 0
    ensures OpenConserved(c, journal + [e], Post(c, b, e))
  {
    var longer := journal + [e];
    assert longer[|journal|..] == [] + [e];
    SpanSnoc(c, [], e);
    assert OpenSpan(c, longer, |journal|, Post(c, b, e));
  }

  /** A sale extends the open purchase's span. */
  lemma SpanGrows(c: Config, journal: seq<Entry>, from: nat, b: Books, e: Entry)
    requires OpenSpan(c, journal, from, b) && e.Sell?
    ensures var longer := journal + [e];
      && longer[from..] == longer[from..|longer|] == journal[from..] + [e]
      && SoldQuantity(longer[from..]) == SoldQuantity(journal[from..]) + e.quantity
      && NetOf(c, b.buy.value, longer[from..]) == Received(b.cash, e.quantity, e.price, c.rules.fee)
      && Holding(longer, from, |longer|, b.buy.value)
  {
    var longer := journal + [e];
    assert longer[from..] == journal[from..] + [e] == longer[from..|longer|];
    SpanSnoc(c, journal[from..], e);
    NetSnoc(c, b.buy.value, journal[from..], e);
  }

  lemma SoldConserves(c: Config, journal: seq<Entry>, b: Books, e: Entry)
    requires OpenConserved(c, journal, b) && b.buy.Some? && e.Sell? && 0 <= e.quantity <= b.held
    ensures OpenConserved(c, journal + [e], Post(c, b, e))
    ensures e.quantity == b.held ==>
      Conserved(c, journal + [e], Closed(b.buy.value, Received(b.cash, e.quantity, e.price, c.rules.fee), e.at, e.reason))
  {
    hide NetOf, SoldQuantity, Received;
    var longer := journal + [e];
    var from: nat :| OpenSpan(c, journal, from, b);
    SpanGrows(c, journal, from, b, e);
    if e.quantity == b.held {
      assert ClosedSpan(c, longer, from, |longer|,
                        Closed(b.buy.value, Received(b.cash, e.quantity, e.price, c.rules.fee), e.at, e.reason));
    } else {
      assert OpenSpan(c, longer, from, Post(c, b, e));
    }
  }

  lemma QuietConserves(c: Config, journal: seq<Entry>, b: Books, e: Entry)
    requires OpenConserved(c, journal, b) && !e.Buy? && !e.Sell?
    ensures OpenConserved(c, journal + [e], Post(c, b, e))
  {
    if b.buy.Some? {
      var from: nat :| OpenSpan(c, journal, from, b);
      var longer := journal + [e];
      assert longer[from..] == journal[from..] + [e];
      SpanSnoc(c, journal[from..], e);
      NetSnoc(c, b.buy.value, journal[from..], e);
      assert OpenSpan(c, longer, from, Post(c, b, e));
    }
  }

  ghost predicate AllConserved(c: Config, journal: seq<Entry>, closed: seq<Closed>) {
    forall i :: 0 <= i < |closed| ==> Conserved(c, journal, closed[i])
  }

  lemma AllConservedExtends(c: Config, journal: seq<Entry>, e: Entry, closed: seq<Closed>)
    requires AllConserved(c, journal, closed)
    ensures AllConserved(c, journal + [e], closed)
  {
    forall i | 0 <= i < |closed| ensures Conserved(c, journal + [e], closed[i]) {
      ConservedExtends(c, journal, e, closed[i]);
    }
  }

  lemma SaleConserves(c: Config, journal: seq<Entry>, b: Books, e: Entry)
    requires OpenConserved(c, journal, b) && b.buy.Some? && e.Sell? && 0 <= e.quantity <= b.held
    requires AllConserved(c, journal + [e], b.closed)
    ensures AllConserved(c, journal + [e], Post(c, b, e).closed)
  {
    SoldConserves(c, journal, b, e);
    var closed := Post(c, b, e).closed;
    var sale := Closed(b.buy.value, Received(b.cash, e.quantity, e.price, c.rules.fee), e.at, e.reason);
    assert closed == if e.quantity == b.held then b.closed + [sale] else b.closed;
    forall i | 0 <= i < |closed| ensures Conserved(c, journal + [e], closed[i]) {
      if i < |b.closed| {
        assert closed[i] == b.closed[i];
      }
    }
  }

  lemma EntryConserves(c: Config, inputs: seq<Input>, journal: seq<Entry>, b: Books, e: Entry)
    requires c.rules.shares > 0 && Legal(c, inputs, b, e) && OpenConserved(c, journal, b)
    requires AllConserved(c, journal, b.closed)
    ensures OpenConserved(c, journal + [e], Post(c, b, e)) && AllConserved(c, journal + [e], Post(c, b, e).closed)
  {
    AllConservedExtends(c, journal, e, b.closed);
    if e.Buy? {
      BoughtConserves(c, journal, b, e);
    } else if e.Sell? {
      SoldConserves(c, journal, b, e);
      SaleConserves(c, journal, b, e);
    } else {
      QuietConserves(c, journal, b, e);
    }
  }

  /** In every admissible journal each closed trade sold exactly what it bought and nets proceeds less cost less fees. */
  lemma {:induction false} LegalConserves(c: Config, inputs: seq<Input>, journal: seq<Entry>)
    requires c.rules.shares > 0 && AllLegal(c, inputs, journal)
    ensures OpenConserved(c, journal, Audit(c, journal))
    ensures AllConserved(c, journal, Audit(c, journal).closed)
    decreases |journal|
  {
    if journal != [] {
      var head, e := journal[..|journal| - 1], journal[|journal| - 1];
      LegalPrefix(c, inputs, journal);
      LegalConserves(c, inputs, head);
      EntryConserves(c, inputs, head, Audit(c, head), e);
      assert journal == head + [e];
    }
  }

  lemma LegalPrefix(c: Config, inputs: seq<Input>, journal: seq<Entry>)
    requires c.rules.shares > 0 && AllLegal(c, inputs, journal) && journal != []
    ensures AllLegal(c, inputs, journal[..|journal| - 1])
    ensures Legal(c, inputs, Audit(c, journal[..|journal| - 1]), journal[|journal| - 1])
  {
    var head := journal[..|journal| - 1];
    assert LegalAt(c, inputs, journal, |journal| - 1);
    forall k: nat | k < |head| ensures LegalAt(c, inputs, head, k) {
      assert LegalAt(c, inputs, journal, k);
      assert head[..k] == journal[..k] && head[k] == journal[k];
    }
  }

  /** Every trade a replay reports has a journal span that sells exactly the shares it bought and explains its net;
      an open position holds between one and all of its shares, and never together with a pending order. */
  lemma ReplayConserves(c: Config, rows: seq<Row>, quotes: seq<Quote>)
    requires c.Valid() && Replay(c, rows, quotes).Ok?
    ensures var m := Replay(c, rows, quotes).machine;
      && (forall t :: t in m.trades ==>
            Conserved(c, m.journal, Closed(BuyOf(c, t.position), t.net, t.exitAt, t.reason)))
      && (m.position.Some? ==> m.pending.None? && 0 < m.position.value.remaining <= c.rules.shares)
  {
    var m := Replay(c, rows, quotes).machine;
    var inputs := Merge(c, rows, quotes);
    ReplayInv(c, rows, quotes);
    LegalConserves(c, inputs, m.journal);
    forall t | t in m.trades
      ensures Conserved(c, m.journal, Closed(BuyOf(c, t.position), t.net, t.exitAt, t.reason))
    {
      var i :| 0 <= i < |m.trades| && m.trades[i] == t;
      assert Conserved(c, m.journal, ClosedOf(c, m.trades)[i]);
    }
  }

  // ---------- When purchases happen ----------

  /** The purchase was decided after a breakout of its own level that came strictly after the previous exit. */
  ghost predicate FreshAfter(inputs: seq<Input>, previous: Closed, buy: Entry) {
    buy.Buy? && BrokeBetween(inputs, LevelId(buy.level), previous.exitAt, buy.decisionAt)
  }

  predicate Timely(c: Config, buy: Entry) {
    buy.Buy? && buy.decisionAt + c.Latency() <= buy.at <= buy.decisionAt + c.rules.quoteAge && buy.at < c.end
  }

  ghost predicate WellTimed(c: Config, inputs: seq<Input>, b: Books) {
    && b.exit == (if b.closed == [] then None else Some(b.closed[|b.closed| - 1].exitAt))
    && (forall i :: 0 <= i < |b.closed| ==> Timely(c, b.closed[i].buy))
    && (forall i :: 0 < i < |b.closed| ==> FreshAfter(inputs, b.closed[i - 1], b.closed[i].buy))
    && (b.buy.Some? ==> Timely(c, b.buy.value))
    && (b.buy.Some? && b.closed != [] ==> FreshAfter(inputs, b.closed[|b.closed| - 1], b.buy.value))
  }

  lemma EntryKeepsTiming(c: Config, inputs: seq<Input>, b: Books, e: Entry)
    requires c.rules.shares > 0 && Legal(c, inputs, b, e) && WellTimed(c, inputs, b)
    ensures WellTimed(c, inputs, Post(c, b, e))
  {
  }

  lemma {:induction false} LegalIsWellTimed(c: Config, inputs: seq<Input>, journal: seq<Entry>)
    requires c.rules.shares > 0 && AllLegal(c, inputs, journal)
    ensures WellTimed(c, inputs, Audit(c, journal))
    decreases |journal|
  {
    if journal != [] {
      LegalPrefix(c, inputs, journal);
      LegalIsWellTimed(c, inputs, journal[..|journal| - 1]);
      EntryKeepsTiming(c, inputs, Audit(c, journal[..|journal| - 1]), journal[|journal| - 1]);
    }
  }

  /** Every fill falls between its decision plus latency and its decision plus quote age, before the end; and every
      trade but the first follows a new breakout of its own level, after the last exit and by its own decision. */
  lemma TradesAreTimelyAndFresh(c: Config, rows: seq<Row>, quotes: seq<Quote>)
    requires c.Valid() && Replay(c, rows, quotes).Ok?
    ensures var trades, inputs := Replay(c, rows, quotes).machine.trades, Merge(c, rows, quotes);
      && (forall i :: 0 <= i < |trades| ==> var p := trades[i].position;
            p.order.at + c.Latency() <= p.entryAt <= p.order.at + c.rules.quoteAge && p.entryAt < c.end)
      && (forall i :: 0 < i < |trades| ==> var p := trades[i].position;
            BrokeBetween(inputs, LevelId(p.order.level), trades[i - 1].exitAt, p.order.at))
  {
    var m, inputs := Replay(c, rows, quotes).machine, Merge(c, rows, quotes);
    ReplayInv(c, rows, quotes);
    LegalIsWellTimed(c, inputs, m.journal);
    var closed := ClosedOf(c, m.trades);
    forall i | 0 <= i < |m.trades|
      ensures var p := m.trades[i].position;
        p.order.at + c.Latency() <= p.entryAt <= p.order.at + c.rules.quoteAge && p.entryAt < c.end
    {
      assert Timely(c, closed[i].buy);
    }
    forall i | 0 < i < |m.trades|
      ensures var p := m.trades[i].position;
        BrokeBetween(inputs, LevelId(p.order.level), m.trades[i - 1].exitAt, p.order.at)
    {
      assert FreshAfter(inputs, closed[i - 1], closed[i].buy);
    }
  }

  // ---------- The profit bound ----------

  /** Without partial exits a purchase is unsold or closed, and it met the reward gate at its fill. */
  predicate OpenGated(c: Config, b: Books)
    requires c.rules.shares > 0
  {
    b.buy.Some? ==>
      && b.buy.value.Buy? && b.buy.value.quantity == c.rules.shares == b.held
      && b.cash == -(c.rules.shares as real) * b.buy.value.price - c.rules.fee
      && 0.0 < b.buy.value.stop < b.buy.value.price
      && Reward(c, b.buy.value.price, b.buy.value.target)
         >= c.rules.minRewardRisk * Risk(c, b.buy.value.price, b.buy.value.stop)
  }

  predicate Earned(c: Config, x: Closed)
    requires c.rules.shares > 0
  {
    && x.buy.Buy?
    && Risk(c, x.buy.price, x.buy.stop) > 0.0
    && (x.reason == ProfitTarget ==>
          x.net >= c.rules.minRewardRisk * (c.rules.shares as real * Risk(c, x.buy.price, x.buy.stop)))
  }

  lemma RiskIsPositive(c: Config, price: real, stop: real)
    requires c.Valid() && 0.0 < stop < price
    ensures Risk(c, price, stop) > 0.0
  {
    assert stop * c.Slip() >= 0.0;
    assert stop * (1.0 - c.Slip()) == stop - stop * c.Slip();
  }

  lemma TargetSaleEarns(c: Config, price: real, stop: real, target: real, exit: real)
    requires c.Valid() && exit >= target * (1.0 - c.Slip())
    requires Reward(c, price, target) >= c.rules.minRewardRisk * Risk(c, price, stop)
    ensures var n := c.rules.shares as real;
      n * exit - n * price - 2.0 * c.rules.fee >= c.rules.minRewardRisk * (n * Risk(c, price, stop))
  {
    var n := c.rules.shares as real;
    var gain := exit - price - c.FeesPerShare();
    var bound := c.rules.minRewardRisk * Risk(c, price, stop);
    assert gain >= Reward(c, price, target) >= bound;
    assert n * (gain - bound) >= 0.0;
    assert n * c.FeesPerShare() == 2.0 * c.rules.fee;
    assert n * gain == n * exit - n * price - n * c.FeesPerShare();
    assert n * bound == c.rules.minRewardRisk * (n * Risk(c, price, stop));
  }

  lemma GateKept(c: Config, inputs: seq<Input>, b: Books, e: Entry)
    requires c.Valid() && !c.partial && OpenGated(c, b) && Legal(c, inputs, b, e)
    ensures OpenGated(c, Post(c, b, e))
    ensures e.Sell? ==>
      && b.buy.Some? && b.buy.value.Buy?
      && Post(c, b, e).closed == b.closed + [Closed(b.buy.value, Post(c, b, e).cash, e.at, e.reason)]
      && Earned(c, Closed(b.buy.value, Post(c, b, e).cash, e.at, e.reason))
    ensures !e.Sell? ==> Post(c, b, e).closed == b.closed
  {
    if e.Sell? {
      var buy := b.buy.value;
      RiskIsPositive(c, buy.price, buy.stop);
      PostSell(c, b, e.at, e.quantity, e.price, e.reason, e.stop);
      if e.reason == ProfitTarget {
        TargetSaleEarns(c, buy.price, buy.stop, buy.target, e.price);
      }
    }
  }

  lemma {:induction false} LegalEarns(c: Config, inputs: seq<Input>, journal: seq<Entry>)
    requires c.Valid() && !c.partial && AllLegal(c, inputs, journal)
    ensures OpenGated(c, Audit(c, journal))
    ensures forall x :: x in Audit(c, journal).closed ==> Earned(c, x)
    decreases |journal|
  {
    if journal != [] {
      var head, e := journal[..|journal| - 1], journal[|journal| - 1];
      LegalPrefix(c, inputs, journal);
      LegalEarns(c, inputs, head);
      GateKept(c, inputs, Audit(c, head), e);
    }
  }

  /** Without partial exits every profit-target trade nets at least the required multiple of the risk it carried at its
      fill on all its shares, so strictly more than nothing after slippage and both fees. */
  lemma ProfitTargetsPay(c: Config, rows: seq<Row>, quotes: seq<Quote>)
    requires c.Valid() && !c.partial && c.rules.minRewardRisk > 0.0 && Replay(c, rows, quotes).Ok?
    ensures forall t :: t in Replay(c, rows, quotes).machine.trades && t.reason == ProfitTarget ==>
      var risk := Risk(c, t.position.entry, t.position.order.stop);
      && t.net >= c.rules.minRewardRisk * (c.rules.shares as real * risk) > 0.0
  {
    var m := Replay(c, rows, quotes).machine;
    ReplayInv(c, rows, quotes);
    LegalEarns(c, Merge(c, rows, quotes), m.journal);
    forall t | t in m.trades && t.reason == ProfitTarget
      ensures var risk := Risk(c, t.position.entry, t.position.order.stop);
        t.net >= c.rules.minRewardRisk * (c.rules.shares as real * risk) > 0.0
    {
      var i :| 0 <= i < |m.trades| && m.trades[i] == t;
      var x := ClosedOf(c, m.trades)[i];
      assert x in Audit(c, m.journal).closed && Earned(c, x);
      assert c.rules.shares as real * Risk(c, x.buy.price, x.buy.stop) > 0.0;
    }
  }

  // ---------- Causality ----------

  function RowsUpTo(rows: seq<Row>, t: real): seq<Row> {
    if rows == [] || rows[0].at > t then [] else [rows[0]] + RowsUpTo(rows[1..], t)
  }

  function QuotesUpTo(quotes: seq<Quote>, t: real): seq<Quote> {
    if quotes == [] || quotes[0].at > t then [] else [quotes[0]] + QuotesUpTo(quotes[1..], t)
  }

  function JournalUpTo(journal: seq<Entry>, t: real): seq<Entry> {
    if journal == [] then []
    else (if journal[0].at <= t then [journal[0]] else []) + JournalUpTo(journal[1..], t)
  }

  predicate AllUpTo(inputs: seq<Input>, t: real) {
    forall i :: 0 <= i < |inputs| ==> inputs[i].At() <= t
  }

  predicate AllAfter(inputs: seq<Input>, t: real) {
    forall i :: 0 <= i < |inputs| ==> inputs[i].At() > t
  }

  /** The inputs after a time: what the rest of the stream adds. */
  ghost predicate SplitsAt(c: Config, rows: seq<Row>, quotes: seq<Quote>, t: real, later: seq<Input>) {
    && Merge(c, rows, quotes) == Merge(c, RowsUpTo(rows, t), QuotesUpTo(quotes, t)) + later
    && AllAfter(later, t)
    && AllUpTo(Merge(c, RowsUpTo(rows, t), QuotesUpTo(quotes, t)), t)
  }

  ghost predicate TailSplitsAt(c: Config, quotes: seq<Quote>, t: real, later: seq<Input>) {
    && Tail(c, quotes) == Tail(c, QuotesUpTo(quotes, t)) + later
    && AllAfter(later, t) && AllUpTo(Tail(c, QuotesUpTo(quotes, t)), t)
  }

  lemma TailPrepend(c: Config, quotes: seq<Quote>, t: real, later: seq<Input>)
    requires quotes != [] && quotes[0].at <= t && quotes[0].at <= c.end + c.rules.quoteAge
    requires TailSplitsAt(c, quotes[1..], t, later)
    ensures TailSplitsAt(c, quotes, t, later)
  {
    var cut := QuotesUpTo(quotes, t);
    assert cut[0] == quotes[0] && cut[1..] == QuotesUpTo(quotes[1..], t);
    assert [Q(quotes[0])] + (Tail(c, cut[1..]) + later) == [Q(quotes[0])] + Tail(c, cut[1..]) + later;
  }

  lemma {:induction false} TailSplits(c: Config, quotes: seq<Quote>, t: real) returns (later: seq<Input>)
    requires QuotesOrdered(quotes)
    ensures TailSplitsAt(c, quotes, t, later)
    decreases |quotes|
  {
    if quotes == [] || quotes[0].at > t {
      later := Tail(c, quotes);
      TailIsRest(c, quotes);
      assert Tail(c, quotes) == Tail(c, QuotesUpTo(quotes, t)) + later;
    } else if quotes[0].at > c.end + c.rules.quoteAge {
      later := [];
      assert QuotesUpTo(quotes, t)[0] == quotes[0];
    } else {
      later := TailSplits(c, quotes[1..], t);
      TailPrepend(c, quotes, t, later);
    }
  }

  lemma {:induction false} MergeSplits(c: Config, rows: seq<Row>, quotes: seq<Quote>, t: real) returns (later: seq<Input>)
    requires RowsOrdered(rows) && QuotesOrdered(quotes) && c.rules.quoteAge >= 0.0
    ensures SplitsAt(c, rows, quotes, t, later)
    decreases |rows| + |quotes|
  {
    var early, cut := RowsUpTo(rows, t), QuotesUpTo(quotes, t);
    if rows == [] || rows[0].at >= c.end {
      later := TailSplits(c, quotes, t);
      assert early == [] || early[0] == rows[0];
    } else if quotes != [] && quotes[0].at <= rows[0].at {
      if quotes[0].at > t {
        later := Merge(c, rows, quotes);
        MergeIsChronological(c, rows, quotes);
        assert Merge(c, rows, quotes) == [] + later;
      } else {
        later := MergeSplits(c, rows, quotes[1..], t);
        CutQuote(c, rows, quotes, t, later);
      }
    } else if rows[0].at > t {
      later := Merge(c, rows, quotes);
      MergeIsChronological(c, rows, quotes);
      assert Merge(c, rows, quotes) == [] + later;
    } else {
      later := MergeSplits(c, rows[1..], quotes, t);
      CutRow(c, rows, quotes, t, later);
    }
  }

  lemma CutRow(c: Config, rows: seq<Row>, quotes: seq<Quote>, t: real, later: seq<Input>)
    requires rows != [] && rows[0].at < c.end && rows[0].at <= t && (quotes == [] || quotes[0].at > rows[0].at)
    requires SplitsAt(c, rows[1..], quotes, t, later)
    ensures SplitsAt(c, rows, quotes, t, later)
  {
    var early, cut := RowsUpTo(rows, t), QuotesUpTo(quotes, t);
    assert early[0] == rows[0] && early[1..] == RowsUpTo(rows[1..], t);
    assert cut == [] || cut[0] == quotes[0];
    assert [R(rows[0])] + (Merge(c, early[1..], cut) + later) == [R(rows[0])] + Merge(c, early[1..], cut) + later;
  }

  /** A quote ahead of every candle leads the merged stream, whether or not a candle remains after the cut. */
  lemma CutQuote(c: Config, rows: seq<Row>, quotes: seq<Quote>, t: real, later: seq<Input>)
    requires c.rules.quoteAge >= 0.0 && rows != [] && rows[0].at < c.end
    requires quotes != [] && quotes[0].at <= rows[0].at && quotes[0].at <= t
    requires SplitsAt(c, rows, quotes[1..], t, later)
    ensures SplitsAt(c, rows, quotes, t, later)
  {
    var early, cut := RowsUpTo(rows, t), QuotesUpTo(quotes, t);
    assert cut[0] == quotes[0] && cut[1..] == QuotesUpTo(quotes[1..], t);
    assert early == [] || early[0] == rows[0];
    assert Merge(c, early, cut) == [Q(quotes[0])] + Merge(c, early, cut[1..]);
    assert [Q(quotes[0])] + (Merge(c, early, cut[1..]) + later) == [Q(quotes[0])] + Merge(c, early, cut[1..]) + later;
  }

  predicate StampedAt(entries: seq<Entry>, at: real) {
    forall i :: 0 <= i < |entries| ==> entries[i].at == at
  }

  /** The entries one step adds to the journal. */
  ghost predicate Adds(s: Machine, t: Machine, at: real) {
    && |s.journal| <= |t.journal| && t.journal[..|s.journal|] == s.journal
    && StampedAt(t.journal[|s.journal|..], at)
  }

  lemma AddsOne(s: Machine, t: Machine, e: Entry)
    requires t.journal == s.journal + [e]
    ensures Adds(s, t, e.at)
  {
  }

  lemma AddsThen(s: Machine, t: Machine, u: Machine, at: real)
    requires Adds(s, t, at) && Adds(t, u, at)
    ensures Adds(s, u, at)
  {
    assert u.journal[..|s.journal|] == u.journal[..|t.journal|][..|s.journal|];
    var more := u.journal[|s.journal|..];
    forall i | 0 <= i < |more| ensures more[i].at == at {
      if |s.journal| + i < |t.journal| {
        assert more[i] == u.journal[..|t.journal|][|s.journal| + i] == t.journal[|s.journal|..][i];
      } else {
        assert more[i] == u.journal[|t.journal|..][|s.journal| + i - |t.journal|];
      }
    }
  }

  lemma ExitsStamp(c: Config, s: Machine, q: Quote)
    ensures Adds(s, Exits(c, s, q), q.at)
  {
  }

  lemma FillsStamp(c: Config, s: Machine, q: Quote)
    requires c.rules.shares > 0 && QuoteOk(q)
    ensures Adds(s, Fills(c, s, q), q.at)
  {
  }

  lemma QuoteStamps(c: Config, s: Machine, q: Quote)
    requires c.rules.shares > 0 && QuoteOk(q)
    ensures Adds(s, QuoteStep(c, s, q), q.at)
  {
    hide Exits, Fills;
    var s1 := s.(quote := Some(q));
    var s2 := Exits(c, s1, q);
    ExitsStamp(c, s1, q);
    FillsStamp(c, s2, q);
    AddsThen(s, s1, s2, q.at);
    AddsThen(s, s2, Fills(c, s2, q), q.at);
  }

  lemma {:induction false} EnterStamps(c: Config, s: Machine, row: Row, events: seq<Event>)
    requires c.rules.shares > 0 && (s.quote.Some? ==> QuoteOk(s.quote.value))
    ensures Adds(s, Enter(c, s, row, events), row.at)
    decreases |events|
  {
    if events != [] {
      if events[0].state != BreakoutAccepted {
        EnterStamps(c, s, row, events[1..]);
      } else {
        var why := Gate(c, s, row, events[0].level);
        if why.Some? {
          var t := Blocked(s, row, why.value, events[0].level);
          AddsOne(s, t, EntryBlocked(row.at, why.value, events[0].level));
          EnterStamps(c, t, row, events[1..]);
          AddsThen(s, t, Enter(c, t, row, events[1..]), row.at);
        }
      }
    }
  }

  lemma RowStamps(c: Config, s: Machine, row: Row)
    requires c.rules.shares > 0 && (s.quote.Some? ==> QuoteOk(s.quote.value))
    ensures Adds(s, RowStep(c, s, row), row.at)
  {
    var seen := Observed(s, row);
    assert Adds(s, seen, row.at);
    if seen.position.Some? {
      var asked := AskExit(c, seen, row);
      assert Adds(seen, asked, row.at);
      assert Adds(asked, Ratchet(c, asked, row), row.at);
      AddsThen(seen, asked, Ratchet(c, asked, row), row.at);
    } else if seen.pending.None? {
      EnterStamps(c, seen, row, row.events);
    }
  }

  lemma StepStamps(c: Config, s: Machine, input: Input)
    requires c.rules.shares > 0 && input.Ok() && (s.quote.Some? ==> QuoteOk(s.quote.value))
    ensures Adds(s, Step(c, s, input), input.At())
  {
    match input
    case Q(q) => QuoteStamps(c, s, q);
    case R(row) => RowStamps(c, s, row);
  }

  lemma {:induction false} UpToConcat(a: seq<Entry>, b: seq<Entry>, t: real)
    ensures JournalUpTo(a + b, t) == JournalUpTo(a, t) + JournalUpTo(b, t)
    decreases |a|
  {
    if a == [] {
      assert a + b == b;
    } else {
      assert (a + b)[0] == a[0] && (a + b)[1..] == a[1..] + b;
      UpToConcat(a[1..], b, t);
      var first := if a[0].at <= t then [a[0]] else [];
      assert first + (JournalUpTo(a[1..], t) + JournalUpTo(b, t)) == first + JournalUpTo(a[1..], t) + JournalUpTo(b, t);
    }
  }

  lemma {:induction false} UpToStamped(entries: seq<Entry>, at: real, t: real)
    requires StampedAt(entries, at)
    ensures JournalUpTo(entries, t) == if at <= t then entries else []
    decreases |entries|
  {
    if entries != [] {
      UpToStamped(entries[1..], at, t);
      assert entries == [entries[0]] + entries[1..];
    }
  }

  /** What a run's journal says up to a time is untouched by later inputs and complete for earlier ones. */
  lemma {:induction false} PlayStamps(c: Config, inputs: seq<Input>, s: Machine, t: real)
    requires c.rules.shares > 0 && (s.quote.Some? ==> QuoteOk(s.quote.value)) && Play(c, inputs, s).Ok?
    ensures AllAfter(inputs, t) ==>
      JournalUpTo(Play(c, inputs, s).machine.journal, t) == JournalUpTo(s.journal, t)
    ensures AllUpTo(inputs, t) && JournalUpTo(s.journal, t) == s.journal ==>
      JournalUpTo(Play(c, inputs, s).machine.journal, t) == Play(c, inputs, s).machine.journal
    decreases |inputs|
  {
    if inputs != [] {
      var first, next := inputs[0], Step(c, s, inputs[0]);
      StepStamps(c, s, first);
      StepKeepsQuoteOk(c, s, first);
      var more := next.journal[|s.journal|..];
      assert next.journal == s.journal + more;
      UpToConcat(s.journal, more, t);
      UpToStamped(more, first.At(), t);
      PlayStamps(c, inputs[1..], next, t);
      assert AllAfter(inputs, t) ==> AllAfter(inputs[1..], t) && first.At() > t;
      assert AllUpTo(inputs, t) ==> AllUpTo(inputs[1..], t) && first.At() <= t;
    }
  }

  /** Playing in two parts is playing the whole. */
  lemma {:induction false} PlayConcat(c: Config, a: seq<Input>, b: seq<Input>, s: Machine)
    requires c.rules.shares > 0 && (s.quote.Some? ==> QuoteOk(s.quote.value)) && Play(c, a + b, s).Ok?
    ensures Play(c, a, s).Ok?
    ensures var m := Play(c, a, s).machine; m.quote.Some? ==> QuoteOk(m.quote.value)
    ensures Play(c, a + b, s) == Play(c, b, Play(c, a, s).machine)
    decreases |a|
  {
    if a == [] {
      assert a + b == b;
    } else {
      assert (a + b)[0] == a[0] && (a + b)[1..] == a[1..] + b;
      StepKeepsQuoteOk(c, s, a[0]);
      PlayConcat(c, a[1..], b, Step(c, s, a[0]));
    }
  }

  /** A replay's journal up to a time is the whole journal of the replay that sees nothing after it. */
  lemma JournalIsPast(c: Config, rows: seq<Row>, quotes: seq<Quote>, t: real)
    requires c.Valid() && Replay(c, rows, quotes).Ok?
    ensures var past := Play(c, Merge(c, RowsUpTo(rows, t), QuotesUpTo(quotes, t)), INITIAL);
      past.Ok? && JournalUpTo(Replay(c, rows, quotes).machine.journal, t) == past.machine.journal
  {
    var later := MergeSplits(c, rows, quotes, t);
    var known := Merge(c, RowsUpTo(rows, t), QuotesUpTo(quotes, t));
    PlayConcat(c, known, later, INITIAL);
    PlayStamps(c, known, INITIAL, t);
    PlayStamps(c, later, Play(c, known, INITIAL).machine, t);
  }

  /** Causality: inputs that agree up to a time produce identical journal entries up to that time. */
  lemma Causal(c: Config, rows1: seq<Row>, quotes1: seq<Quote>, rows2: seq<Row>, quotes2: seq<Quote>, t: real)
    requires c.Valid() && Replay(c, rows1, quotes1).Ok? && Replay(c, rows2, quotes2).Ok?
    requires RowsUpTo(rows1, t) == RowsUpTo(rows2, t) && QuotesUpTo(quotes1, t) == QuotesUpTo(quotes2, t)
    ensures JournalUpTo(Replay(c, rows1, quotes1).machine.journal, t)
         == JournalUpTo(Replay(c, rows2, quotes2).machine.journal, t)
  {
    JournalIsPast(c, rows1, quotes1, t);
    JournalIsPast(c, rows2, quotes2, t);
  }
}
