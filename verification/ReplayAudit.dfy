/** Independent bookkeeping of a replay's journal, and the invariant that ties the machine to it. */
module ReplayAudit {
  import opened Common
  import opened ReplayModel

  // ---------- Bookkeeping from the journal alone ----------

  datatype Closed = Closed(buy: Entry, net: real, exitAt: real, reason: ExitReason)

  /** The open purchase if any, what it still holds, its cash so far, its stop; the last exit; all closed trades. */
  datatype Books = Books(buy: Option<Entry>, held: int, cash: real, stop: real, exit: Option<real>, closed: seq<Closed>)

  function Post(c: Config, b: Books, e: Entry): Books {
    match e
    case Buy(_, _, quantity, price, stop, _, _) =>
      b.(buy := Some(e), held := quantity, cash := Spent(0.0, quantity, price, c.rules.fee), stop := stop)
    case Sell(at, quantity, price, reason, _) =>
      var cash := Received(b.cash, quantity, price, c.rules.fee);
      if b.held - quantity == 0 && b.buy.Some? then
        Books(None, 0, cash, b.stop, Some(at), b.closed + [Closed(b.buy.value, cash, at, reason)])
      else b.(held := b.held - quantity, cash := cash)
    case RaiseStop(_, stop, _) => b.(stop := stop)
    case _ => b
  }

  function Audit(c: Config, journal: seq<Entry>): Books {
    if journal == [] then Books(None, 0, 0.0, 0.0, None, [])
    else Post(c, Audit(c, journal[..|journal| - 1]), journal[|journal| - 1])
  }

  lemma AuditSnoc(c: Config, journal: seq<Entry>, e: Entry)
    ensures Audit(c, journal + [e]) == Post(c, Audit(c, journal), e)
  {
    assert (journal + [e])[..|journal|] == journal;
  }

  // ---------- What each journal entry must satisfy ----------

  predicate BreaksLevel(row: Row, id: Id) {
    exists e :: e in row.events && e.state == Breakout && LevelId(e.level) == id
  }

  /** Some candle in the history broke the level strictly after one time and no later than another. */
  ghost predicate BrokeBetween(inputs: seq<Input>, id: Id, after: real, until: real) {
    exists i :: 0 <= i < |inputs| && inputs[i].R? && after < inputs[i].At() <= until && BreaksLevel(inputs[i].row, id)
  }

  /** An entry is admissible given the books just before it and the inputs seen so far. */
  ghost predicate Legal(c: Config, inputs: seq<Input>, b: Books, e: Entry)
    requires c.rules.shares > 0
  {
    match e
    case Buy(at, decisionAt, quantity, price, stop, target, level) =>
      && b.buy.None? && quantity == c.rules.shares
      && decisionAt + c.Latency() <= at <= decisionAt + c.rules.quoteAge && at < c.end
      && 0.0 < stop < price
      && Reward(c, price, target) >= c.rules.minRewardRisk * Risk(c, price, stop)
      && (b.exit.Some? ==> BrokeBetween(inputs, LevelId(level), b.exit.value, decisionAt))
    case Sell(at, quantity, price, reason, stop) =>
      && b.buy.Some? && b.buy.value.Buy? && 0 <= quantity <= b.held && stop == b.stop
      && (reason == ProfitTarget ==> price >= b.buy.value.target * (1.0 - c.Slip()))
      && (reason == ProtectiveStop ==> price <= stop * (1.0 - c.Slip()))
      && (quantity == b.held || (c.partial && reason == ProfitTarget))
    case ExitRequested(_) => b.buy.Some?
    case RaiseStop(_, stop, _) => b.buy.Some? && stop > b.stop
    case _ => b.buy.None?
  }

  ghost predicate AllLegal(c: Config, inputs: seq<Input>, journal: seq<Entry>)
    requires c.rules.shares > 0
  {
    forall k: nat :: k < |journal| ==> LegalAt(c, inputs, journal, k)
  }

  /** An entry is admissible after exactly the entries before it. */
  ghost predicate LegalAt(c: Config, inputs: seq<Input>, journal: seq<Entry>, k: nat)
    requires c.rules.shares > 0 && k < |journal|
  {
    Legal(c, inputs, Audit(c, journal[..k]), journal[k])
  }

  lemma LegalSnoc(c: Config, inputs: seq<Input>, journal: seq<Entry>, e: Entry)
    requires c.rules.shares > 0 && AllLegal(c, inputs, journal) && Legal(c, inputs, Audit(c, journal), e)
    ensures AllLegal(c, inputs, journal + [e])
  {
    var longer := journal + [e];
    forall k: nat | k < |longer| ensures LegalAt(c, inputs, longer, k) {
      if k < |journal| {
        assert LegalAt(c, inputs, journal, k);
        assert longer[..k] == journal[..k];
      } else {
        assert longer[..k] == journal;
      }
    }
  }

  lemma LegalExtends(c: Config, inputs: seq<Input>, more: seq<Input>, b: Books, e: Entry)
    requires c.rules.shares > 0 && Legal(c, inputs, b, e)
    ensures Legal(c, inputs + more, b, e)
  {
    if e.Buy? && b.exit.Some? {
      BrokeExtends(inputs, more, LevelId(e.level), b.exit.value, e.decisionAt);
    }
  }

  lemma BrokeExtends(inputs: seq<Input>, more: seq<Input>, id: Id, after: real, until: real)
    requires BrokeBetween(inputs, id, after, until)
    ensures BrokeBetween(inputs + more, id, after, until)
  {
    var i :| 0 <= i < |inputs| && inputs[i].R? && after < inputs[i].At() <= until && BreaksLevel(inputs[i].row, id);
    assert (inputs + more)[i] == inputs[i];
  }

  // ---------- The invariant ----------

  function BuyOf(c: Config, p: Position): Entry {
    Buy(p.entryAt, p.order.at, c.rules.shares, p.entry, p.order.stop, p.order.target, p.order.level)
  }

  function ClosedOf(c: Config, trades: seq<Trade>): seq<Closed> {
    seq(|trades|, i requires 0 <= i < |trades| =>
      Closed(BuyOf(c, trades[i].position), trades[i].net, trades[i].exitAt, trades[i].reason))
  }

  /** The machine's position, exits and trades are exactly what the journal's books say. */
  predicate MatchesBooks(c: Config, b: Books, s: Machine) {
    && (match s.position
        case Some(p) => b.buy == Some(BuyOf(c, p)) && b.held == p.remaining > 0 && b.cash == p.cash && b.stop == p.stop
        case None => b.buy.None? && b.held == 0)
    && b.exit == s.exit
    && b.closed == ClosedOf(c, s.trades)
  }

  predicate BooksAgree(c: Config, s: Machine) {
    MatchesBooks(c, Audit(c, s.journal), s)
  }

  ghost predicate PendingOk(c: Config, inputs: seq<Input>, s: Machine) {
    s.pending.Some? ==>
      && s.position.None?
      && s.pending.value.due == s.pending.value.at + c.Latency()
      && (s.exit.Some? ==> BrokeBetween(inputs, LevelId(s.pending.value.level), s.exit.value, s.pending.value.at))
  }

  /** Every remembered breakout was observed. */
  ghost predicate BreaksOk(inputs: seq<Input>, breaks: map<Id, real>) {
    forall id :: id in breaks ==>
      exists i :: 0 <= i < |inputs| && inputs[i].R? && inputs[i].At() == breaks[id] && BreaksLevel(inputs[i].row, id)
  }

  predicate InputsOrdered(inputs: seq<Input>) {
    forall i, j :: 0 <= i < j < |inputs| ==> inputs[i].At() <= inputs[j].At()
  }

  /** Journal times never decrease and never pass the last input. */
  predicate TimesOk(inputs: seq<Input>, journal: seq<Entry>) {
    && (forall i, j :: 0 <= i < j < |journal| ==> journal[i].at <= journal[j].at)
    && (forall i :: 0 <= i < |journal| ==> inputs != [] && journal[i].at <= inputs[|inputs| - 1].At())
  }

  ghost predicate Inv(c: Config, inputs: seq<Input>, s: Machine)
    requires c.rules.shares > 0
  {
    && (s.quote.Some? ==> QuoteOk(s.quote.value))
    && BooksAgree(c, s)
    && AllLegal(c, inputs, s.journal)
    && PendingOk(c, inputs, s)
    && BreaksOk(inputs, s.breaks)
    && InputsOrdered(inputs)
    && TimesOk(inputs, s.journal)
  }

  lemma InitialInv(c: Config)
    requires c.rules.shares > 0
    ensures Inv(c, [], INITIAL)
  {
  }

  /** A later input is observed before anything happens. */
  lemma InvExtends(c: Config, inputs: seq<Input>, input: Input, s: Machine)
    requires c.rules.shares > 0 && Inv(c, inputs, s)
    requires inputs != [] ==> inputs[|inputs| - 1].At() <= input.At()
    ensures Inv(c, inputs + [input], s)
  {
    var longer := inputs + [input];
    forall k: nat | k < |s.journal| ensures LegalAt(c, longer, s.journal, k) {
      assert LegalAt(c, inputs, s.journal, k);
      LegalExtends(c, inputs, [input], Audit(c, s.journal[..k]), s.journal[k]);
    }
    if s.pending.Some? && s.exit.Some? {
      BrokeExtends(inputs, [input], LevelId(s.pending.value.level), s.exit.value, s.pending.value.at);
    }
    forall id | id in s.breaks
      ensures exists i :: 0 <= i < |longer| && longer[i].R? && longer[i].At() == s.breaks[id] && BreaksLevel(longer[i].row, id)
    {
      var i :| 0 <= i < |inputs| && inputs[i].R? && inputs[i].At() == s.breaks[id] && BreaksLevel(inputs[i].row, id);
      assert longer[i] == inputs[i];
    }
    forall i, j | 0 <= i < j < |longer| ensures longer[i].At() <= longer[j].At() {
      assert i < |inputs| - 1 ==> inputs[i].At() <= inputs[|inputs| - 1].At();
    }
  }

  /** Appending one admissible entry stamped with the current input keeps legality and time order. */
  lemma EntryAppended(c: Config, inputs: seq<Input>, journal: seq<Entry>, e: Entry)
    requires c.rules.shares > 0 && inputs != [] && e.at == inputs[|inputs| - 1].At()
    requires AllLegal(c, inputs, journal) && TimesOk(inputs, journal) && Legal(c, inputs, Audit(c, journal), e)
    ensures AllLegal(c, inputs, journal + [e]) && TimesOk(inputs, journal + [e])
    ensures Audit(c, journal + [e]) == Post(c, Audit(c, journal), e)
  {
    AuditSnoc(c, journal, e);
    LegalSnoc(c, inputs, journal, e);
  }

  /** One journaled action keeps the invariant when the books after it are what the machine now shows. */
  lemma Acted(c: Config, inputs: seq<Input>, s: Machine, t: Machine, e: Entry)
    requires c.rules.shares > 0 && Inv(c, inputs, s)
    requires t.journal == s.journal + [e] && t.quote == s.quote && t.breaks == s.breaks
    requires inputs != [] && e.at == inputs[|inputs| - 1].At() && Legal(c, inputs, Audit(c, s.journal), e)
    requires MatchesBooks(c, Post(c, Audit(c, s.journal), e), t) && PendingOk(c, inputs, t)
    ensures Inv(c, inputs, t)
  {
    EntryAppended(c, inputs, s.journal, e);
  }

  // ---------- Quotes keep it ----------

  lemma ClosedSnoc(c: Config, trades: seq<Trade>, t: Trade)
    ensures ClosedOf(c, trades + [t]) == ClosedOf(c, trades) + [Closed(BuyOf(c, t.position), t.net, t.exitAt, t.reason)]
  {
  }

  function SellEntry(c: Config, s: Machine, q: Quote, quantity: int, reason: ExitReason): Entry
    requires s.position.Some?
  {
    Sell(q.at, quantity, SalePrice(c, q), reason, s.position.value.stop)
  }

  lemma PostSell(c: Config, b: Books, at: real, quantity: int, price: real, reason: ExitReason, stop: real)
    ensures Post(c, b, Sell(at, quantity, price, reason, stop)).cash == b.cash + quantity as real * price - c.rules.fee
  {
  }

  lemma SoldBooks(c: Config, b: Books, s: Machine, q: Quote, quantity: int, reason: ExitReason)
    requires MatchesBooks(c, b, s) && s.position.Some? && 0 <= quantity <= b.held
    ensures MatchesBooks(c, Post(c, b, SellEntry(c, s, q, quantity, reason)), Sold(c, s, q, quantity, reason))
  {
    var t := Sold(c, s, q, quantity, reason);
    if t.position.None? {
      var trade := t.trades[|s.trades|];
      assert BuyOf(c, trade.position) == BuyOf(c, s.position.value);
      ClosedSnoc(c, s.trades, trade);
      assert t.trades == s.trades + [trade];
      var price := SellEntry(c, s, q, quantity, reason).price;
      assert trade.net == s.position.value.cash + quantity as real * price - c.rules.fee;
      PostSell(c, b, q.at, quantity, price, reason, s.position.value.stop);
    }
  }

  lemma SoldKeeps(c: Config, inputs: seq<Input>, s: Machine, q: Quote, quantity: int, reason: ExitReason)
    requires c.rules.shares > 0 && Inv(c, inputs, s) && s.position.Some?
    requires inputs != [] && inputs[|inputs| - 1].At() == q.at
    requires Legal(c, inputs, Audit(c, s.journal), SellEntry(c, s, q, quantity, reason))
    ensures Inv(c, inputs, Sold(c, s, q, quantity, reason))
  {
    SoldBooks(c, Audit(c, s.journal), s, q, quantity, reason);
    Acted(c, inputs, s, Sold(c, s, q, quantity, reason), SellEntry(c, s, q, quantity, reason));
  }

  lemma BidBounds(c: Config, q: Quote, level: real)
    requires c.Valid()
    ensures q.bid >= level ==> q.bid * (1.0 - c.Slip()) >= level * (1.0 - c.Slip())
    ensures q.bid <= level ==> q.bid * (1.0 - c.Slip()) <= level * (1.0 - c.Slip())
  {
    var k := 1.0 - c.Slip();
    assert k >= 0.0;
    if q.bid >= level {
      assert (q.bid - level) * k >= 0.0;
    }
    if q.bid <= level {
      assert (level - q.bid) * k >= 0.0;
    }
  }

  lemma SaleIsLegal(c: Config, inputs: seq<Input>, b: Books, s: Machine, q: Quote, quantity: int, reason: ExitReason)
    requires c.Valid() && MatchesBooks(c, b, s) && s.position.Some?
    requires var held := s.position.value;
      && (quantity == held.remaining || (c.partial && reason == ProfitTarget && quantity == held.remaining / 2))
      && (reason == ProfitTarget ==> q.bid >= held.order.target)
      && (reason == ProtectiveStop ==> q.bid <= held.stop)
    ensures Legal(c, inputs, b, SellEntry(c, s, q, quantity, reason))
  {
    BidBounds(c, q, s.position.value.stop);
    BidBounds(c, q, s.position.value.order.target);
  }

  lemma SaleKeeps(c: Config, inputs: seq<Input>, s: Machine, q: Quote, quantity: int, reason: ExitReason)
    requires c.Valid() && Inv(c, inputs, s) && s.position.Some?
    requires inputs != [] && inputs[|inputs| - 1].At() == q.at
    requires var held := s.position.value;
      && (quantity == held.remaining || (c.partial && reason == ProfitTarget && quantity == held.remaining / 2))
      && (reason == ProfitTarget ==> q.bid >= held.order.target)
      && (reason == ProtectiveStop ==> q.bid <= held.stop)
    ensures Inv(c, inputs, Sold(c, s, q, quantity, reason))
  {
    SaleIsLegal(c, inputs, Audit(c, s.journal), s, q, quantity, reason);
    SoldKeeps(c, inputs, s, q, quantity, reason);
  }

  lemma TargetKeeps(c: Config, inputs: seq<Input>, s: Machine, q: Quote)
    requires c.Valid() && Inv(c, inputs, s) && s.position.Some? && q.bid >= s.position.value.order.target
    requires inputs != [] && inputs[|inputs| - 1].At() == q.at
    ensures var held := s.position.value;
      Inv(c, inputs, Sold(c, s.(position := Some(held.(tookProfit := true))), q,
                          if c.partial then held.remaining / 2 else held.remaining, ProfitTarget))
  {
    var held := s.position.value;
    var marked := s.(position := Some(held.(tookProfit := true)));
    assert MatchesBooks(c, Audit(c, s.journal), marked);
    SaleKeeps(c, inputs, marked, q, if c.partial then held.remaining / 2 else held.remaining, ProfitTarget);
  }

  lemma ExitsKeep(c: Config, inputs: seq<Input>, s: Machine, q: Quote)
    requires c.Valid() && Inv(c, inputs, s)
    requires inputs != [] && inputs[|inputs| - 1].At() == q.at
    ensures Inv(c, inputs, Exits(c, s, q))
  {
    if s.position.None? {
      assert Exits(c, s, q) == s;
    } else {
      var held := s.position.value;
      if q.bid <= held.stop {
        assert Exits(c, s, q) == Sold(c, s, q, held.remaining, ProtectiveStop);
        SaleKeeps(c, inputs, s, q, held.remaining, ProtectiveStop);
      } else if q.at >= c.end {
        if q.at - c.end <= c.rules.quoteAge {
          assert Exits(c, s, q) == Sold(c, s, q, held.remaining, WindowEnd);
          SaleKeeps(c, inputs, s, q, held.remaining, WindowEnd);
        } else {
          assert Exits(c, s, q) == s;
        }
      } else if held.exitDue.Some? && q.at >= held.exitDue.value {
        assert Exits(c, s, q) == Sold(c, s, q, held.remaining, StructuralFailure);
        SaleKeeps(c, inputs, s, q, held.remaining, StructuralFailure);
      } else if q.bid >= held.order.target && !held.tookProfit {
        TargetKeeps(c, inputs, s, q);
      } else {
        assert Exits(c, s, q) == s;
      }
    }
  }

  lemma AskCoversStop(c: Config, q: Quote, stop: real, target: real)
    requires c.Valid() && QuoteOk(q) && Quality(c, q, stop, target)
    ensures 0.0 < stop < FillPrice(c, q)
  {
    SlipRaises(q.ask, c.Slip());
  }

  lemma SlipRaises(ask: real, slip: real)
    requires ask > 0.0 && slip >= 0.0
    ensures ask * (1.0 + slip) >= ask
  {
    assert ask * slip >= 0.0;
  }

  function BuyEntry(c: Config, q: Quote, o: Order): Entry {
    Buy(q.at, o.at, c.rules.shares, FillPrice(c, q), o.stop, o.target, o.level)
  }

  lemma BuyIsLegal(c: Config, inputs: seq<Input>, b: Books, q: Quote, o: Order)
    requires c.Valid() && QuoteOk(q) && b.buy.None?
    requires o.at + c.Latency() <= q.at <= o.at + c.rules.quoteAge && q.at < c.end && Quality(c, q, o.stop, o.target)
    requires b.exit.Some? ==> BrokeBetween(inputs, LevelId(o.level), b.exit.value, o.at)
    ensures Legal(c, inputs, b, BuyEntry(c, q, o))
  {
    AskCoversStop(c, q, o.stop, o.target);
  }

  lemma FilledBooks(c: Config, b: Books, s: Machine, q: Quote, o: Order)
    requires c.rules.shares > 0 && MatchesBooks(c, b, s) && s.position.None?
    ensures MatchesBooks(c, Post(c, b, BuyEntry(c, q, o)), Filled(c, s, q, o))
  {
  }

  lemma FilledKeeps(c: Config, inputs: seq<Input>, s: Machine, q: Quote)
    requires c.Valid() && Inv(c, inputs, s) && QuoteOk(q) && s.pending.Some?
    requires inputs != [] && inputs[|inputs| - 1].At() == q.at
    requires var o := s.pending.value; o.due <= q.at <= o.at + c.rules.quoteAge && q.at < c.end && Quality(c, q, o.stop, o.target)
    ensures Inv(c, inputs, Filled(c, s, q, s.pending.value))
  {
    var o, b := s.pending.value, Audit(c, s.journal);
    BuyIsLegal(c, inputs, b, q, o);
    FilledBooks(c, b, s, q, o);
    Acted(c, inputs, s, Filled(c, s, q, o), BuyEntry(c, q, o));
  }

  lemma QuoteStepKeeps(c: Config, inputs: seq<Input>, s: Machine, q: Quote)
    requires c.Valid() && Inv(c, inputs, s) && QuoteOk(q)
    requires inputs != [] && inputs[|inputs| - 1].At() == q.at
    ensures Inv(c, inputs, QuoteStep(c, s, q))
  {
    var s1 := s.(quote := Some(q));
    var s2 := Exits(c, s1, q);
    ExitsKeep(c, inputs, s1, q);
    if s2.pending.Some? && q.at >= s2.pending.value.due {
      var o := s2.pending.value;
      if q.at <= o.at + c.rules.quoteAge && q.at < c.end && Quality(c, q, o.stop, o.target) {
        FilledKeeps(c, inputs, s2, q);
      }
    }
  }

  // ---------- Candles keep it ----------

  lemma {:induction false} BreaksAreObserved(inputs: seq<Input>, breaks: map<Id, real>, row: Row, events: seq<Event>)
    requires BreaksOk(inputs, breaks) && inputs != [] && inputs[|inputs| - 1] == R(row)
    requires forall e :: e in events ==> e in row.events
    ensures BreaksOk(inputs, Breaks(breaks, events, row.at))
    decreases |events|
  {
    if events != [] {
      var e := events[0];
      var next := if e.state == Breakout then breaks[LevelId(e.level) := row.at] else breaks;
      assert e in row.events;
      forall id | id in next
        ensures exists i :: 0 <= i < |inputs| && inputs[i].R? && inputs[i].At() == next[id] && BreaksLevel(inputs[i].row, id)
      {
        if e.state == Breakout && id == LevelId(e.level) {
          assert inputs[|inputs| - 1].R? && BreaksLevel(inputs[|inputs| - 1].row, id);
        }
      }
      BreaksAreObserved(inputs, next, row, events[1..]);
    }
  }

  lemma AskExitKeeps(c: Config, inputs: seq<Input>, s: Machine, row: Row)
    requires c.rules.shares > 0 && Inv(c, inputs, s) && s.position.Some?
    requires inputs != [] && inputs[|inputs| - 1].At() == row.at
    ensures Inv(c, inputs, AskExit(c, s, row))
  {
    var t := AskExit(c, s, row);
    if t.journal != s.journal {
      Acted(c, inputs, s, t, ExitRequested(row.at));
    }
  }

  lemma RatchetKeeps(c: Config, inputs: seq<Input>, s: Machine, row: Row)
    requires c.rules.shares > 0 && Inv(c, inputs, s) && s.position.Some?
    requires inputs != [] && inputs[|inputs| - 1].At() == row.at
    ensures Inv(c, inputs, Ratchet(c, s, row))
  {
    var t := Ratchet(c, s, row);
    if t != s {
      Acted(c, inputs, s, t, RaiseStop(row.at, s.bars[1].low - c.rules.tick, s.bars[1].end));
    }
  }

  /** An order may be requested only after a fresh breakout of its own level. */
  lemma GateMeansFresh(c: Config, inputs: seq<Input>, s: Machine, row: Row, level: Level)
    requires c.rules.shares > 0 && Inv(c, inputs, s) && inputs != [] && inputs[|inputs| - 1] == R(row)
    requires Gate(c, s, row, level).None? && s.exit.Some?
    ensures BrokeBetween(inputs, LevelId(level), s.exit.value, row.at)
  {
    var id := LevelId(level);
    var i :| 0 <= i < |inputs| && inputs[i].R? && inputs[i].At() == s.breaks[id] && BreaksLevel(inputs[i].row, id);
    assert inputs[i].At() <= inputs[|inputs| - 1].At();
  }

  lemma BlockedKeeps(c: Config, inputs: seq<Input>, s: Machine, row: Row, why: BlockReason, level: Level)
    requires c.rules.shares > 0 && Inv(c, inputs, s) && s.position.None?
    requires inputs != [] && inputs[|inputs| - 1] == R(row)
    ensures Inv(c, inputs, Blocked(s, row, why, level))
  {
    Acted(c, inputs, s, Blocked(s, row, why, level), EntryBlocked(row.at, why, level));
  }

  lemma RequestKeeps(c: Config, inputs: seq<Input>, s: Machine, row: Row, level: Level)
    requires c.rules.shares > 0 && Inv(c, inputs, s) && s.position.None? && s.pending.None?
    requires inputs != [] && inputs[|inputs| - 1] == R(row) && Gate(c, s, row, level).None?
    ensures Inv(c, inputs, Requested(c, s, row, level))
  {
    if s.exit.Some? {
      GateMeansFresh(c, inputs, s, row, level);
    }
    Acted(c, inputs, s, Requested(c, s, row, level),
          EntryRequested(row.at, level.lower - c.rules.tick, TargetFor(row, level), level));
  }

  lemma {:induction false} EnterKeeps(c: Config, inputs: seq<Input>, s: Machine, row: Row, events: seq<Event>)
    requires c.rules.shares > 0 && Inv(c, inputs, s) && s.position.None? && s.pending.None?
    requires inputs != [] && inputs[|inputs| - 1] == R(row)
    ensures Inv(c, inputs, Enter(c, s, row, events))
    decreases |events|
  {
    if events != [] {
      if events[0].state != BreakoutAccepted {
        EnterKeeps(c, inputs, s, row, events[1..]);
      } else {
        var why := Gate(c, s, row, events[0].level);
        if why.Some? {
          BlockedKeeps(c, inputs, s, row, why.value, events[0].level);
          EnterKeeps(c, inputs, Blocked(s, row, why.value, events[0].level), row, events[1..]);
        } else {
          RequestKeeps(c, inputs, s, row, events[0].level);
        }
      }
    }
  }

  lemma RowStepKeeps(c: Config, inputs: seq<Input>, s: Machine, row: Row)
    requires c.Valid() && Inv(c, inputs, s)
    requires inputs != [] && inputs[|inputs| - 1] == R(row)
    ensures Inv(c, inputs, RowStep(c, s, row))
  {
    var seen := Observed(s, row);
    BreaksAreObserved(inputs, s.breaks, row, row.events);
    assert Inv(c, inputs, seen);
    if seen.position.Some? {
      AskExitKeeps(c, inputs, seen, row);
      RatchetKeeps(c, inputs, AskExit(c, seen, row), row);
    } else if seen.pending.None? {
      EnterKeeps(c, inputs, seen, row, row.events);
    }
  }

  lemma StepKeeps(c: Config, inputs: seq<Input>, s: Machine, input: Input)
    requires c.Valid() && Inv(c, inputs, s) && input.Ok()
    requires inputs != [] ==> inputs[|inputs| - 1].At() <= input.At()
    ensures Inv(c, inputs + [input], Step(c, s, input))
  {
    InvExtends(c, inputs, input, s);
    match input
    case Q(q) => QuoteStepKeeps(c, inputs + [input], s, q);
    case R(row) => RowStepKeeps(c, inputs + [input], s, row);
  }
}
