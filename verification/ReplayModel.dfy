/** The managed-breakout replay as a step function over quotes and closed candles. */
module ReplayModel {
  import opened Common

  datatype Id = Unified(id: string) | Bounds(lower: real, upper: real)

  datatype Level = Level(unified: string, lower: real, upper: real, resistance: bool, confirmedMs: real)

  /** A level's identity: its unified id when it has one, otherwise its band. */
  function LevelId(level: Level): Id {
    if level.unified != "" then Unified(level.unified) else Bounds(level.lower, level.upper)
  }

  datatype EventState = Breakout | BreakoutAccepted | FailedBreakout | Rejection | OtherState

  datatype Event = Event(state: EventState, level: Level)

  datatype Bar = Bar(time: real, end: real, high: real, low: real, close: real)

  /** One closed decision candle with its as-of evidence. */
  datatype Row = Row(at: real, bar: Bar, levels: seq<Level>, events: seq<Event>,
                     shares: real, dollars: real, rate10: real, rate60: real)

  datatype Quote = Quote(at: real, bid: real, ask: real)

  datatype Rules = Rules(latencyMs: real, quoteAge: real, maxSpreadBps: real, minDollars: real, minShares: real,
                         minTradeRate: real, tick: real, shares: int, fee: real, slippageBps: real,
                         minRewardRisk: real, stopSpreads: real, stopTicks: real)

  const RULES := Rules(100.0, 1.0, 100.0, 1000000.0, 100000.0, 5.0, 0.01, 100, 1.0, 5.0, 1.5, 2.0, 2.0)

  datatype Config = Config(rules: Rules, end: real, partial: bool) {
    /** Slippage as a fraction of price. */
    function Slip(): real {
      rules.slippageBps / 10000.0
    }

    function Latency(): real {
      rules.latencyMs / 1000.0
    }

    /** Both fees of a round trip, per share. */
    function FeesPerShare(): real
      requires rules.shares > 0
    {
      2.0 * rules.fee / rules.shares as real
    }

    predicate Valid() {
      && rules.shares > 0 && rules.fee >= 0.0
      && 0.0 <= rules.slippageBps <= 10000.0
      && rules.quoteAge >= 0.0 && rules.latencyMs >= 0.0
    }
  }

  /** A pending entry: decided at `at`, fillable from `due`. */
  datatype Order = Order(at: real, due: real, stop: real, target: real, level: Level)

  datatype Position = Position(order: Order, stop: real, entryAt: real, entry: real, remaining: int, cash: real,
                               tookProfit: bool, belowCount: nat, exitDue: Option<real>)

  datatype ExitReason = ProtectiveStop | WindowEnd | StructuralFailure | ProfitTarget

  datatype BlockReason =
    | FreshBreakRequired | SessionVolume | Activity | StaleQuote | RoomStopOrSpread | EntryExpired | ExecutionQuality

  datatype Trade = Trade(position: Position, exitAt: real, reason: ExitReason, net: real)

  datatype Entry =
    | Buy(at: real, decisionAt: real, quantity: int, price: real, stop: real, target: real, level: Level)
    | Sell(at: real, quantity: int, price: real, reason: ExitReason, stop: real)
    | ExitRequested(at: real)
    | RaiseStop(at: real, stop: real, swingAt: real)
    | EntryBlocked(at: real, block: BlockReason, level: Level)
    | EntryRequested(at: real, stop: real, target: real, level: Level)

  datatype Machine = Machine(position: Option<Position>, pending: Option<Order>, quote: Option<Quote>, bars: seq<Bar>,
                             exit: Option<real>, breaks: map<Id, real>, trades: seq<Trade>, journal: seq<Entry>,
                             blocked: multiset<BlockReason>)

  const INITIAL := Machine(None, None, None, [], None, map[], [], [], multiset{})

  function Min(x: real, y: real): real {
    if x <= y then x else y
  }

  // ---------- Quotes ----------

  predicate QuoteOk(q: Quote) {
    0.0 < q.bid <= q.ask
  }

  /** Loss per share from a fill at this quote to the stop, costs included. */
  function Risk(c: Config, price: real, stop: real): real
    requires c.rules.shares > 0
  {
    price - stop * (1.0 - c.Slip()) + c.FeesPerShare()
  }

  /** Gain per share from a fill at this quote to the target, costs included. */
  function Reward(c: Config, price: real, target: real): real
    requires c.rules.shares > 0
  {
    target * (1.0 - c.Slip()) - price - c.FeesPerShare()
  }

  function FillPrice(c: Config, q: Quote): real {
    q.ask * (1.0 + c.Slip())
  }

  function SalePrice(c: Config, q: Quote): real {
    q.bid * (1.0 - c.Slip())
  }

  /** Cash after paying for shares and one fee. */
  function Spent(cash: real, quantity: int, price: real, fee: real): real {
    cash - quantity as real * price - fee
  }

  /** Cash after selling shares less one fee. */
  function Received(cash: real, quantity: int, price: real, fee: real): real {
    cash + quantity as real * price - fee
  }

  predicate Quality(c: Config, q: Quote, stop: real, target: real)
    requires c.rules.shares > 0 && QuoteOk(q)
  {
    var ask := FillPrice(c, q);
    && 0.0 < stop < q.bid <= q.ask < target
    && q.bid - stop + 0.000000001 >= Max(c.rules.stopTicks * c.rules.tick, c.rules.stopSpreads * (q.ask - q.bid))
    && Reward(c, ask, target) >= c.rules.minRewardRisk * Risk(c, ask, stop)
    && 20000.0 * (q.ask - q.bid) / (q.ask + q.bid) <= c.rules.maxSpreadBps
  }

  function Sold(c: Config, s: Machine, q: Quote, quantity: int, reason: ExitReason): Machine
    requires s.position.Some?
  {
    var price := SalePrice(c, q);
    var held := s.position.value;
    var left := held.(cash := Received(held.cash, quantity, price, c.rules.fee), remaining := held.remaining - quantity);
    var journal := s.journal + [Sell(q.at, quantity, price, reason, held.stop)];
    if left.remaining == 0 then
      s.(position := None, exit := Some(q.at), trades := s.trades + [Trade(left, q.at, reason, left.cash)], journal := journal)
    else s.(position := Some(left), journal := journal)
  }

  /** What a quote does to an open position: stop, window end, structural exit, target, in that order. */
  function Exits(c: Config, s: Machine, q: Quote): Machine {
    if s.position.None? then s
    else
      var held := s.position.value;
      if q.bid <= held.stop then Sold(c, s, q, held.remaining, ProtectiveStop)
      else if q.at >= c.end then
        if q.at - c.end <= c.rules.quoteAge then Sold(c, s, q, held.remaining, WindowEnd) else s
      else if held.exitDue.Some? && q.at >= held.exitDue.value then Sold(c, s, q, held.remaining, StructuralFailure)
      else if q.bid >= held.order.target && !held.tookProfit then
        Sold(c, s.(position := Some(held.(tookProfit := true))), q,
             if c.partial then held.remaining / 2 else held.remaining, ProfitTarget)
      else s
  }

  function Filled(c: Config, s: Machine, q: Quote, order: Order): Machine {
    var price := FillPrice(c, q);
    s.(pending := None,
       position := Some(Position(order, order.stop, q.at, price, c.rules.shares,
                                 Spent(0.0, c.rules.shares, price, c.rules.fee), false, 0, None)),
       journal := s.journal + [Buy(q.at, order.at, c.rules.shares, price, order.stop, order.target, order.level)])
  }

  /** What a quote does to a due order: expire, fail quality, or fill. */
  function Fills(c: Config, s: Machine, q: Quote): Machine
    requires c.rules.shares > 0 && QuoteOk(q)
  {
    if s.pending.None? || q.at < s.pending.value.due then s
    else
      var order := s.pending.value;
      if q.at > order.at + c.rules.quoteAge || q.at >= c.end then
        s.(pending := None, blocked := s.blocked + multiset{EntryExpired})
      else if !Quality(c, q, order.stop, order.target) then
        s.(pending := None, blocked := s.blocked + multiset{ExecutionQuality})
      else Filled(c, s, q, order)
  }

  function QuoteStep(c: Config, s: Machine, q: Quote): Machine
    requires c.rules.shares > 0 && QuoteOk(q)
  {
    Fills(c, Exits(c, s.(quote := Some(q)), q), q)
  }

  // ---------- Candles ----------

  /** No evidence on the candle was confirmed after it. */
  predicate RowOk(row: Row) {
    && (forall l :: l in row.levels ==> l.confirmedMs <= row.at * 1000.0)
    && (forall e :: e in row.events ==> e.level.confirmedMs <= row.at * 1000.0)
  }

  function LastThree(bars: seq<Bar>, bar: Bar): seq<Bar> {
    (if |bars| >= 3 then bars[|bars| - 2..] else bars) + [bar]
  }

  function Breaks(breaks: map<Id, real>, events: seq<Event>, at: real): map<Id, real>
    decreases |events|
  {
    if events == [] then breaks
    else Breaks(if events[0].state == Breakout then breaks[LevelId(events[0].level) := at] else breaks, events[1..], at)
  }

  predicate FailedAt(events: seq<Event>, level: Level) {
    exists e :: e in events && e.state == FailedBreakout && LevelId(e.level) == LevelId(level)
  }

  /** Counts closes below the band and asks for a structural exit once. */
  function AskExit(c: Config, s: Machine, row: Row): Machine
    requires s.position.Some?
  {
    var held := s.position.value;
    var below := if row.bar.close < held.order.level.lower then held.belowCount + 1 else 0;
    var counted := held.(belowCount := below);
    if (FailedAt(row.events, held.order.level) || below >= 2) && held.exitDue.None? then
      s.(position := Some(counted.(exitDue := Some(row.at + c.Latency()))), journal := s.journal + [ExitRequested(row.at)])
    else s.(position := Some(counted))
  }

  /** Three contiguous candles whose middle one is a swing low formed after entry. */
  predicate SwingLow(bars: seq<Bar>, entryAt: real) {
    && |bars| == 3
    && bars[0].end == bars[1].time && bars[1].end == bars[2].time
    && bars[1].time > entryAt && bars[1].low < bars[0].low && bars[1].low < bars[2].low
  }

  function Ratchet(c: Config, s: Machine, row: Row): Machine
    requires s.position.Some?
  {
    var held := s.position.value;
    if !SwingLow(s.bars, held.entryAt) then s
    else
      var stop := s.bars[1].low - c.rules.tick;
      if s.quote.Some? && row.at - s.quote.value.at <= c.rules.quoteAge
         && held.stop < stop < s.quote.value.bid
         && s.quote.value.bid - stop
            >= Max(c.rules.stopTicks * c.rules.tick, c.rules.stopSpreads * (s.quote.value.ask - s.quote.value.bid)) then
        s.(position := Some(held.(stop := stop)), journal := s.journal + [RaiseStop(row.at, stop, s.bars[1].end)])
      else s
  }

  /** Lowest resistance above both the close and the level; zero when there is none. */
  function Overhead(levels: seq<Level>, above: real): seq<real> {
    if levels == [] then []
    else (if levels[0].resistance && levels[0].lower > above then [levels[0].lower] else []) + Overhead(levels[1..], above)
  }

  function Least(xs: seq<real>): real
    requires xs != []
  {
    if |xs| == 1 then xs[0] else Min(xs[0], Least(xs[1..]))
  }

  function TargetFor(row: Row, level: Level): real {
    var overhead := Overhead(row.levels, Max(row.bar.close, level.upper));
    if overhead == [] then 0.0 else Least(overhead)
  }

  /** A resistance that lies above both the close and the level broken. */
  predicate IsOverhead(row: Row, level: Level, l: Level) {
    l in row.levels && l.resistance && l.lower > row.bar.close && l.lower > level.upper
  }

  /** The lowest overhead resistance; zero when there is none. */
  ghost predicate IsTarget(row: Row, level: Level, target: real) {
    if exists l :: IsOverhead(row, level, l) then
      (exists l :: IsOverhead(row, level, l) && target == l.lower) && forall l :: IsOverhead(row, level, l) ==> target <= l.lower
    else target == 0.0
  }

  lemma {:induction false} OverheadIs(levels: seq<Level>, above: real, x: real)
    ensures x in Overhead(levels, above) <==> exists l :: l in levels && l.resistance && l.lower > above && x == l.lower
  {
    if levels != [] {
      OverheadIs(levels[1..], above, x);
      assert forall l :: l in levels <==> l == levels[0] || l in levels[1..];
    }
  }

  lemma {:induction false} LeastIs(xs: seq<real>)
    requires xs != []
    ensures Least(xs) in xs && forall x :: x in xs ==> Least(xs) <= x
  {
    if |xs| > 1 {
      LeastIs(xs[1..]);
      assert forall x :: x in xs <==> x == xs[0] || x in xs[1..];
    }
  }

  lemma TargetIs(row: Row, level: Level)
    ensures IsTarget(row, level, TargetFor(row, level))
  {
    var above := Max(row.bar.close, level.upper);
    var xs := Overhead(row.levels, above);
    if xs == [] {
      forall l ensures !IsOverhead(row, level, l) {
        OverheadIs(row.levels, above, l.lower);
      }
    } else {
      LeastIs(xs);
      OverheadIs(row.levels, above, Least(xs));
      var l :| l in row.levels && l.resistance && l.lower > above && Least(xs) == l.lower;
      assert IsOverhead(row, level, l);
      forall m | IsOverhead(row, level, m) ensures l.lower <= m.lower {
        OverheadIs(row.levels, above, m.lower);
      }
    }
  }

  /** Why an accepted breakout may not be entered now, if anything forbids it. */
  function Gate(c: Config, s: Machine, row: Row, level: Level): Option<BlockReason>
    requires c.rules.shares > 0 && (s.quote.Some? ==> QuoteOk(s.quote.value))
  {
    if s.exit.Some? && (LevelId(level) !in s.breaks || s.breaks[LevelId(level)] <= s.exit.value) then Some(FreshBreakRequired)
    else if row.shares < c.rules.minShares || row.dollars < c.rules.minDollars then Some(SessionVolume)
    else if Min(row.rate10, row.rate60) < c.rules.minTradeRate then Some(Activity)
    else if s.quote.None? || row.at - s.quote.value.at > c.rules.quoteAge then Some(StaleQuote)
    else if !Quality(c, s.quote.value, level.lower - c.rules.tick, TargetFor(row, level)) then Some(RoomStopOrSpread)
    else None
  }

  function Blocked(s: Machine, row: Row, why: BlockReason, level: Level): Machine {
    s.(blocked := s.blocked + multiset{why}, journal := s.journal + [EntryBlocked(row.at, why, level)])
  }

  function Requested(c: Config, s: Machine, row: Row, level: Level): Machine {
    var stop, target := level.lower - c.rules.tick, TargetFor(row, level);
    s.(pending := Some(Order(row.at, row.at + c.Latency(), stop, target, level)),
       journal := s.journal + [EntryRequested(row.at, stop, target, level)])
  }

  /** Scans accepted breakouts in order; the first one allowed becomes the pending order. */
  function Enter(c: Config, s: Machine, row: Row, events: seq<Event>): Machine
    requires c.rules.shares > 0 && (s.quote.Some? ==> QuoteOk(s.quote.value))
    decreases |events|
  {
    if events == [] then s
    else if events[0].state != BreakoutAccepted then Enter(c, s, row, events[1..])
    else
      var level := events[0].level;
      var why := Gate(c, s, row, level);
      if why.Some? then Enter(c, Blocked(s, row, why.value, level), row, events[1..]) else Requested(c, s, row, level)
  }

  function Observed(s: Machine, row: Row): Machine {
    s.(bars := LastThree(s.bars, row.bar), breaks := Breaks(s.breaks, row.events, row.at))
  }

  function RowStep(c: Config, s: Machine, row: Row): Machine
    requires c.rules.shares > 0 && (s.quote.Some? ==> QuoteOk(s.quote.value))
  {
    var seen := Observed(s, row);
    if seen.position.Some? then Ratchet(c, AskExit(c, seen, row), row)
    else if seen.pending.Some? then seen
    else Enter(c, seen, row, row.events)
  }

  // ---------- The merged stream ----------

  datatype Input = Q(quote: Quote) | R(row: Row) {
    function At(): real {
      match this
      case Q(q) => q.at
      case R(r) => r.at
    }

    predicate Ok() {
      match this
      case Q(q) => QuoteOk(q)
      case R(r) => RowOk(r)
    }
  }

  /** Quotes the replay still consumes after its last candle. */
  function Tail(c: Config, quotes: seq<Quote>): seq<Input> {
    if quotes == [] || quotes[0].at > c.end + c.rules.quoteAge then []
    else [Q(quotes[0])] + Tail(c, quotes[1..])
  }

  /** Quotes precede a candle at equal times; candles at or after the end are never seen. */
  function Merge(c: Config, rows: seq<Row>, quotes: seq<Quote>): seq<Input>
    decreases |rows| + |quotes|
  {
    if rows == [] || rows[0].at >= c.end then Tail(c, quotes)
    else if quotes != [] && quotes[0].at <= rows[0].at then [Q(quotes[0])] + Merge(c, rows, quotes[1..])
    else [R(rows[0])] + Merge(c, rows[1..], quotes)
  }

  datatype Error = UnorderedCandles | UnorderedQuotes | InvalidQuote | FutureConfirmation

  datatype Result = Ok(machine: Machine) | Err(error: Error)

  function Step(c: Config, s: Machine, input: Input): Machine
    requires c.rules.shares > 0 && input.Ok() && (s.quote.Some? ==> QuoteOk(s.quote.value))
  {
    match input
    case Q(q) => QuoteStep(c, s, q)
    case R(r) => RowStep(c, s, r)
  }

  lemma QuoteStepSetsQuote(c: Config, s: Machine, q: Quote)
    requires c.rules.shares > 0 && QuoteOk(q)
    ensures QuoteStep(c, s, q).quote == Some(q)
  {
    var s1 := s.(quote := Some(q));
    assert Exits(c, s1, q).quote == Some(q);
  }

  lemma RowStepKeepsQuote(c: Config, s: Machine, row: Row)
    requires c.rules.shares > 0 && (s.quote.Some? ==> QuoteOk(s.quote.value))
    ensures RowStep(c, s, row).quote == s.quote
  {
    var seen := Observed(s, row);
    if seen.position.Some? {
      assert Ratchet(c, AskExit(c, seen, row), row).quote == s.quote;
    } else if seen.pending.None? {
      EnterFrame(c, seen, row, row.events);
    }
  }

  lemma StepKeepsQuoteOk(c: Config, s: Machine, input: Input)
    requires c.rules.shares > 0 && input.Ok() && (s.quote.Some? ==> QuoteOk(s.quote.value))
    ensures Step(c, s, input).quote.Some? ==> QuoteOk(Step(c, s, input).quote.value)
  {
    match input
    case Q(q) => QuoteStepSetsQuote(c, s, q);
    case R(r) => RowStepKeepsQuote(c, s, r);
  }

  /** Scanning for an entry touches only the pending order, the journal and the counters. */
  lemma {:induction false} EnterFrame(c: Config, s: Machine, row: Row, events: seq<Event>)
    requires c.rules.shares > 0 && (s.quote.Some? ==> QuoteOk(s.quote.value))
    ensures var t := Enter(c, s, row, events);
      t == s.(pending := t.pending, journal := t.journal, blocked := t.blocked)
    decreases |events|
  {
    if events != [] {
      if events[0].state != BreakoutAccepted {
        EnterFrame(c, s, row, events[1..]);
      } else {
        var level := events[0].level;
        var why := Gate(c, s, row, level);
        if why.Some? {
          EnterFrame(c, Blocked(s, row, why.value, level), row, events[1..]);
        }
      }
    }
  }

  /** Plays inputs in order; the first invalid one aborts the replay. */
  function Play(c: Config, inputs: seq<Input>, s: Machine): Result
    requires c.rules.shares > 0 && (s.quote.Some? ==> QuoteOk(s.quote.value))
    decreases |inputs|
  {
    if inputs == [] then Ok(s)
    else if !inputs[0].Ok() then Err(if inputs[0].Q? then InvalidQuote else FutureConfirmation)
    else
      StepKeepsQuoteOk(c, s, inputs[0]);
      Play(c, inputs[1..], Step(c, s, inputs[0]))
  }

  predicate RowsOrdered(rows: seq<Row>) {
    forall i, j :: 0 <= i < j < |rows| ==> rows[i].at < rows[j].at
  }

  predicate QuotesOrdered(quotes: seq<Quote>) {
    forall i, j :: 0 <= i < j < |quotes| ==> quotes[i].at <= quotes[j].at
  }

  /** The whole replay. */
  function Replay(c: Config, rows: seq<Row>, quotes: seq<Quote>): Result
    requires c.rules.shares > 0
  {
    if !RowsOrdered(rows) then Err(UnorderedCandles)
    else if !QuotesOrdered(quotes) then Err(UnorderedQuotes)
    else Play(c, Merge(c, rows, quotes), INITIAL)
  }
}
