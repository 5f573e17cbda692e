/** The replay as it runs: mutable position, order, quote, candles, breakouts and journal, two cursors over the inputs. */
module ReplayMachine {
  import opened Common
  import opened ReplayModel

  method CandlesOrdered(rows: seq<Row>) returns (ok: bool)
    ensures ok == RowsOrdered(rows)
  {
    var i := 0;
    while i + 1 < |rows|
      invariant 0 <= i && (rows != [] ==> i < |rows|)
      invariant forall j, k :: 0 <= j < k <= i && k < |rows| ==> rows[j].at < rows[k].at
    {
      if rows[i].at >= rows[i + 1].at {
        return false;
      }
      i := i + 1;
    }
    return true;
  }

  method QuotesInOrder(quotes: seq<Quote>) returns (ok: bool)
    ensures ok == QuotesOrdered(quotes)
  {
    var i := 0;
    while i + 1 < |quotes|
      invariant 0 <= i && (quotes != [] ==> i < |quotes|)
      invariant forall j, k :: 0 <= j < k <= i && k < |quotes| ==> quotes[j].at <= quotes[k].at
    {
      if quotes[i].at > quotes[i + 1].at {
        return false;
      }
      i := i + 1;
    }
    return true;
  }

  /** A quote no later than the next candle is the next input. */
  lemma QuoteNext(c: Config, rows: seq<Row>, quotes: seq<Quote>, s: Machine)
    requires c.rules.shares > 0 && (s.quote.Some? ==> QuoteOk(s.quote.value))
    requires rows != [] && rows[0].at < c.end && quotes != [] && quotes[0].at <= rows[0].at
    ensures QuoteOk(quotes[0]) ==>
      && QuoteStep(c, s, quotes[0]).quote == Some(quotes[0])
      && Play(c, Merge(c, rows, quotes), s) == Play(c, Merge(c, rows, quotes[1..]), QuoteStep(c, s, quotes[0]))
    ensures !QuoteOk(quotes[0]) ==> Play(c, Merge(c, rows, quotes), s) == Err(InvalidQuote)
  {
    var inputs := Merge(c, rows, quotes);
    assert inputs[0] == Q(quotes[0]) && inputs[1..] == Merge(c, rows, quotes[1..]);
    if QuoteOk(quotes[0]) {
      QuoteStepSetsQuote(c, s, quotes[0]);
    }
  }

  /** After the last candle the next quote is the next input, up to one quote age past the end. */
  lemma TailNext(c: Config, quotes: seq<Quote>, s: Machine)
    requires c.rules.shares > 0 && (s.quote.Some? ==> QuoteOk(s.quote.value))
    requires quotes != [] && quotes[0].at <= c.end + c.rules.quoteAge
    ensures QuoteOk(quotes[0]) ==>
      && QuoteStep(c, s, quotes[0]).quote == Some(quotes[0])
      && Play(c, Tail(c, quotes), s) == Play(c, Tail(c, quotes[1..]), QuoteStep(c, s, quotes[0]))
    ensures !QuoteOk(quotes[0]) ==> Play(c, Tail(c, quotes), s) == Err(InvalidQuote)
  {
    var inputs := Tail(c, quotes);
    assert inputs[0] == Q(quotes[0]) && inputs[1..] == Tail(c, quotes[1..]);
    if QuoteOk(quotes[0]) {
      QuoteStepSetsQuote(c, s, quotes[0]);
    }
  }

  /** Nothing is left once the quotes run out or lie more than one quote age past the end. */
  lemma TailEnds(c: Config, quotes: seq<Quote>, s: Machine)
    requires c.rules.shares > 0 && (s.quote.Some? ==> QuoteOk(s.quote.value))
    requires quotes != [] ==> quotes[0].at > c.end + c.rules.quoteAge
    ensures Play(c, Tail(c, quotes), s) == Ok(s)
  {
  }

  /** Once no candle before the end is left, only the tail of quotes remains. */
  lemma CandlesEnd(c: Config, rows: seq<Row>, quotes: seq<Quote>)
    requires rows != [] ==> rows[0].at >= c.end
    ensures Merge(c, rows, quotes) == Tail(c, quotes)
  {
  }

  /** Once no quote is due before it, the next candle is the next input. */
  lemma CandleNext(c: Config, rows: seq<Row>, quotes: seq<Quote>, s: Machine)
    requires c.rules.shares > 0 && (s.quote.Some? ==> QuoteOk(s.quote.value))
    requires rows != [] && rows[0].at < c.end && (quotes != [] ==> quotes[0].at > rows[0].at)
    ensures var t := RowStep(c, s, rows[0]);
      && t.quote == s.quote
      && Play(c, Merge(c, rows, quotes), s)
         == if RowOk(rows[0]) then Play(c, Merge(c, rows[1..], quotes), t) else Err(FutureConfirmation)
  {
    RowStepKeepsQuote(c, s, rows[0]);
    assert Merge(c, rows, quotes)[1..] == Merge(c, rows[1..], quotes);
  }

  class Replayer {
    const c: Config
    var position: Option<Position>
    var pending: Option<Order>
    var quote: Option<Quote>
    var bars: seq<Bar>
    var exit: Option<real>
    var breaks: map<Id, real>
    var trades: seq<Trade>
    var journal: seq<Entry>
    var blocked: multiset<BlockReason>

    constructor (c: Config)
      ensures this.c == c && State() == INITIAL
    {
      this.c := c;
      position, pending, quote, bars, exit := None, None, None, [], None;
      breaks, trades, journal, blocked := map[], [], [], multiset{};
    }

    function State(): Machine
      reads this
    {
      Machine(position, pending, quote, bars, exit, breaks, trades, journal, blocked)
    }

    predicate QuoteValid()
      reads this
    {
      quote.Some? ==> QuoteOk(quote.value)
    }

    method Sell(q: Quote, quantity: int, reason: ExitReason)
      requires position.Some?
      modifies this
      ensures State() == Sold(c, old(State()), q, quantity, reason)
    {
      var price := SalePrice(c, q);
      var held := position.value;
      held := held.(cash := Received(held.cash, quantity, price, c.rules.fee), remaining := held.remaining - quantity);
      journal := journal + [Entry.Sell(q.at, quantity, price, reason, held.stop)];
      if held.remaining == 0 {
        trades := trades + [Trade(held, q.at, reason, held.cash)];
        exit := Some(q.at);
        position := None;
      } else {
        position := Some(held);
      }
    }

    method LeavePosition(q: Quote)
      modifies this
      ensures State() == Exits(c, old(State()), q)
    {
      if position.Some? {
        var held := position.value;
        if q.bid <= held.stop {
          Sell(q, held.remaining, ProtectiveStop);
        } else if q.at >= c.end {
          if q.at - c.end <= c.rules.quoteAge {
            Sell(q, held.remaining, WindowEnd);
          }
        } else if held.exitDue.Some? && q.at >= held.exitDue.value {
          Sell(q, held.remaining, StructuralFailure);
        } else if q.bid >= held.order.target && !held.tookProfit {
          var quantity := if c.partial then held.remaining / 2 else held.remaining;
          position := Some(held.(tookProfit := true));
          Sell(q, quantity, ProfitTarget);
        }
      }
    }

    method Purchase(q: Quote, order: Order)
      modifies this
      ensures State() == Filled(c, old(State()), q, order)
    {
      var price := FillPrice(c, q);
      pending := None;
      position := Some(Position(order, order.stop, q.at, price, c.rules.shares,
                                Spent(0.0, c.rules.shares, price, c.rules.fee), false, 0, None));
      journal := journal + [Buy(q.at, order.at, c.rules.shares, price, order.stop, order.target, order.level)];
    }

    method FillOrder(q: Quote)
      requires c.rules.shares > 0 && QuoteOk(q)
      modifies this
      ensures State() == Fills(c, old(State()), q)
    {
      if pending.Some? && q.at >= pending.value.due {
        var order := pending.value;
        pending := None;
        if q.at > order.at + c.rules.quoteAge || q.at >= c.end {
          blocked := blocked + multiset{EntryExpired};
        } else if !Quality(c, q, order.stop, order.target) {
          blocked := blocked + multiset{ExecutionQuality};
        } else {
          Purchase(q, order);
        }
      }
    }

    method OnQuote(q: Quote) returns (error: Option<Error>)
      requires c.rules.shares > 0
      modifies this
      ensures error == if QuoteOk(q) then None else Some(InvalidQuote)
      ensures State() == if QuoteOk(q) then QuoteStep(c, old(State()), q) else old(State())
    {
      if !QuoteOk(q) {
        return Some(InvalidQuote);
      }
      quote := Some(q);
      LeavePosition(q);
      FillOrder(q);
      return None;
    }

    method RecordBreaks(row: Row)
      modifies this
      ensures State() == old(State()).(breaks := Breaks(old(breaks), row.events, row.at))
    {
      var i := 0;
      while i < |row.events|
        invariant 0 <= i <= |row.events|
        invariant Breaks(breaks, row.events[i..], row.at) == Breaks(old(breaks), row.events, row.at)
        invariant State() == old(State()).(breaks := breaks)
      {
        if row.events[i].state == Breakout {
          breaks := breaks[LevelId(row.events[i].level) := row.at];
        }
        assert row.events[i..][1..] == row.events[i + 1..];
        i := i + 1;
      }
    }

    method WatchStructure(row: Row)
      requires position.Some?
      modifies this
      ensures State() == AskExit(c, old(State()), row)
    {
      var held := position.value;
      held := held.(belowCount := if row.bar.close < held.order.level.lower then held.belowCount + 1 else 0);
      if FailedAt(row.events, held.order.level) || held.belowCount >= 2 {
        if held.exitDue.None? {
          held := held.(exitDue := Some(row.at + c.Latency()));
          journal := journal + [ExitRequested(row.at)];
        }
      }
      position := Some(held);
    }

    method TrailStop(row: Row)
      requires position.Some?
      modifies this
      ensures State() == Ratchet(c, old(State()), row)
    {
      var held := position.value;
      if SwingLow(bars, held.entryAt) {
        var stop := bars[1].low - c.rules.tick;
        if quote.Some? && row.at - quote.value.at <= c.rules.quoteAge && held.stop < stop < quote.value.bid {
          var room := Max(c.rules.stopTicks * c.rules.tick, c.rules.stopSpreads * (quote.value.ask - quote.value.bid));
          if quote.value.bid - stop >= room {
            position := Some(held.(stop := stop));
            journal := journal + [RaiseStop(row.at, stop, bars[1].end)];
          }
        }
      }
    }

    method ScanEntries(row: Row)
      requires c.rules.shares > 0 && QuoteValid()
      modifies this
      ensures State() == Enter(c, old(State()), row, row.events)
    {
      var i := 0;
      while i < |row.events|
        invariant 0 <= i <= |row.events|
        invariant QuoteValid()
        invariant Enter(c, State(), row, row.events[i..]) == Enter(c, old(State()), row, row.events)
      {
        assert row.events[i..][0] == row.events[i] && row.events[i..][1..] == row.events[i + 1..];
        if row.events[i].state == BreakoutAccepted {
          var level := row.events[i].level;
          var reason := Gate(c, State(), row, level);
          if reason.None? {
            var stop, target := level.lower - c.rules.tick, TargetFor(row, level);
            ghost var before := State();
            pending := Some(Order(row.at, row.at + c.Latency(), stop, target, level));
            journal := journal + [EntryRequested(row.at, stop, target, level)];
            assert State() == Requested(c, before, row, level);
            return;
          }
          ghost var before := State();
          blocked := blocked + multiset{reason.value};
          journal := journal + [EntryBlocked(row.at, reason.value, level)];
          assert State() == Blocked(before, row, reason.value, level);
        }
        i := i + 1;
      }
    }

    method OnRow(row: Row)
      requires c.rules.shares > 0 && QuoteValid()
      modifies this
      ensures State() == RowStep(c, old(State()), row)
    {
      bars := LastThree(bars, row.bar);
      RecordBreaks(row);
      assert State() == Observed(old(State()), row);
      if position.Some? {
        WatchStructure(row);
        TrailStop(row);
      } else if pending.None? {
        ScanEntries(row);
      }
    }

    method TakeTailQuote(quotes: seq<Quote>, qi: nat) returns (error: Option<Error>)
      requires c.rules.shares > 0 && QuoteValid() && qi < |quotes| && quotes[qi].at <= c.end + c.rules.quoteAge
      modifies this
      ensures QuoteValid()
      ensures Play(c, Tail(c, quotes[qi..]), old(State()))
           == if error.Some? then Err(error.value) else Play(c, Tail(c, quotes[qi + 1..]), State())
    {
      assert quotes[qi..][1..] == quotes[qi + 1..];
      TailNext(c, quotes[qi..], State());
      error := OnQuote(quotes[qi]);
    }

    method PlayTail(quotes: seq<Quote>, from: nat) returns (result: Result)
      requires c.rules.shares > 0 && QuoteValid() && from <= |quotes|
      modifies this
      ensures result == Play(c, Tail(c, quotes[from..]), old(State()))
    {
      hide Play, Tail;
      var qi := from;
      while qi < |quotes| && quotes[qi].at <= c.end + c.rules.quoteAge
        invariant from <= qi <= |quotes| && QuoteValid()
        invariant Play(c, Tail(c, quotes[qi..]), State()) == Play(c, Tail(c, quotes[from..]), old(State()))
      {
        var error := TakeTailQuote(quotes, qi);
        if error.Some? {
          return Err(error.value);
        }
        qi := qi + 1;
      }
      TailEnds(c, quotes[qi..], State());
      return Ok(State());
    }

    method TakeQuote(rows: seq<Row>, quotes: seq<Quote>, ri: nat, qi: nat) returns (error: Option<Error>)
      requires c.rules.shares > 0 && QuoteValid() && ri < |rows| && rows[ri].at < c.end
      requires qi < |quotes| && quotes[qi].at <= rows[ri].at
      modifies this
      ensures QuoteValid()
      ensures Play(c, Merge(c, rows[ri..], quotes[qi..]), old(State()))
           == if error.Some? then Err(error.value) else Play(c, Merge(c, rows[ri..], quotes[qi + 1..]), State())
    {
      assert quotes[qi..][1..] == quotes[qi + 1..];
      QuoteNext(c, rows[ri..], quotes[qi..], State());
      error := OnQuote(quotes[qi]);
    }

    method TakeRow(rows: seq<Row>, quotes: seq<Quote>, ri: nat, qi: nat) returns (error: Option<Error>)
      requires c.rules.shares > 0 && QuoteValid() && ri < |rows| && rows[ri].at < c.end
      requires qi <= |quotes| && (qi == |quotes| || quotes[qi].at > rows[ri].at)
      modifies this
      ensures QuoteValid()
      ensures Play(c, Merge(c, rows[ri..], quotes[qi..]), old(State()))
           == if error.Some? then Err(error.value) else Play(c, Merge(c, rows[ri + 1..], quotes[qi..]), State())
    {
      assert rows[ri..][1..] == rows[ri + 1..];
      CandleNext(c, rows[ri..], quotes[qi..], State());
      if !RowOk(rows[ri]) {
        return Some(FutureConfirmation);
      }
      OnRow(rows[ri]);
      return None;
    }

    /** Quotes up to a candle's time are consumed before the candle. */
    method CatchUp(rows: seq<Row>, quotes: seq<Quote>, ri: nat, from: nat) returns (qi: nat, error: Option<Error>)
      requires c.rules.shares > 0 && QuoteValid() && ri < |rows| && rows[ri].at < c.end && from <= |quotes|
      modifies this
      ensures from <= qi <= |quotes| && QuoteValid()
      ensures error.Some? ==> Play(c, Merge(c, rows[ri..], quotes[from..]), old(State())) == Err(error.value)
      ensures error.None? ==>
        && (qi == |quotes| || quotes[qi].at > rows[ri].at)
        && Play(c, Merge(c, rows[ri..], quotes[from..]), old(State())) == Play(c, Merge(c, rows[ri..], quotes[qi..]), State())
    {
      hide Play, Merge;
      qi := from;
      ghost var whole := Play(c, Merge(c, rows[ri..], quotes[from..]), State());
      while qi < |quotes| && quotes[qi].at <= rows[ri].at
        invariant from <= qi <= |quotes| && QuoteValid()
        invariant whole == Play(c, Merge(c, rows[ri..], quotes[qi..]), State())
      {
        error := TakeQuote(rows, quotes, ri, qi);
        if error.Some? {
          return;
        }
        qi := qi + 1;
      }
      error := None;
    }

    /** Two cursors consume the merged stream. */
    method Drive(rows: seq<Row>, quotes: seq<Quote>) returns (result: Result)
      requires c.rules.shares > 0 && QuoteValid()
      modifies this
      ensures result == Play(c, Merge(c, rows, quotes), old(State()))
    {
      hide Play, Merge, Tail;
      var ri, qi := 0, 0;
      assert rows[0..] == rows && quotes[0..] == quotes;
      ghost var whole := Play(c, Merge(c, rows, quotes), State());
      while ri < |rows| && rows[ri].at < c.end
        invariant 0 <= ri <= |rows| && 0 <= qi <= |quotes| && QuoteValid()
        invariant whole == Play(c, Merge(c, rows[ri..], quotes[qi..]), State())
      {
        var error;
        qi, error := CatchUp(rows, quotes, ri, qi);
        if error.Some? {
          return Err(error.value);
        }
        error := TakeRow(rows, quotes, ri, qi);
        if error.Some? {
          return Err(error.value);
        }
        ri := ri + 1;
      }
      CandlesEnd(c, rows[ri..], quotes[qi..]);
      result := PlayTail(quotes, qi);
    }

    /** The whole replay from a fresh machine is the step function folded over the merged stream. */
    method Run(rows: seq<Row>, quotes: seq<Quote>) returns (result: Result)
      requires c.rules.shares > 0 && State() == INITIAL
      modifies this
      ensures result == Replay(c, rows, quotes)
    {
      hide Play, Merge;
      var ordered := CandlesOrdered(rows);
      if !ordered {
        return Err(UnorderedCandles);
      }
      ordered := QuotesInOrder(quotes);
      if !ordered {
        return Err(UnorderedQuotes);
      }
      result := Drive(rows, quotes);
    }
  }
}
