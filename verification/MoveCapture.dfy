/** Marked profit of one move from its fills in a single pass, and what slices of a measured run promise. */
module MoveCapture {
  import opened Common
  import opened Equity
  import opened EquityMeasure

  datatype Move = Move(entryAt: real, exitAt: real, entryPrice: real, exitPrice: real)

  datatype Captured = Captured(opening: real, ending: real, cashFlow: real, fees: real, pnl: real, fills: seq<nat>)

  datatype CaptureResult = Took(captured: Captured) | UnknownSideOrQuantity

  function Ids(fills: seq<Fill>): seq<nat> {
    seq(|fills|, i requires 0 <= i < |fills| => fills[i].id)
  }

  lemma Extended(fills: seq<Fill>, n: nat, m: Move)
    requires n < |fills| && m.entryAt < m.exitAt
    ensures var f := fills[n];
      && At(fills[..n + 1], Shares, m.exitAt, true)
         == At(fills[..n], Shares, m.exitAt, true) + (if f.at <= m.exitAt then Cell(f, Shares) else 0.0)
      && At(fills[..n + 1], Shares, m.entryAt, false)
         == At(fills[..n], Shares, m.entryAt, false) + (if f.at < m.entryAt then Cell(f, Shares) else 0.0)
      && Window(fills[..n + 1], m.entryAt, m.exitAt, true)
         == Window(fills[..n], m.entryAt, m.exitAt, true) + (if m.entryAt <= f.at <= m.exitAt then [f] else [])
  {
    assert fills[..n + 1] == fills[..n] + [fills[n]];
    HeldSnoc(fills[..n], fills[n], m.exitAt, true, Shares);
    HeldSnoc(fills[..n], fills[n], m.entryAt, false, Shares);
  }

  /** One pass over the fills in any order: inventories at both ends, cash and fees inside the move. */
  method Capture(fills: seq<Fill>, m: Move) returns (r: CaptureResult)
    requires m.entryAt < m.exitAt
    ensures r == UnknownSideOrQuantity <==> exists i :: 0 <= i < |fills| && fills[i].at <= m.exitAt && fills[i].quantity <= 0.0
    ensures r.Took? ==> var c := r.captured;
      && c.opening == At(fills, Shares, m.entryAt, false) && c.ending == At(fills, Shares, m.exitAt, true)
      && c.cashFlow - c.fees == Amount(Window(fills, m.entryAt, m.exitAt, true), Cash)
      && c.fees == Amount(Window(fills, m.entryAt, m.exitAt, true), Fees)
      && c.fills == Ids(Window(fills, m.entryAt, m.exitAt, true))
      && c.pnl == c.cashFlow - c.fees + c.ending * m.exitPrice - c.opening * m.entryPrice
  {
    hide At, Held, Amount, Window, Cell;
    var opening, ending, cashFlow, fees := 0.0, 0.0, 0.0, 0.0;
    var ids: seq<nat> := [];
    var n := 0;
    Nothing(fills, m);
    while n < |fills|
      invariant 0 <= n <= |fills|
      invariant forall i :: 0 <= i < n ==> fills[i].at > m.exitAt || fills[i].quantity > 0.0
      invariant opening == At(fills[..n], Shares, m.entryAt, false) && ending == At(fills[..n], Shares, m.exitAt, true)
      invariant cashFlow - fees == Amount(Window(fills[..n], m.entryAt, m.exitAt, true), Cash)
      invariant fees == Amount(Window(fills[..n], m.entryAt, m.exitAt, true), Fees)
      invariant ids == Ids(Window(fills[..n], m.entryAt, m.exitAt, true))
    {
      var f := fills[n];
      Extended(fills, n, m);
      var signed := if f.buy then f.quantity else -f.quantity;
      FillCells(f, signed);
      AmountSnoc(Window(fills[..n], m.entryAt, m.exitAt, true), f, Cash);
      AmountSnoc(Window(fills[..n], m.entryAt, m.exitAt, true), f, Fees);
      if f.at <= m.exitAt {
        if f.quantity <= 0.0 {
          return UnknownSideOrQuantity;
        }
        ending := ending + signed;
        if f.at < m.entryAt {
          opening := opening + signed;
        } else {
          cashFlow := cashFlow - signed * f.price;
          fees := fees + f.fee;
          ids := ids + [f.id];
        }
      }
      n := n + 1;
    }
    assert fills[..n] == fills;
    return Took(Captured(opening, ending, cashFlow, fees,
                         cashFlow - fees + ending * m.exitPrice - opening * m.entryPrice, ids));
  }

  lemma Nothing(fills: seq<Fill>, m: Move)
    ensures At(fills[..0], Shares, m.entryAt, false) == 0.0 == At(fills[..0], Shares, m.exitAt, true)
    ensures Window(fills[..0], m.entryAt, m.exitAt, true) == []
    ensures Amount([], Cash) == 0.0 == Amount([], Fees)
  {
  }

  /** When the move's prices are the marks at its ends, its profit is the difference of the two naive valuations. */
  lemma CaptureIsDifference(fills: seq<Fill>, marks: seq<Mark>, m: Move, c: Captured)
    requires m.entryAt < m.exitAt
    requires c.opening == At(fills, Shares, m.entryAt, false) && c.ending == At(fills, Shares, m.exitAt, true)
    requires c.cashFlow - c.fees == Amount(Window(fills, m.entryAt, m.exitAt, true), Cash)
    requires c.pnl == c.cashFlow - c.fees + c.ending * m.exitPrice - c.opening * m.entryPrice
    requires LastMark(marks, m.entryAt, false) == Some(m.entryPrice) && LastMark(marks, m.exitAt, true) == Some(m.exitPrice)
    ensures Value(fills, marks, m.entryAt, false).Some? && Value(fills, marks, m.exitAt, true).Some?
    ensures c.pnl == SliceOf(fills, marks, m.entryAt, m.exitAt, true).net
  {
    hide Value, At, Held, Amount, LastMark, Window;
    WindowIsDifference(fills, Cash, m.entryAt, m.exitAt, true);
    ValueWithMark(fills, marks, m.entryAt, false, m.entryPrice);
    ValueWithMark(fills, marks, m.exitAt, true, m.exitPrice);
  }

  lemma ValueWithMark(fills: seq<Fill>, marks: seq<Mark>, t: real, inclusive: bool, price: real)
    requires LastMark(marks, t, inclusive) == Some(price)
    ensures Value(fills, marks, t, inclusive) == Some(At(fills, Cash, t, inclusive) + At(fills, Shares, t, inclusive) * price)
  {
    hide At, LastMark;
  }

  /** Reports of adjacent intervals add up to the report of the whole: net, fees and fills. */
  lemma ReportsAddUp(fills: seq<Fill>, marks: seq<Mark>, a: real, b: real, c: real, inclusive: bool,
                     first: Report, second: Report, whole: Report)
    requires a < b < c
    requires Reported(fills, marks, a, b, false, first) && Reported(fills, marks, b, c, inclusive, second)
    requires Reported(fills, marks, a, c, inclusive, whole)
    ensures first.net + second.net == whole.net
    ensures first.fees + second.fees == whole.fees
    ensures first.count + second.count == whole.count
    ensures first.closingQuantity == second.openingQuantity
  {
    hide Value, Window, Amount, At, Held, IsPoints, CurveOf, IsDrawdown, IsTrough, IsMax, IsMin, QuantityAt, Clocks;
    WindowIsDifference(fills, Fees, a, b, false);
    WindowIsDifference(fills, Fees, b, c, inclusive);
    WindowIsDifference(fills, Fees, a, c, inclusive);
  }

  /** A slice of a reported run is never short of a mark, and draws down no more than the run. */
  lemma SlicesOfAReport(fills: seq<Fill>, marks: seq<Mark>, start: real, end: real, inclusive: bool, whole: Report,
                        a: real, b: real, sliceInclusive: bool)
    requires start < end && Reported(fills, marks, start, end, inclusive, whole)
    requires Inside(a, b, sliceInclusive, start, end, inclusive)
    ensures !Unvalued(fills, marks, a, b, sliceInclusive)
    ensures forall slice :: Reported(fills, marks, a, b, sliceInclusive, slice) ==> slice.drawdown <= whole.drawdown
  {
    hide Value, IsPoints, CurveOf, IsDrawdown, IsTrough, IsMax, IsMin, QuantityAt, Clocks, At, SliceOf;
    var points, curve :| Reports(fills, marks, start, end, inclusive, whole, points, curve);
    forall c: Clock | NotLater(Clock(a, false), c) && NotLater(c, Clock(b, sliceInclusive))
      ensures Value(fills, marks, c.t, c.inclusive).Some?
    {
      SliceIsValued(fills, marks, points, start, end, inclusive, curve, c);
    }
    forall slice | Reported(fills, marks, a, b, sliceInclusive, slice) ensures slice.drawdown <= whole.drawdown {
      var p, k :| Reports(fills, marks, a, b, sliceInclusive, slice, p, k);
      SliceDrawdown(fills, marks, start, end, inclusive, points, curve, whole.drawdown,
                    a, b, sliceInclusive, p, k, slice.drawdown);
    }
  }
}
