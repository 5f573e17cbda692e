/** Naive valuation of fills against price marks, and what slicing an interval does to it. */
module Equity {
  import opened Common

  datatype Fill = Fill(id: nat, at: real, buy: bool, quantity: real, price: real, fee: real)

  datatype Mark = Mark(at: real, price: real)

  // ---------- Naive sums ----------

  datatype Column = Shares | Cash | Fees

  function Cell(f: Fill, c: Column): real {
    var change := if f.buy then f.quantity else -f.quantity;
    match c
    case Shares => change
    case Cash => -change * f.price - f.fee
    case Fees => f.fee
  }

  function Amount(fills: seq<Fill>, c: Column): real {
    if fills == [] then 0.0 else Amount(fills[..|fills| - 1], c) + Cell(fills[|fills| - 1], c)
  }

  /** Strictly before a time, or up to it. */
  predicate Counts(at: real, t: real, inclusive: bool) {
    at < t || (inclusive && at == t)
  }

  function Held(fills: seq<Fill>, t: real, inclusive: bool): seq<Fill> {
    if fills == [] then []
    else
      var n := |fills| - 1;
      Held(fills[..n], t, inclusive) + if Counts(fills[n].at, t, inclusive) then [fills[n]] else []
  }

  function At(fills: seq<Fill>, c: Column, t: real, inclusive: bool): real {
    Amount(Held(fills, t, inclusive), c)
  }

  /** The last mark no later than a time. */
  function LatestMark(marks: seq<Mark>, t: real, inclusive: bool): Option<Mark> {
    if marks == [] then None
    else
      var n := |marks| - 1;
      if Counts(marks[n].at, t, inclusive) then Some(marks[n]) else LatestMark(marks[..n], t, inclusive)
  }

  function LastMark(marks: seq<Mark>, t: real, inclusive: bool): Option<real> {
    var mark := LatestMark(marks, t, inclusive);
    if mark.Some? then Some(mark.value.price) else None
  }

  /** How old the mark in force is. */
  function MarkAge(marks: seq<Mark>, t: real, inclusive: bool): Option<real> {
    var mark := LatestMark(marks, t, inclusive);
    if mark.Some? then Some(t - mark.value.at) else None
  }

  function Worth(cash: real, quantity: real, price: real): real {
    cash + quantity * price
  }

  /** Cash plus inventory at its last causal mark; nothing when inventory is held without one. */
  function Value(fills: seq<Fill>, marks: seq<Mark>, t: real, inclusive: bool): Option<real> {
    var quantity, mark := At(fills, Shares, t, inclusive), LastMark(marks, t, inclusive);
    if mark.Some? then Some(Worth(At(fills, Cash, t, inclusive), quantity, mark.value))
    else if quantity == 0.0 then Some(At(fills, Cash, t, inclusive))
    else None
  }

  /** Fills inside an interval. */
  function Window(fills: seq<Fill>, start: real, end: real, inclusive: bool): seq<Fill> {
    if fills == [] then []
    else
      var n := |fills| - 1;
      Window(fills[..n], start, end, inclusive)
      + if fills[n].at >= start && Counts(fills[n].at, end, inclusive) then [fills[n]] else []
  }

  /** What a window adds is what the sums at its two ends differ by. */
  lemma {:induction false} WindowIsDifference(fills: seq<Fill>, c: Column, start: real, end: real, inclusive: bool)
    requires start < end
    ensures Amount(Window(fills, start, end, inclusive), c) == At(fills, c, end, inclusive) - At(fills, c, start, false)
    ensures |Window(fills, start, end, inclusive)| == |Held(fills, end, inclusive)| - |Held(fills, start, false)|
    decreases |fills|
  {
    if fills != [] {
      var n := |fills| - 1;
      WindowIsDifference(fills[..n], c, start, end, inclusive);
      AmountSnoc(Window(fills[..n], start, end, inclusive), fills[n], c);
      AmountSnoc(Held(fills[..n], end, inclusive), fills[n], c);
      AmountSnoc(Held(fills[..n], start, false), fills[n], c);
      hide Amount, Cell;
    }
  }

  lemma AmountSnoc(fills: seq<Fill>, f: Fill, c: Column)
    ensures Amount(fills + [f], c) == Amount(fills, c) + Cell(f, c)
    ensures Amount(fills + [], c) == Amount(fills, c)
  {
    assert (fills + [f])[..|fills|] == fills && fills + [] == fills;
  }

  // ---------- What valuation means ----------

  /** A fill is counted exactly when it lies before the position, or at it when the end is included. */
  lemma {:induction false} HeldIs(fills: seq<Fill>, t: real, inclusive: bool, k: nat)
    requires k < |fills|
    ensures Held(fills, t, inclusive)
      == Held(fills[..k], t, inclusive)
         + (if fills[k].at < t || (inclusive && fills[k].at == t) then [fills[k]] else [])
         + Held(fills[k + 1..], t, inclusive)
  {
    hide Held;
    var f, later := fills[k], fills[k + 1..];
    HeldConcat(fills[..k], [f] + later, t, inclusive);
    HeldConcat([f], later, t, inclusive);
    assert fills == fills[..k] + ([f] + later);
    HeldOne(f, t, inclusive);
  }

  lemma HeldOne(f: Fill, t: real, inclusive: bool)
    ensures Held([], t, inclusive) == []
    ensures Held([f], t, inclusive) == if f.at < t || (inclusive && f.at == t) then [f] else []
  {
    assert [f][..0] == [];
  }

  lemma HeldGrows(fills: seq<Fill>, f: Fill, t: real, inclusive: bool)
    ensures Held(fills + [f], t, inclusive) == Held(fills, t, inclusive) + Held([f], t, inclusive)
  {
    assert (fills + [f])[..|fills|] == fills;
    HeldOne(f, t, inclusive);
  }

  lemma {:induction false} HeldConcat(xs: seq<Fill>, ys: seq<Fill>, t: real, inclusive: bool)
    ensures Held(xs + ys, t, inclusive) == Held(xs, t, inclusive) + Held(ys, t, inclusive)
    decreases |ys|
  {
    hide Held;
    if ys == [] {
      assert xs + ys == xs;
      NothingHeld(t, inclusive);
    } else {
      var n := |ys| - 1;
      HeldConcat(xs, ys[..n], t, inclusive);
      HeldGrows(xs + ys[..n], ys[n], t, inclusive);
      HeldGrows(ys[..n], ys[n], t, inclusive);
      assert ys == ys[..n] + [ys[n]] && xs + ys == xs + ys[..n] + [ys[n]];
    }
  }

  lemma NothingHeld(t: real, inclusive: bool)
    ensures Held([], t, inclusive) == []
  {
  }

  /** The mark in force is the last one counted. */
  lemma {:induction false} LatestMarkIs(marks: seq<Mark>, t: real, inclusive: bool, k: nat)
    requires k < |marks| ==> marks[k].at < t || (inclusive && marks[k].at == t)
    requires forall i :: 0 <= i < |marks| && (k >= |marks| || i > k) ==> !(marks[i].at < t || (inclusive && marks[i].at == t))
    ensures LatestMark(marks, t, inclusive) == if k < |marks| then Some(marks[k]) else None
    decreases |marks|
  {
    if marks != [] && k != |marks| - 1 {
      LatestMarkIs(marks[..|marks| - 1], t, inclusive, k);
    }
  }

  /** Nothing held is worth nothing. */
  lemma NothingIsWorthNothing(marks: seq<Mark>, t: real, inclusive: bool)
    ensures Value([], marks, t, inclusive) == Some(0.0)
  {
    NothingYet(t, inclusive);
  }

  /** A fill at the mark in force changes the value by its fee and by nothing else, whichever way it goes. */
  lemma FillAtMark(fills: seq<Fill>, marks: seq<Mark>, t: real, inclusive: bool, f: Fill)
    requires f.at < t && LastMark(marks, t, inclusive) == Some(f.price)
    ensures Value(fills, marks, t, inclusive).Some?
    ensures Value(fills + [f], marks, t, inclusive) == Some(Value(fills, marks, t, inclusive).value - f.fee)
    ensures At(fills + [f], Shares, t, inclusive) == At(fills, Shares, t, inclusive) + if f.buy then f.quantity else -f.quantity
    ensures At(fills + [f], Fees, t, inclusive) == At(fills, Fees, t, inclusive) + f.fee
  {
    hide LastMark, Held, Amount, Cell, Worth;
    HeldGrows(fills, f, t, inclusive);
    HeldOne(f, t, inclusive);
    AmountSnoc(Held(fills, t, inclusive), f, Shares);
    AmountSnoc(Held(fills, t, inclusive), f, Cash);
    AmountSnoc(Held(fills, t, inclusive), f, Fees);
    CellsAre(f);
    Balances(At(fills, Cash, t, inclusive), At(fills, Shares, t, inclusive), Cell(f, Shares), f.price, f.fee);
  }

  lemma CellsAre(f: Fill)
    ensures Cell(f, Shares) == if f.buy then f.quantity else -f.quantity
    ensures Cell(f, Cash) == -Cell(f, Shares) * f.price - f.fee && Cell(f, Fees) == f.fee
  {
  }

  lemma Balances(cash: real, shares: real, change: real, price: real, fee: real)
    ensures Worth(cash + (-change * price - fee), shares + change, price) == Worth(cash, shares, price) - fee
  {
  }

  /** A move of the mark changes the value by the shares held times the move. */
  lemma MarkMoves(fills: seq<Fill>, marks: seq<Mark>, others: seq<Mark>, t: real, inclusive: bool)
    requires LastMark(marks, t, inclusive).Some? && LastMark(others, t, inclusive).Some?
    ensures Value(fills, marks, t, inclusive).Some? && Value(fills, others, t, inclusive).Some?
    ensures Value(fills, others, t, inclusive).value - Value(fills, marks, t, inclusive).value
         == At(fills, Shares, t, inclusive) * (LastMark(others, t, inclusive).value - LastMark(marks, t, inclusive).value)
  {
    hide LastMark, At;
    var p, q := LastMark(marks, t, inclusive).value, LastMark(others, t, inclusive).value;
    var shares := At(fills, Shares, t, inclusive);
    assert shares * q - shares * p == shares * (q - p);
  }

  lemma NothingYet(t: real, inclusive: bool)
    ensures LastMark([], t, inclusive).None? && Held([], t, inclusive) == [] && forall c :: Amount([], c) == 0.0
  {
  }

  // ---------- Slices ----------

  datatype Slice = Slice(net: real, fees: real, count: int)

  /** Net, fees and fills of one interval, when both its ends can be valued. */
  function SliceOf(fills: seq<Fill>, marks: seq<Mark>, start: real, end: real, inclusive: bool): Slice
    requires Value(fills, marks, start, false).Some? && Value(fills, marks, end, inclusive).Some?
  {
    Slice(Value(fills, marks, end, inclusive).value - Value(fills, marks, start, false).value,
          Amount(Window(fills, start, end, inclusive), Fees), |Window(fills, start, end, inclusive)|)
  }

  predicate Ascending(bounds: seq<real>) {
    forall i, j :: 0 <= i < j < |bounds| ==> bounds[i] < bounds[j]
  }

  /** Every boundary can be valued; only the last may be inclusive. */
  predicate Valued(fills: seq<Fill>, marks: seq<Mark>, bounds: seq<real>, inclusive: bool) {
    forall i :: 0 <= i < |bounds| ==>
      && Value(fills, marks, bounds[i], false).Some?
      && (i == |bounds| - 1 ==> Value(fills, marks, bounds[i], inclusive).Some?)
  }

  /** Sum of adjacent slices, only the last one end-inclusive. */
  function SliceSum(fills: seq<Fill>, marks: seq<Mark>, bounds: seq<real>, inclusive: bool): Slice
    requires |bounds| >= 2 && Valued(fills, marks, bounds, inclusive)
    decreases |bounds|
  {
    var n := |bounds| - 1;
    var last := SliceOf(fills, marks, bounds[n - 1], bounds[n], inclusive);
    if n == 1 then last
    else
      assert bounds[..n][n - 1] == bounds[n - 1];
      assert Valued(fills, marks, bounds[..n], false) by { ValuedPrefix(fills, marks, bounds, inclusive); }
      var before := SliceSum(fills, marks, bounds[..n], false);
      Slice(before.net + last.net, before.fees + last.fees, before.count + last.count)
  }

  lemma ValuedPrefix(fills: seq<Fill>, marks: seq<Mark>, bounds: seq<real>, inclusive: bool)
    requires |bounds| >= 2 && Valued(fills, marks, bounds, inclusive)
    ensures Valued(fills, marks, bounds[..|bounds| - 1], false)
  {
    hide Value;
    var head := bounds[..|bounds| - 1];
    forall i | 0 <= i < |head| ensures Value(fills, marks, head[i], false).Some? {
      assert head[i] == bounds[i];
    }
  }

  /** Adjacent slices add up to the whole interval in net, fees and fills. */
  lemma {:induction false} SlicesAddUp(fills: seq<Fill>, marks: seq<Mark>, bounds: seq<real>, inclusive: bool)
    requires |bounds| >= 2 && Ascending(bounds) && Valued(fills, marks, bounds, inclusive)
    ensures SliceSum(fills, marks, bounds, inclusive)
         == SliceOf(fills, marks, bounds[0], bounds[|bounds| - 1], inclusive)
    decreases |bounds|
  {
    var n := |bounds| - 1;
    if n > 1 {
      hide Value, Amount, Window, Held;
      ValuedPrefix(fills, marks, bounds, inclusive);
      SlicesAddUp(fills, marks, bounds[..n], false);
      assert bounds[..n][0] == bounds[0] && bounds[..n][n - 1] == bounds[n - 1];
      WindowIsDifference(fills, Fees, bounds[0], bounds[n - 1], false);
      WindowIsDifference(fills, Fees, bounds[n - 1], bounds[n], inclusive);
      WindowIsDifference(fills, Fees, bounds[0], bounds[n], inclusive);
    }
  }

  // ---------- Valuation between events ----------

  /** Nothing happens from one point on and before another. */
  predicate QuietBetween(fills: seq<Fill>, marks: seq<Mark>, p: real, inclusive: bool, q: real, inclusiveQ: bool) {
    && (forall i :: 0 <= i < |fills| ==> (Counts(fills[i].at, p, inclusive) <==> Counts(fills[i].at, q, inclusiveQ)))
    && (forall i :: 0 <= i < |marks| ==> (Counts(marks[i].at, p, inclusive) <==> Counts(marks[i].at, q, inclusiveQ)))
  }

  lemma {:induction false} HeldQuiet(fills: seq<Fill>, p: real, inclusive: bool, q: real, inclusiveQ: bool)
    requires forall i :: 0 <= i < |fills| ==> (Counts(fills[i].at, p, inclusive) <==> Counts(fills[i].at, q, inclusiveQ))
    ensures Held(fills, p, inclusive) == Held(fills, q, inclusiveQ)
    decreases |fills|
  {
    if fills != [] {
      HeldQuiet(fills[..|fills| - 1], p, inclusive, q, inclusiveQ);
    }
  }

  lemma {:induction false} MarkQuiet(marks: seq<Mark>, p: real, inclusive: bool, q: real, inclusiveQ: bool)
    requires forall i :: 0 <= i < |marks| ==> (Counts(marks[i].at, p, inclusive) <==> Counts(marks[i].at, q, inclusiveQ))
    ensures LatestMark(marks, p, inclusive) == LatestMark(marks, q, inclusiveQ)
    decreases |marks|
  {
    if marks != [] {
      MarkQuiet(marks[..|marks| - 1], p, inclusive, q, inclusiveQ);
    }
  }

  /** Between events the value stands still. */
  lemma ValueQuiet(fills: seq<Fill>, marks: seq<Mark>, p: real, inclusive: bool, q: real, inclusiveQ: bool)
    requires QuietBetween(fills, marks, p, inclusive, q, inclusiveQ)
    ensures Value(fills, marks, p, inclusive) == Value(fills, marks, q, inclusiveQ)
  {
    hide Held, LatestMark, Amount, Worth;
    HeldQuiet(fills, p, inclusive, q, inclusiveQ);
    MarkQuiet(marks, p, inclusive, q, inclusiveQ);
    assert At(fills, Shares, p, inclusive) == At(fills, Shares, q, inclusiveQ);
    assert At(fills, Cash, p, inclusive) == At(fills, Cash, q, inclusiveQ);
  }

  // ---------- The valuation curve ----------

  predicate IsEvent(fills: seq<Fill>, marks: seq<Mark>, t: real) {
    (exists i :: 0 <= i < |fills| && fills[i].at == t) || (exists i :: 0 <= i < |marks| && marks[i].at == t)
  }

  /** Exactly the distinct event times of an interval, in order. */
  ghost predicate IsPoints(fills: seq<Fill>, marks: seq<Mark>, start: real, end: real, inclusive: bool, points: seq<real>) {
    && Ascending(points)
    && forall t :: t in points <==> t >= start && Counts(t, end, inclusive) && IsEvent(fills, marks, t)
  }

  datatype Clock = Clock(t: real, inclusive: bool)

  function EventClocks(points: seq<real>): seq<Clock> {
    seq(|points|, i requires 0 <= i < |points| => Clock(points[i], true))
  }

  /** The curve's clock: the opening and the closing are valued at their own side, events inclusively. */
  function Clocks(points: seq<real>, start: real, end: real, inclusive: bool): seq<Clock> {
    [Clock(start, false)] + EventClocks(points) + [Clock(end, inclusive)]
  }

  predicate CurveOf(fills: seq<Fill>, marks: seq<Mark>, clocks: seq<Clock>, curve: seq<real>) {
    && |curve| == |clocks|
    && forall i :: 0 <= i < |clocks| ==> Value(fills, marks, clocks[i].t, clocks[i].inclusive) == Some(curve[i])
  }

  /** The largest fall from any earlier to any later of the first n points of a curve. */
  predicate DrawdownTo(curve: seq<real>, n: nat, d: real) {
    && n <= |curve|
    && (exists i, j :: 0 <= i <= j < n && d == curve[i] - curve[j])
    && (forall i, j :: 0 <= i <= j < n ==> curve[i] - curve[j] <= d)
  }

  predicate IsDrawdown(curve: seq<real>, d: real) {
    DrawdownTo(curve, |curve|, d)
  }

  /** Earlier clock positions count no more events. */
  predicate NotLater(a: Clock, b: Clock) {
    a.t < b.t || (a.t == b.t && (a.inclusive ==> b.inclusive))
  }

  /** The number of points no later than a clock position. */
  function CountUpTo(points: seq<real>, c: Clock): (n: nat)
    ensures n <= |points|
    ensures Ascending(points) ==> forall i :: 0 <= i < |points| ==> (i < n <==> Counts(points[i], c.t, c.inclusive))
  {
    if points == [] || !Counts(points[0], c.t, c.inclusive) then 0 else 1 + CountUpTo(points[1..], c)
  }

  /** The curve position a clock position falls on. */
  function Floor(points: seq<real>, start: real, c: Clock): Clock {
    var i := CountUpTo(points, c);
    if i == 0 then Clock(start, false) else Clock(points[i - 1], true)
  }

  lemma FloorCounts(fills: seq<Fill>, marks: seq<Mark>, points: seq<real>, start: real, end: real, inclusive: bool,
                    c: Clock, t: real)
    requires start < end && IsPoints(fills, marks, start, end, inclusive, points) && IsEvent(fills, marks, t)
    requires NotLater(Clock(start, false), c) && NotLater(c, Clock(end, inclusive))
    ensures var p := Floor(points, start, c);
      Counts(t, p.t, p.inclusive) <==> Counts(t, c.t, c.inclusive)
  {
    hide IsEvent;
    var i := CountUpTo(points, c);
    if i > 0 {
      assert points[i - 1] in points && Counts(points[i - 1], c.t, c.inclusive);
    }
    if t >= start && Counts(t, c.t, c.inclusive) {
      assert t in points;
      var k :| 0 <= k < |points| && points[k] == t;
      assert k < i;
      assert k < i - 1 ==> points[k] < points[i - 1];
    }
  }

  /** Between events a clock position has the value of the curve position it falls on. */
  lemma ValueOnCurve(fills: seq<Fill>, marks: seq<Mark>, points: seq<real>, start: real, end: real, inclusive: bool,
                     c: Clock, curve: seq<real>)
    requires start < end && IsPoints(fills, marks, start, end, inclusive, points)
    requires CurveOf(fills, marks, Clocks(points, start, end, inclusive), curve)
    requires NotLater(Clock(start, false), c) && NotLater(c, Clock(end, inclusive))
    ensures var i := CountUpTo(points, c);
      i < |curve| && Value(fills, marks, c.t, c.inclusive) == Some(curve[i])
  {
    hide Value, IsPoints, Counts, CountUpTo;
    var i, p := CountUpTo(points, c), Floor(points, start, c);
    assert Clocks(points, start, end, inclusive)[i] == p;
    forall t | IsEvent(fills, marks, t) ensures Counts(t, p.t, p.inclusive) <==> Counts(t, c.t, c.inclusive) {
      FloorCounts(fills, marks, points, start, end, inclusive, c, t);
    }
    forall k | 0 <= k < |fills| ensures Counts(fills[k].at, p.t, p.inclusive) <==> Counts(fills[k].at, c.t, c.inclusive) {
      assert IsEvent(fills, marks, fills[k].at);
    }
    forall k | 0 <= k < |marks| ensures Counts(marks[k].at, p.t, p.inclusive) <==> Counts(marks[k].at, c.t, c.inclusive) {
      assert IsEvent(fills, marks, marks[k].at);
    }
    ValueQuiet(fills, marks, p.t, p.inclusive, c.t, c.inclusive);
  }

  lemma CountMonotone(points: seq<real>, a: Clock, b: Clock)
    requires Ascending(points) && NotLater(a, b)
    ensures CountUpTo(points, a) <= CountUpTo(points, b)
  {
    var n := CountUpTo(points, a);
    if n > 0 {
      assert Counts(points[n - 1], b.t, b.inclusive);
    }
  }

  // ---------- A slice inside the full run ----------

  /** A slice of the run: its own clock positions lie inside the run's. */
  predicate Inside(a: real, b: real, sliceInclusive: bool, start: real, end: real, inclusive: bool) {
    start <= a < b && NotLater(Clock(b, sliceInclusive), Clock(end, inclusive))
  }

  lemma ClockInside(slice: seq<real>, a: real, b: real, sliceInclusive: bool, start: real, end: real, inclusive: bool, i: nat)
    requires Inside(a, b, sliceInclusive, start, end, inclusive) && i < |slice| + 2
    requires forall k :: 0 <= k < |slice| ==> slice[k] >= a && Counts(slice[k], b, sliceInclusive)
    ensures var c := Clocks(slice, a, b, sliceInclusive)[i];
      NotLater(Clock(start, false), c) && NotLater(c, Clock(end, inclusive))
  {
  }

  lemma ClocksInOrder(slice: seq<real>, a: real, b: real, sliceInclusive: bool, i: nat, j: nat)
    requires a < b && Ascending(slice) && i <= j < |slice| + 2
    requires forall k :: 0 <= k < |slice| ==> slice[k] >= a && Counts(slice[k], b, sliceInclusive)
    ensures NotLater(Clocks(slice, a, b, sliceInclusive)[i], Clocks(slice, a, b, sliceInclusive)[j])
  {
  }

  /** A run that can be valued throughout can be valued at every slice boundary and event. */
  lemma SliceIsValued(fills: seq<Fill>, marks: seq<Mark>, points: seq<real>, start: real, end: real, inclusive: bool,
                      curve: seq<real>, c: Clock)
    requires start < end && IsPoints(fills, marks, start, end, inclusive, points)
    requires CurveOf(fills, marks, Clocks(points, start, end, inclusive), curve)
    requires NotLater(Clock(start, false), c) && NotLater(c, Clock(end, inclusive))
    ensures Value(fills, marks, c.t, c.inclusive).Some?
  {
    hide Value;
    ValueOnCurve(fills, marks, points, start, end, inclusive, c, curve);
  }

  /** No slice draws down more than the run it is cut from. */
  lemma SliceDrawdown(fills: seq<Fill>, marks: seq<Mark>, start: real, end: real, inclusive: bool, points: seq<real>,
                      curve: seq<real>, d: real, a: real, b: real, sliceInclusive: bool, slicePoints: seq<real>,
                      sliceCurve: seq<real>, sliceD: real)
    requires start < end && IsPoints(fills, marks, start, end, inclusive, points)
    requires CurveOf(fills, marks, Clocks(points, start, end, inclusive), curve) && IsDrawdown(curve, d)
    requires Inside(a, b, sliceInclusive, start, end, inclusive)
    requires IsPoints(fills, marks, a, b, sliceInclusive, slicePoints)
    requires CurveOf(fills, marks, Clocks(slicePoints, a, b, sliceInclusive), sliceCurve) && IsDrawdown(sliceCurve, sliceD)
    ensures sliceD <= d
  {
    var i, j :| 0 <= i <= j < |sliceCurve| && sliceD == sliceCurve[i] - sliceCurve[j];
    var clocks := Clocks(slicePoints, a, b, sliceInclusive);
    forall k | 0 <= k < |slicePoints| ensures slicePoints[k] >= a && Counts(slicePoints[k], b, sliceInclusive) {
      assert slicePoints[k] in slicePoints;
    }
    ClockInside(slicePoints, a, b, sliceInclusive, start, end, inclusive, i);
    ClockInside(slicePoints, a, b, sliceInclusive, start, end, inclusive, j);
    ClocksInOrder(slicePoints, a, b, sliceInclusive, i, j);
    hide Value, CountUpTo, Clocks, NotLater, Counts;
    ValueOnCurve(fills, marks, points, start, end, inclusive, clocks[i], curve);
    ValueOnCurve(fills, marks, points, start, end, inclusive, clocks[j], curve);
    CountMonotone(points, clocks[i], clocks[j]);
    assert curve[CountUpTo(points, clocks[i])] == sliceCurve[i] && curve[CountUpTo(points, clocks[j])] == sliceCurve[j];
  }
}
