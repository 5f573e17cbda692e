/** The measurement itself: sort, prefix sums, search and running peaks, proved against naive valuation. */
module EquityMeasure {
  import opened Common
  import opened Equity

  datatype Error =
    | BadInterval | BadMarks | DuplicateExecution | InvalidExecution | NetShort | NoCausalMark

  datatype Report = Report(openingQuantity: real, closingQuantity: real, openingAge: Option<real>, closingAge: Option<real>,
                           net: real, fees: real, count: int,
                           drawdown: real, trough: real, peak: real, minimum: real, maximumInventory: real)

  datatype Result = Ok(report: Report) | Err(error: Error)

  // ---------- Sorting ----------

  predicate Sorted(rows: seq<Fill>) {
    forall i, j :: 0 <= i < j < |rows| ==> rows[i].at <= rows[j].at
  }

  /** After its equals, so that a stable sort results. */
  function Insert(rows: seq<Fill>, f: Fill): seq<Fill> {
    if rows == [] || rows[|rows| - 1].at <= f.at then rows + [f]
    else Insert(rows[..|rows| - 1], f) + [rows[|rows| - 1]]
  }

  function SortedFills(fills: seq<Fill>): seq<Fill> {
    if fills == [] then [] else Insert(SortedFills(fills[..|fills| - 1]), fills[|fills| - 1])
  }

  lemma {:induction false} InsertSorts(rows: seq<Fill>, f: Fill)
    requires Sorted(rows)
    ensures Sorted(Insert(rows, f)) && multiset(Insert(rows, f)) == multiset(rows) + multiset{f}
    ensures forall x :: x in Insert(rows, f) ==> x in rows || x == f
    decreases |rows|
  {
    hide Sorted;
    if rows != [] && rows[|rows| - 1].at > f.at {
      var n := |rows| - 1;
      FrontSorted(rows);
      InsertSorts(rows[..n], f);
      LastStays(rows, Insert(rows[..n], f), f);
    } else {
      LateStays(rows, f);
    }
  }

  lemma FrontSorted(rows: seq<Fill>)
    requires rows != [] && Sorted(rows)
    ensures Sorted(rows[..|rows| - 1])
  {
  }

  lemma LateStays(rows: seq<Fill>, f: Fill)
    requires Sorted(rows) && (rows == [] || rows[|rows| - 1].at <= f.at)
    ensures Sorted(rows + [f]) && multiset(rows + [f]) == multiset(rows) + multiset{f}
  {
    if rows != [] {
      assert forall i :: 0 <= i < |rows| ==> rows[i].at <= rows[|rows| - 1].at;
    }
  }

  /** Putting the last row back after rows no later than it. */
  lemma LastStays(rows: seq<Fill>, m: seq<Fill>, f: Fill)
    requires rows != [] && Sorted(rows) && f.at <= rows[|rows| - 1].at && Sorted(m)
    requires multiset(m) == multiset(rows[..|rows| - 1]) + multiset{f}
    requires forall x :: x in m ==> x in rows[..|rows| - 1] || x == f
    ensures Sorted(m + [rows[|rows| - 1]]) && multiset(m + [rows[|rows| - 1]]) == multiset(rows) + multiset{f}
    ensures forall x :: x in m + [rows[|rows| - 1]] ==> x in rows || x == f
  {
    var head, last := rows[..|rows| - 1], rows[|rows| - 1];
    assert rows == head + [last];
    forall i | 0 <= i < |m| ensures m[i].at <= last.at {
      assert m[i] in m;
    }
  }

  lemma {:induction false} SortSorts(fills: seq<Fill>)
    ensures Sorted(SortedFills(fills)) && multiset(SortedFills(fills)) == multiset(fills)
    decreases |fills|
  {
    if fills != [] {
      var n := |fills| - 1;
      SortSorts(fills[..n]);
      InsertSorts(SortedFills(fills[..n]), fills[n]);
      assert fills == fills[..n] + [fills[n]];
    }
  }

  /** Sorting does not move any sum. */
  lemma {:induction false} InsertKeepsSum(rows: seq<Fill>, f: Fill, c: Column, t: real, inclusive: bool)
    ensures At(Insert(rows, f), c, t, inclusive) == At(rows + [f], c, t, inclusive)
    ensures |Held(Insert(rows, f), t, inclusive)| == |Held(rows + [f], t, inclusive)|
    decreases |rows|
  {
    hide At, Held, Amount, Cell, Counts;
    if rows != [] && rows[|rows| - 1].at > f.at {
      var n := |rows| - 1;
      InsertKeepsSum(rows[..n], f, c, t, inclusive);
      assert Insert(rows, f) == Insert(rows[..n], f) + [rows[n]];
      assert rows == rows[..n] + [rows[n]];
      HeldSnoc(rows, f, t, inclusive, c);
      HeldSnoc(rows[..n], f, t, inclusive, c);
      HeldSnoc(Insert(rows[..n], f), rows[n], t, inclusive, c);
      HeldSnoc(rows[..n], rows[n], t, inclusive, c);
    }
  }

  lemma HeldSnoc(rows: seq<Fill>, f: Fill, t: real, inclusive: bool, c: Column)
    ensures At(rows + [f], c, t, inclusive) == At(rows, c, t, inclusive) + if Counts(f.at, t, inclusive) then Cell(f, c) else 0.0
    ensures |Held(rows + [f], t, inclusive)| == |Held(rows, t, inclusive)| + if Counts(f.at, t, inclusive) then 1 else 0
  {
    assert (rows + [f])[..|rows|] == rows;
    AmountSnoc(Held(rows, t, inclusive), f, c);
  }

  lemma {:induction false} SortKeepsSums(fills: seq<Fill>, c: Column, t: real, inclusive: bool)
    ensures At(SortedFills(fills), c, t, inclusive) == At(fills, c, t, inclusive)
    ensures |Held(SortedFills(fills), t, inclusive)| == |Held(fills, t, inclusive)|
    decreases |fills|
  {
    if fills != [] {
      var n := |fills| - 1;
      SortKeepsSums(fills[..n], c, t, inclusive);
      InsertKeepsSum(SortedFills(fills[..n]), fills[n], c, t, inclusive);
      HeldSnoc(SortedFills(fills[..n]), fills[n], t, inclusive, c);
      HeldSnoc(fills[..n], fills[n], t, inclusive, c);
      assert fills == fills[..n] + [fills[n]];
      hide Held, Amount, Cell, Insert;
    }
  }

  // ---------- Prefix sums and search ----------

  function CumSum(xs: seq<real>): (r: seq<real>)
    ensures |r| == |xs| + 1
  {
    if xs == [] then [0.0]
    else
      var r := CumSum(xs[..|xs| - 1]);
      r + [r[|r| - 1] + xs[|xs| - 1]]
  }

  function Cells(rows: seq<Fill>, c: Column): seq<real> {
    seq(|rows|, i requires 0 <= i < |rows| => Cell(rows[i], c))
  }

  lemma {:induction false} CumSumIs(rows: seq<Fill>, c: Column, i: nat)
    requires i <= |rows|
    ensures CumSum(Cells(rows, c))[i] == Amount(rows[..i], c)
    decreases |rows|
  {
    if rows == [] {
      assert rows[..i] == [];
    } else {
      var n := |rows| - 1;
      assert Cells(rows, c)[..n] == Cells(rows[..n], c);
      if i <= n {
        CumSumIs(rows[..n], c, i);
        assert rows[..n][..i] == rows[..i];
      } else {
        CumSumIs(rows[..n], c, n);
        assert rows[..n][..n] == rows[..n] && rows[..i] == rows;
      }
    }
  }

  /** The number of times counted, by position in an ordered list. */
  function SearchSorted(times: seq<real>, t: real, inclusive: bool): (i: nat)
    ensures i <= |times|
    ensures forall k :: 0 <= k < i ==> Counts(times[k], t, inclusive)
    ensures i < |times| ==> !Counts(times[i], t, inclusive)
  {
    if times == [] || !Counts(times[0], t, inclusive) then 0 else 1 + SearchSorted(times[1..], t, inclusive)
  }

  function FillTimes(rows: seq<Fill>): seq<real> {
    seq(|rows|, i requires 0 <= i < |rows| => rows[i].at)
  }

  function MarkTimes(marks: seq<Mark>): seq<real> {
    seq(|marks|, i requires 0 <= i < |marks| => marks[i].at)
  }

  predicate MarksOrdered(marks: seq<Mark>) {
    forall i, j :: 0 <= i < j < |marks| ==> marks[i].at <= marks[j].at
  }

  lemma {:induction false} HeldAll(rows: seq<Fill>, t: real, inclusive: bool)
    requires forall k :: 0 <= k < |rows| ==> Counts(rows[k].at, t, inclusive)
    ensures Held(rows, t, inclusive) == rows
    decreases |rows|
  {
    if rows != [] {
      HeldAll(rows[..|rows| - 1], t, inclusive);
    }
  }

  lemma SearchFoundAll(rows: seq<Fill>, t: real, inclusive: bool)
    requires SearchSorted(FillTimes(rows), t, inclusive) == |rows|
    ensures forall k :: 0 <= k < |rows| ==> Counts(rows[k].at, t, inclusive)
  {
    forall k | 0 <= k < |rows| ensures Counts(rows[k].at, t, inclusive) {
      assert Counts(FillTimes(rows)[k], t, inclusive);
    }
  }

  /** In sorted fills the ones counted are a prefix, and search finds its end. */
  lemma {:induction false} HeldIsPrefix(rows: seq<Fill>, t: real, inclusive: bool)
    requires Sorted(rows)
    ensures Held(rows, t, inclusive) == rows[..SearchSorted(FillTimes(rows), t, inclusive)]
    decreases |rows|
  {
    hide SearchSorted;
    var i := SearchSorted(FillTimes(rows), t, inclusive);
    if i == |rows| {
      SearchFoundAll(rows, t, inclusive);
      HeldAll(rows, t, inclusive);
      assert rows[..i] == rows;
    } else {
      var n := |rows| - 1;
      assert !Counts(FillTimes(rows)[i], t, inclusive) && rows[i].at <= rows[n].at;
      HeldIsPrefix(rows[..n], t, inclusive);
      SearchPrefix(FillTimes(rows), t, inclusive);
      assert FillTimes(rows)[..n] == FillTimes(rows[..n]);
      assert rows[..n][..i] == rows[..i];
    }
  }

  lemma {:induction false} SearchPrefix(times: seq<real>, t: real, inclusive: bool)
    requires times != [] && SearchSorted(times, t, inclusive) < |times|
    ensures SearchSorted(times[..|times| - 1], t, inclusive) == SearchSorted(times, t, inclusive)
    decreases |times|
  {
    if Counts(times[0], t, inclusive) {
      SearchPrefix(times[1..], t, inclusive);
      assert times[1..][..|times| - 2] == times[..|times| - 1][1..];
    }
  }

  lemma MarksBefore(marks: seq<Mark>, i: nat)
    requires MarksOrdered(marks) && i < |marks|
    ensures marks[i].at <= marks[|marks| - 1].at && MarksOrdered(marks[..|marks| - 1])
  {
  }

  /** The mark just before the searched position is the last causal one. */
  lemma {:induction false} MarkIsSearched(marks: seq<Mark>, t: real, inclusive: bool)
    requires MarksOrdered(marks)
    ensures var i := SearchSorted(MarkTimes(marks), t, inclusive);
      LatestMark(marks, t, inclusive) == if i == 0 then None else Some(marks[i - 1])
    decreases |marks|
  {
    if marks != [] {
      hide SearchSorted, MarksOrdered;
      var i, n := SearchSorted(MarkTimes(marks), t, inclusive), |marks| - 1;
      if i == |marks| {
        assert Counts(MarkTimes(marks)[n], t, inclusive);
      } else {
        assert !Counts(MarkTimes(marks)[i], t, inclusive);
        MarksBefore(marks, i);
        MarkIsSearched(marks[..n], t, inclusive);
        SearchPrefix(MarkTimes(marks), t, inclusive);
        assert MarkTimes(marks)[..n] == MarkTimes(marks[..n]);
      }
    }
  }

  // ---------- The tables the measurement reads ----------

  /** Fill times and the running sums over them. */
  datatype Tables = Tables(times: seq<real>, inventory: seq<real>, cash: seq<real>, fees: seq<real>)

  function TablesOf(rows: seq<Fill>): Tables {
    Tables(FillTimes(rows), CumSum(Cells(rows, Shares)), CumSum(Cells(rows, Cash)), CumSum(Cells(rows, Fees)))
  }

  /** One position's equity, quantity and fill index; nothing when inventory lacks a causal mark. */
  datatype Point = Point(equity: real, quantity: real, fill: nat)

  function ValueAt(tables: Tables, marks: seq<Mark>, t: real, inclusive: bool): Option<Point>
    requires |tables.inventory| == |tables.cash| == |tables.times| + 1 && marks != []
  {
    var i, m := SearchSorted(tables.times, t, inclusive), SearchSorted(MarkTimes(marks), t, inclusive);
    var quantity := tables.inventory[i];
    if m == 0 && quantity != 0.0 then None
    else Some(Point(Worth(tables.cash[i], quantity, marks[if m == 0 then 0 else m - 1].price), quantity, i))
  }

  lemma SumAt(fills: seq<Fill>, c: Column, t: real, inclusive: bool)
    ensures var rows := SortedFills(fills);
      var i := SearchSorted(FillTimes(rows), t, inclusive);
      CumSum(Cells(rows, c))[i] == At(fills, c, t, inclusive) && i == |Held(fills, t, inclusive)|
  {
    var rows := SortedFills(fills);
    SortSorts(fills);
    HeldIsPrefix(rows, t, inclusive);
    CumSumIs(rows, c, SearchSorted(FillTimes(rows), t, inclusive));
    SortKeepsSums(fills, c, t, inclusive);
  }

  /** Prefix sums and search value the fills exactly as the naive definition does. */
  lemma ValueAtIs(fills: seq<Fill>, marks: seq<Mark>, t: real, inclusive: bool)
    requires marks != [] && MarksOrdered(marks)
    ensures var v := ValueAt(TablesOf(SortedFills(fills)), marks, t, inclusive);
      && (v.Some? <==> Value(fills, marks, t, inclusive).Some?)
      && (v.Some? ==> v.value == Point(Value(fills, marks, t, inclusive).value, At(fills, Shares, t, inclusive),
                                       |Held(fills, t, inclusive)|))
  {
    hide CumSum, SearchSorted, SortedFills, At, Held, LatestMark;
    SumAt(fills, Shares, t, inclusive);
    SumAt(fills, Cash, t, inclusive);
    MarkIsSearched(marks, t, inclusive);
    NoShares(At(fills, Cash, t, inclusive), marks[0].price);
  }

  /** The age read off the searched position. */
  function AgeAt(marks: seq<Mark>, t: real, inclusive: bool): Option<real> {
    var m := SearchSorted(MarkTimes(marks), t, inclusive);
    if m == 0 then None else Some(t - marks[m - 1].at)
  }

  lemma AgeAtIs(marks: seq<Mark>, t: real, inclusive: bool)
    requires MarksOrdered(marks)
    ensures AgeAt(marks, t, inclusive) == MarkAge(marks, t, inclusive)
  {
    MarkIsSearched(marks, t, inclusive);
  }

  lemma NoShares(cash: real, price: real)
    ensures Worth(cash, 0.0, price) == cash
  {
  }

  // ---------- Event points ----------

  function InsertPoint(points: seq<real>, t: real): seq<real> {
    if points == [] || points[|points| - 1] < t then points + [t]
    else if points[|points| - 1] == t then points
    else InsertPoint(points[..|points| - 1], t) + [points[|points| - 1]]
  }

  lemma {:induction false} InsertPointIs(points: seq<real>, t: real)
    requires Ascending(points)
    ensures Ascending(InsertPoint(points, t))
    ensures forall x :: x in InsertPoint(points, t) <==> x in points || x == t
    decreases |points|
  {
    if points != [] {
      var n := |points| - 1;
      assert points == points[..n] + [points[n]];
      if points[n] > t {
        InsertPointIs(points[..n], t);
        var m := InsertPoint(points[..n], t);
        forall i | 0 <= i < |m| ensures m[i] < points[n] {
          assert m[i] in m;
        }
      }
    }
  }

  /** Distinct times of a list that fall in the window, in order. */
  function Unique(times: seq<real>, start: real, end: real, inclusive: bool): seq<real> {
    if times == [] then []
    else
      var n := |times| - 1;
      var before := Unique(times[..n], start, end, inclusive);
      if times[n] >= start && Counts(times[n], end, inclusive) then InsertPoint(before, times[n]) else before
  }

  lemma {:induction false} UniqueIs(times: seq<real>, start: real, end: real, inclusive: bool)
    ensures Ascending(Unique(times, start, end, inclusive))
    ensures forall t :: t in Unique(times, start, end, inclusive) <==> t in times && t >= start && Counts(t, end, inclusive)
    decreases |times|
  {
    if times != [] {
      var n := |times| - 1;
      assert times == times[..n] + [times[n]];
      UniqueIs(times[..n], start, end, inclusive);
      InsertPointIs(Unique(times[..n], start, end, inclusive), times[n]);
    }
  }

  lemma PointsAreEvents(fills: seq<Fill>, marks: seq<Mark>, start: real, end: real, inclusive: bool)
    ensures IsPoints(fills, marks, start, end, inclusive,
                     Unique(MarkTimes(marks) + FillTimes(SortedFills(fills)), start, end, inclusive))
  {
    hide SortedFills, Unique;
    var rows := SortedFills(fills);
    var times := MarkTimes(marks) + FillTimes(rows);
    SortSorts(fills);
    UniqueIs(times, start, end, inclusive);
    forall t ensures t in times <==> IsEvent(fills, marks, t) {
      TimesAreEvents(fills, rows, marks, t);
    }
  }

  lemma TimesAreEvents(fills: seq<Fill>, rows: seq<Fill>, marks: seq<Mark>, t: real)
    requires multiset(rows) == multiset(fills)
    ensures t in MarkTimes(marks) + FillTimes(rows) <==> IsEvent(fills, marks, t)
  {
    if i :| 0 <= i < |rows| && rows[i].at == t {
      assert rows[i] in multiset(rows);
      var j :| 0 <= j < |fills| && fills[j] == rows[i];
      assert FillTimes(rows)[i] == t;
    }
    if i :| 0 <= i < |fills| && fills[i].at == t {
      assert fills[i] in multiset(fills);
      var j :| 0 <= j < |rows| && rows[j] == fills[i];
      assert FillTimes(rows)[j] == t;
    }
    if i :| 0 <= i < |marks| && marks[i].at == t {
      assert MarkTimes(marks)[i] == t;
    }
    if t in MarkTimes(marks) + FillTimes(rows) {
      var i :| 0 <= i < |MarkTimes(marks) + FillTimes(rows)| && (MarkTimes(marks) + FillTimes(rows))[i] == t;
      if i < |marks| {
        assert marks[i].at == t;
      } else {
        assert rows[i - |marks|].at == t;
      }
    }
  }

  // ---------- The measurement ----------

  predicate ValidFill(f: Fill) {
    f.quantity > 0.0 && f.price > 0.0
  }

  ghost predicate FillsOk(rows: seq<Fill>) {
    && (forall i :: 0 <= i < |rows| ==> rows[i].quantity > 0.0 && rows[i].price > 0.0)
    && (forall i, j :: 0 <= i < j < |rows| ==> rows[i].id != rows[j].id)
  }

  /** In time order the position is never negative. */
  ghost predicate NeverShort(rows: seq<Fill>) {
    forall i :: 0 <= i <= |rows| ==> Amount(rows[..i], Shares) >= 0.0
  }

  ghost predicate MarksOk(marks: seq<Mark>) {
    marks != [] && MarksOrdered(marks) && forall i :: 0 <= i < |marks| ==> marks[i].price > 0.0
  }

  method CheckMarks(marks: seq<Mark>) returns (ok: bool)
    ensures ok <==> MarksOk(marks)
  {
    if marks == [] {
      return false;
    }
    var i := 0;
    while i < |marks|
      invariant 0 <= i <= |marks|
      invariant forall j :: 0 <= j < i ==> marks[j].price > 0.0
      invariant forall j, k :: 0 <= j < k < i ==> marks[j].at <= marks[k].at
    {
      if marks[i].price <= 0.0 || (i > 0 && marks[i].at < marks[i - 1].at) {
        return false;
      }
      i := i + 1;
    }
    return true;
  }

  /** The first fill in time order that repeats an identity, or else is impossible. */
  function FillError(rows: seq<Fill>): (e: Option<Error>)
    ensures e.Some? ==> e.value == DuplicateExecution || e.value == InvalidExecution
    decreases |rows|
  {
    if rows == [] then None
    else
      var n := |rows| - 1;
      var earlier := FillError(rows[..n]);
      if earlier.Some? then earlier
      else if exists j :: 0 <= j < n && rows[j].id == rows[n].id then Some(DuplicateExecution)
      else if !ValidFill(rows[n]) then Some(InvalidExecution)
      else None
  }

  lemma {:induction false} LaterFillsKeepError(rows: seq<Fill>, n: nat)
    requires n <= |rows| && FillError(rows[..n]).Some?
    ensures FillError(rows) == FillError(rows[..n])
    decreases |rows|
  {
    if n < |rows| {
      assert rows[..|rows| - 1][..n] == rows[..n];
      LaterFillsKeepError(rows[..|rows| - 1], n);
    } else {
      assert rows[..n] == rows;
    }
  }

  /** The fill at a position repeats the identity of one before it. */
  predicate Repeats(rows: seq<Fill>, n: nat) {
    n < |rows| && exists j :: 0 <= j < n && rows[j].id == rows[n].id
  }

  predicate IsBad(rows: seq<Fill>, n: nat) {
    n < |rows| && (Repeats(rows, n) || rows[n].quantity <= 0.0 || rows[n].price <= 0.0)
  }

  predicate IsFirstBad(rows: seq<Fill>, n: nat) {
    IsBad(rows, n) && forall m :: 0 <= m < n ==> !IsBad(rows, m)
  }

  /** Fills are refused for the first bad one, as repeated when it is both repeated and impossible, and for no other. */
  lemma {:induction false} FillErrorIs(rows: seq<Fill>, n: nat)
    ensures IsFirstBad(rows, n) ==> FillError(rows) == Some(if Repeats(rows, n) then DuplicateExecution else InvalidExecution)
    ensures FillError(rows).None? <==> forall m: nat :: !IsBad(rows, m)
    decreases |rows|
  {
    if rows != [] {
      var last := |rows| - 1;
      var head := rows[..last];
      forall m: nat ensures m < last ==> (Repeats(head, m) <==> Repeats(rows, m)) && (IsBad(head, m) <==> IsBad(rows, m)) {
        if m < last {
          assert head[m] == rows[m];
          assert forall j :: 0 <= j < m ==> head[j] == rows[j];
        }
      }
      FillErrorIs(head, n);
      assert FillError(head).None? <==> forall m: nat :: m < last ==> !IsBad(rows, m);
      assert (exists j :: 0 <= j < last && rows[j].id == rows[last].id) <==> Repeats(rows, last);
      assert FillError(rows).None? <==> FillError(head).None? && !IsBad(rows, last);
      if IsFirstBad(rows, n) && n < last {
        assert IsFirstBad(head, n);
      }
    }
  }

  lemma NoFillsOk()
    ensures FillsOk([])
  {
  }

  lemma FillsOkNext(rows: seq<Fill>, i: nat)
    requires i < |rows|
    ensures FillsOk(rows[..i + 1]) <==> FillsOk(rows[..i]) && ValidFill(rows[i]) && !Repeats(rows, i)
    ensures FillsOk(rows) ==> FillsOk(rows[..i + 1])
  {
    var now, before := rows[..i + 1], rows[..i];
    assert now == before + [rows[i]];
    assert forall j :: 0 <= j < i ==> before[j] == rows[j];
    if FillsOk(now) {
      assert forall j :: 0 <= j < i ==> now[j] == rows[j];
      assert now[i] == rows[i];
    }
  }

  /** Fills the three lists in time order, refusing repeated identities and impossible fills. */
  method Tabulate(rows: seq<Fill>) returns (error: Option<Error>, tables: Tables)
    ensures error.None? <==> FillsOk(rows)
    ensures error == FillError(rows)
    ensures error.None? ==> tables == TablesOf(rows)
  {
    hide CumSum, Cell, FillsOk;
    NoFillsOk();
    var times: seq<real>, signed: seq<real>, flows: seq<real>, commissions: seq<real> := [], [], [], [];
    var identities: set<nat> := {};
    tables := Tables([], [], [], []);
    var i := 0;
    while i < |rows|
      invariant 0 <= i <= |rows|
      invariant times == FillTimes(rows[..i]) && signed == Cells(rows[..i], Shares)
      invariant flows == Cells(rows[..i], Cash) && commissions == Cells(rows[..i], Fees)
      invariant FillsOk(rows[..i]) && FillError(rows[..i]) == None
      invariant forall id :: id in identities <==> exists j :: 0 <= j < i && rows[j].id == id
    {
      var row := rows[i];
      FillsOkNext(rows, i);
      assert row.id in identities <==> Repeats(rows, i);
      assert rows[..i + 1][..i] == rows[..i] && forall j :: 0 <= j < i ==> rows[..i + 1][j] == rows[j];
      if row.id in identities {
        assert FillError(rows[..i + 1]) == Some(DuplicateExecution);
        LaterFillsKeepError(rows, i + 1);
        return Some(DuplicateExecution), tables;
      }
      identities := identities + {row.id};
      if !ValidFill(row) {
        assert FillError(rows[..i + 1]) == Some(InvalidExecution);
        LaterFillsKeepError(rows, i + 1);
        return Some(InvalidExecution), tables;
      }
      var change := if row.buy then row.quantity else -row.quantity;
      FillCells(row, change);
      times, signed := times + [row.at], signed + [change];
      flows, commissions := flows + [-change * row.price - row.fee], commissions + [row.fee];
      assert rows[..i + 1] == rows[..i] + [row];
      i := i + 1;
    }
    assert rows[..i] == rows;
    return None, Tables(times, CumSum(signed), CumSum(flows), CumSum(commissions));
  }

  lemma FillCells(row: Fill, change: real)
    requires change == if row.buy then row.quantity else -row.quantity
    ensures Cell(row, Shares) == change && Cell(row, Cash) == -change * row.price - row.fee && Cell(row, Fees) == row.fee
  {
  }

  lemma InventoryIs(rows: seq<Fill>)
    ensures NeverShort(rows) <==> NonNegative(CumSum(Cells(rows, Shares)))
  {
    hide CumSum, Amount;
    var sums := CumSum(Cells(rows, Shares));
    forall i | 0 <= i <= |rows| ensures sums[i] == Amount(rows[..i], Shares) {
      CumSumIs(rows, Shares, i);
    }
  }

  predicate NonNegative(xs: seq<real>) {
    forall i :: 0 <= i < |xs| ==> xs[i] >= 0.0
  }

  method AllNonNegative(xs: seq<real>) returns (ok: bool)
    ensures ok <==> NonNegative(xs)
  {
    var i := 0;
    while i < |xs|
      invariant 0 <= i <= |xs| && forall j :: 0 <= j < i ==> xs[j] >= 0.0
    {
      if xs[i] < 0.0 {
        return false;
      }
      i := i + 1;
    }
    return true;
  }

  /** Values every clock position, or finds one that cannot be valued. */
  method ValueClocks(ghost fills: seq<Fill>, tables: Tables, marks: seq<Mark>, clocks: seq<Clock>)
    returns (ok: bool, curve: seq<real>, quantities: seq<real>)
    requires tables == TablesOf(SortedFills(fills)) && MarksOk(marks)
    ensures ok <==> forall i :: 0 <= i < |clocks| ==> Value(fills, marks, clocks[i].t, clocks[i].inclusive).Some?
    ensures ok ==> CurveOf(fills, marks, clocks, curve) && |quantities| == |clocks|
    ensures ok ==> forall i :: 0 <= i < |clocks| ==> quantities[i] == At(fills, Shares, clocks[i].t, clocks[i].inclusive)
  {
    hide Value, At, ValueAt, SortedFills, CumSum;
    curve, quantities := [], [];
    var i := 0;
    while i < |clocks|
      invariant 0 <= i <= |clocks| && |curve| == |quantities| == i
      invariant forall j :: 0 <= j < i ==> Value(fills, marks, clocks[j].t, clocks[j].inclusive) == Some(curve[j])
      invariant forall j :: 0 <= j < i ==> quantities[j] == At(fills, Shares, clocks[j].t, clocks[j].inclusive)
    {
      ValueAtIs(fills, marks, clocks[i].t, clocks[i].inclusive);
      var point := ValueAt(tables, marks, clocks[i].t, clocks[i].inclusive);
      if point.None? {
        return false, [], [];
      }
      curve, quantities := curve + [point.value.equity], quantities + [point.value.quantity];
      i := i + 1;
    }
    return true, curve, quantities;
  }

  /** A largest fall ends here, and none ends earlier. */
  ghost predicate IsTrough(curve: seq<real>, d: real, j: nat) {
    && j < |curve| && (exists i :: 0 <= i <= j && curve[i] - curve[j] == d)
    && (forall i, k :: 0 <= i <= k < j ==> curve[i] - curve[k] < d)
  }

  predicate PeakTo(curve: seq<real>, n: nat, peak: real) {
    && n <= |curve| && (exists i :: 0 <= i < n && curve[i] == peak) && (forall i :: 0 <= i < n ==> curve[i] <= peak)
  }

  /** The running peak finds the largest fall over all pairs, and its first trough. */
  method WorstFall(curve: seq<real>) returns (d: real, worst: nat)
    requires curve != []
    ensures IsDrawdown(curve, d) && IsTrough(curve, d, worst)
  {
    hide PeakTo, DrawdownTo, IsTrough;
    var peak := curve[0];
    d, worst := 0.0, 0;
    var k := 1;
    FirstPoint(curve);
    while k < |curve|
      invariant 1 <= k <= |curve| && worst < k
      invariant PeakTo(curve, k, peak) && DrawdownTo(curve, k, d) && IsTrough(curve, d, worst)
    {
      PeakExtends(curve, k, peak);
      if curve[k] > peak {
        peak := curve[k];
      }
      FallExtends(curve, k, peak, d, worst);
      if peak - curve[k] > d {
        d, worst := peak - curve[k], k;
      }
      k := k + 1;
    }
  }

  lemma FirstPoint(curve: seq<real>)
    requires curve != []
    ensures PeakTo(curve, 1, curve[0]) && DrawdownTo(curve, 1, 0.0) && IsTrough(curve, 0.0, 0)
  {
    assert curve[0] - curve[0] == 0.0;
  }

  lemma PeakExtends(curve: seq<real>, k: nat, peak: real)
    requires 0 < k < |curve| && PeakTo(curve, k, peak)
    ensures PeakTo(curve, k + 1, if curve[k] > peak then curve[k] else peak)
  {
    var i :| 0 <= i < k && curve[i] == peak;
    assert 0 <= i < k + 1;
    assert curve[k] <= (if curve[k] > peak then curve[k] else peak);
  }

  lemma FallExtends(curve: seq<real>, k: nat, peak: real, d: real, worst: nat)
    requires 0 < k < |curve| && worst < k && DrawdownTo(curve, k, d) && IsTrough(curve, d, worst)
    requires PeakTo(curve, k + 1, peak)
    ensures if peak - curve[k] > d then DrawdownTo(curve, k + 1, peak - curve[k]) && IsTrough(curve, peak - curve[k], k)
            else DrawdownTo(curve, k + 1, d)
  {
    if peak - curve[k] > d {
      NewTrough(curve, k, peak, d);
    } else {
      OldTrough(curve, k, peak, d);
    }
  }

  lemma NewTrough(curve: seq<real>, k: nat, peak: real, d: real)
    requires 0 < k < |curve| && DrawdownTo(curve, k, d) && PeakTo(curve, k + 1, peak) && peak - curve[k] > d
    ensures DrawdownTo(curve, k + 1, peak - curve[k]) && IsTrough(curve, peak - curve[k], k)
  {
    var p :| 0 <= p < k + 1 && curve[p] == peak;
    assert curve[p] - curve[k] == peak - curve[k];
    forall i, j | 0 <= i <= j < k + 1 ensures curve[i] - curve[j] <= peak - curve[k] {
      assert curve[i] <= peak;
    }
  }

  lemma OldTrough(curve: seq<real>, k: nat, peak: real, d: real)
    requires 0 < k < |curve| && DrawdownTo(curve, k, d) && PeakTo(curve, k + 1, peak) && peak - curve[k] <= d
    ensures DrawdownTo(curve, k + 1, d)
  {
    var a, b :| 0 <= a <= b < k && d == curve[a] - curve[b];
    assert 0 <= a <= b < k + 1 && d == curve[a] - curve[b];
    forall i, j | 0 <= i <= j < k + 1 ensures curve[i] - curve[j] <= d {
      assert curve[i] <= peak;
    }
  }

  predicate IsMax(xs: seq<real>, m: real) {
    m in xs && forall i :: 0 <= i < |xs| ==> xs[i] <= m
  }

  predicate IsMin(xs: seq<real>, m: real) {
    m in xs && forall i :: 0 <= i < |xs| ==> xs[i] >= m
  }

  function Highest(xs: seq<real>): (m: real)
    requires xs != []
    ensures IsMax(xs, m)
  {
    if |xs| == 1 then xs[0]
    else
      var rest := Highest(xs[1..]);
      assert xs == [xs[0]] + xs[1..];
      assert forall i :: 0 < i < |xs| ==> xs[i] == xs[1..][i - 1];
      if xs[0] >= rest then xs[0] else rest
  }

  function Lowest(xs: seq<real>): (m: real)
    requires xs != []
    ensures IsMin(xs, m)
  {
    if |xs| == 1 then xs[0]
    else
      var rest := Lowest(xs[1..]);
      assert xs == [xs[0]] + xs[1..];
      assert forall i :: 0 < i < |xs| ==> xs[i] == xs[1..][i - 1];
      if xs[0] <= rest then xs[0] else rest
  }

  /** What a report says, in terms of naive valuation at every event of its interval. */
  ghost predicate Reports(fills: seq<Fill>, marks: seq<Mark>, start: real, end: real, inclusive: bool, r: Report,
                          points: seq<real>, curve: seq<real>)
  {
    && IsPoints(fills, marks, start, end, inclusive, points)
    && CurveOf(fills, marks, Clocks(points, start, end, inclusive), curve)
    && Value(fills, marks, start, false).Some? && Value(fills, marks, end, inclusive).Some?
    && Slice(r.net, r.fees, r.count) == SliceOf(fills, marks, start, end, inclusive)
    && r.openingQuantity == At(fills, Shares, start, false) && r.closingQuantity == At(fills, Shares, end, inclusive)
    && r.openingAge == MarkAge(marks, start, false) && r.closingAge == MarkAge(marks, end, inclusive)
    && IsDrawdown(curve, r.drawdown)
    && (exists j: nat :: IsTrough(curve, r.drawdown, j) && Clocks(points, start, end, inclusive)[j].t == r.trough)
    && IsMax(curve, r.peak + curve[0]) && IsMin(curve, r.minimum + curve[0])
    && (exists i :: 0 <= i < |curve|
          && r.maximumInventory == QuantityAt(fills, points, start, end, inclusive, i))
    && (forall i :: 0 <= i < |curve| ==> QuantityAt(fills, points, start, end, inclusive, i) <= r.maximumInventory)
  }

  function QuantityAt(fills: seq<Fill>, points: seq<real>, start: real, end: real, inclusive: bool, i: nat): real
    requires i < |points| + 2
  {
    var c := Clocks(points, start, end, inclusive)[i];
    At(fills, Shares, c.t, c.inclusive)
  }

  /** Everything that must hold of the inputs for a report to exist. */
  ghost predicate Measurable(fills: seq<Fill>, marks: seq<Mark>, start: real, end: real) {
    start < end && MarksOk(marks) && FillsOk(SortedFills(fills)) && NeverShort(SortedFills(fills))
  }

  lemma CurveJoins(fills: seq<Fill>, marks: seq<Mark>, points: seq<real>, start: real, end: real, inclusive: bool,
                   opening: real, equity: seq<real>, closing: real)
    requires Value(fills, marks, start, false) == Some(opening) && Value(fills, marks, end, inclusive) == Some(closing)
    requires CurveOf(fills, marks, EventClocks(points), equity)
    ensures CurveOf(fills, marks, Clocks(points, start, end, inclusive), [opening] + equity + [closing])
  {
    hide Value;
    var clocks, curve := Clocks(points, start, end, inclusive), [opening] + equity + [closing];
    forall i | 0 <= i < |clocks| ensures Value(fills, marks, clocks[i].t, clocks[i].inclusive) == Some(curve[i]) {
      if 0 < i < |clocks| - 1 {
        assert clocks[i] == EventClocks(points)[i - 1] && curve[i] == equity[i - 1];
      }
    }
  }

  lemma QuantitiesJoin(fills: seq<Fill>, points: seq<real>, start: real, end: real, inclusive: bool, quantities: seq<real>)
    requires |quantities| == |points|
    requires forall i :: 0 <= i < |points| ==> quantities[i] == At(fills, Shares, points[i], true)
    ensures var all := [At(fills, Shares, start, false)] + quantities + [At(fills, Shares, end, inclusive)];
      |all| == |points| + 2 && forall i :: 0 <= i < |all| ==> all[i] == QuantityAt(fills, points, start, end, inclusive, i)
  {
    hide At;
    var all := [At(fills, Shares, start, false)] + quantities + [At(fills, Shares, end, inclusive)];
    forall i | 0 <= i < |all| ensures all[i] == QuantityAt(fills, points, start, end, inclusive, i) {
      if 0 < i < |all| - 1 {
        assert all[i] == quantities[i - 1];
        assert Clocks(points, start, end, inclusive)[i] == EventClocks(points)[i - 1];
      }
    }
  }

  /** The accounting columns: what the fill indices say is what the window holds. */
  lemma WindowIs(fills: seq<Fill>, marks: seq<Mark>, start: real, end: real, inclusive: bool, opening: Point, closing: Point)
    requires MarksOk(marks) && start < end
    requires ValueAt(TablesOf(SortedFills(fills)), marks, start, false) == Some(opening)
    requires ValueAt(TablesOf(SortedFills(fills)), marks, end, inclusive) == Some(closing)
    ensures Value(fills, marks, start, false) == Some(opening.equity)
    ensures Value(fills, marks, end, inclusive) == Some(closing.equity)
    ensures opening.quantity == At(fills, Shares, start, false) && closing.quantity == At(fills, Shares, end, inclusive)
    ensures var fees := TablesOf(SortedFills(fills)).fees;
      && opening.fill < |fees| && closing.fill < |fees|
      && Slice(closing.equity - opening.equity, fees[closing.fill] - fees[opening.fill], closing.fill - opening.fill)
         == SliceOf(fills, marks, start, end, inclusive)
  {
    hide Value, CumSum, SearchSorted, SortedFills, Held, Amount, Window, Worth;
    ValueAtIs(fills, marks, start, false);
    ValueAtIs(fills, marks, end, inclusive);
    SumAt(fills, Fees, start, false);
    SumAt(fills, Fees, end, inclusive);
    WindowIsDifference(fills, Fees, start, end, inclusive);
  }

  ghost predicate Reported(fills: seq<Fill>, marks: seq<Mark>, start: real, end: real, inclusive: bool, r: Report) {
    exists points, curve :: Reports(fills, marks, start, end, inclusive, r, points, curve)
  }

  /** Some position of the interval cannot be valued: inventory is held there before its first mark. */
  ghost predicate Unvalued(fills: seq<Fill>, marks: seq<Mark>, start: real, end: real, inclusive: bool) {
    exists c: Clock ::
      NotLater(Clock(start, false), c) && NotLater(c, Clock(end, inclusive)) && Value(fills, marks, c.t, c.inclusive).None?
  }

  lemma ClockWithin(fills: seq<Fill>, marks: seq<Mark>, start: real, end: real, inclusive: bool, points: seq<real>, i: nat)
    requires start < end && IsPoints(fills, marks, start, end, inclusive, points) && i < |points|
    ensures NotLater(Clock(start, false), Clock(points[i], true)) && NotLater(Clock(points[i], true), Clock(end, inclusive))
  {
    hide IsEvent;
    assert points[i] in points;
  }

  lemma UnvaluedAt(fills: seq<Fill>, marks: seq<Mark>, start: real, end: real, inclusive: bool, c: Clock)
    requires NotLater(Clock(start, false), c) && NotLater(c, Clock(end, inclusive)) && Value(fills, marks, c.t, c.inclusive).None?
    ensures Unvalued(fills, marks, start, end, inclusive)
  {
  }

  lemma EndsWithin(start: real, end: real, inclusive: bool)
    requires start < end
    ensures NotLater(Clock(start, false), Clock(start, false)) && NotLater(Clock(start, false), Clock(end, inclusive))
    ensures NotLater(Clock(end, inclusive), Clock(end, inclusive))
  {
  }

  /** The valuation proper, on tables already built: both ends, every event between, then the running peak. */
  method MeasureTables(ghost fills: seq<Fill>, tables: Tables, marks: seq<Mark>, start: real, end: real, inclusive: bool)
    returns (r: Result)
    requires tables == TablesOf(SortedFills(fills)) && MarksOk(marks) && start < end
    ensures r.Ok? ==> Reported(fills, marks, start, end, inclusive, r.report)
    ensures r.Err? ==> r.error == NoCausalMark && Unvalued(fills, marks, start, end, inclusive)
  {
    hide SortedFills, CumSum, Value, At, ValueAt, Unique, IsPoints, Clocks, IsTrough, IsDrawdown, CurveOf, NotLater,
      SliceOf, Unvalued, QuantityAt, IsMax, IsMin, Worth, EventClocks, AgeAt, MarkAge;
    EndsWithin(start, end, inclusive);
    var opening := ValueAt(tables, marks, start, false);
    if opening.None? {
      EndUnvalued(fills, marks, start, false);
      UnvaluedAt(fills, marks, start, end, inclusive, Clock(start, false));
      return Err(NoCausalMark);
    }
    var closing := ValueAt(tables, marks, end, inclusive);
    if closing.None? {
      EndUnvalued(fills, marks, end, inclusive);
      UnvaluedAt(fills, marks, start, end, inclusive, Clock(end, inclusive));
      return Err(NoCausalMark);
    }
    WindowIs(fills, marks, start, end, inclusive, opening.value, closing.value);
    var points := Unique(MarkTimes(marks) + tables.times, start, end, inclusive);
    PointsAreEvents(fills, marks, start, end, inclusive);
    var ok, equity, quantities := ValueClocks(fills, tables, marks, EventClocks(points));
    EventClocksAre(points);
    if !ok {
      ghost var i: nat :| i < |points| && Value(fills, marks, points[i], true).None?;
      ClockWithin(fills, marks, start, end, inclusive, points, i);
      UnvaluedAt(fills, marks, start, end, inclusive, Clock(points[i], true));
      return Err(NoCausalMark);
    }
    var curve := [opening.value.equity] + equity + [closing.value.equity];
    var inventory := [opening.value.quantity] + quantities + [closing.value.quantity];
    CurveJoins(fills, marks, points, start, end, inclusive, opening.value.equity, equity, closing.value.equity);
    QuantitiesJoin(fills, points, start, end, inclusive, quantities);
    CurveLength(fills, marks, EventClocks(points), equity);
    var d, worst := WorstFall(curve);
    TroughInside(curve, d, worst);
    ClocksLength(points, start, end, inclusive);
    var report := Report(opening.value.quantity, closing.value.quantity,
                         AgeAt(marks, start, false), AgeAt(marks, end, inclusive), closing.value.equity - opening.value.equity,
                         tables.fees[closing.value.fill] - tables.fees[opening.value.fill],
                         closing.value.fill - opening.value.fill, d, Clocks(points, start, end, inclusive)[worst].t,
                         Highest(curve) - curve[0], Lowest(curve) - curve[0], Highest(inventory));
    AgeAtIs(marks, start, false);
    AgeAtIs(marks, end, inclusive);
    MaximumIsReached(inventory, report.maximumInventory);
    assert Reports(fills, marks, start, end, inclusive, report, points, curve);
    return Ok(report);
  }

  lemma EndUnvalued(fills: seq<Fill>, marks: seq<Mark>, t: real, inclusive: bool)
    requires MarksOk(marks) && ValueAt(TablesOf(SortedFills(fills)), marks, t, inclusive).None?
    ensures Value(fills, marks, t, inclusive).None?
  {
    hide ValueAt, Value, SortedFills, CumSum;
    ValueAtIs(fills, marks, t, inclusive);
  }

  lemma EventClocksAre(points: seq<real>)
    ensures |EventClocks(points)| == |points|
    ensures forall i :: 0 <= i < |points| ==> EventClocks(points)[i] == Clock(points[i], true)
  {
  }

  lemma CurveLength(fills: seq<Fill>, marks: seq<Mark>, clocks: seq<Clock>, curve: seq<real>)
    requires CurveOf(fills, marks, clocks, curve)
    ensures |curve| == |clocks|
  {
  }

  lemma ClocksLength(points: seq<real>, start: real, end: real, inclusive: bool)
    ensures |Clocks(points, start, end, inclusive)| == |points| + 2
  {
  }

  lemma MaximumIsReached(xs: seq<real>, m: real)
    requires IsMax(xs, m)
    ensures exists i :: 0 <= i < |xs| && m == xs[i]
    ensures forall i :: 0 <= i < |xs| ==> xs[i] <= m
  {
  }

  lemma TroughInside(curve: seq<real>, d: real, j: nat)
    requires IsTrough(curve, d, j)
    ensures j < |curve|
  {
  }

  /** Why inputs are refused before anything is valued: the interval, the marks, the first bad fill, a short position. */
  ghost function Refusal(fills: seq<Fill>, marks: seq<Mark>, start: real, end: real): Option<Error> {
    if start >= end then Some(BadInterval)
    else if !MarksOk(marks) then Some(BadMarks)
    else if FillError(SortedFills(fills)).Some? then FillError(SortedFills(fills))
    else if !NeverShort(SortedFills(fills)) then Some(NetShort)
    else None
  }

  /** Reports exactly the measurable inputs whose every position in the interval has a causal mark. */
  method Measure(fills: seq<Fill>, marks: seq<Mark>, start: real, end: real, inclusive: bool) returns (r: Result)
    ensures r.Ok? ==> Measurable(fills, marks, start, end) && Reported(fills, marks, start, end, inclusive, r.report)
    ensures r.Err? && r.error != NoCausalMark <==> !Measurable(fills, marks, start, end)
    ensures r.Err? ==> Some(r.error) == if Measurable(fills, marks, start, end) then Some(NoCausalMark)
                                        else Refusal(fills, marks, start, end)
    ensures r.Err? && r.error == NoCausalMark ==>
      Measurable(fills, marks, start, end) && Unvalued(fills, marks, start, end, inclusive)
  {
    hide SortedFills, CumSum, MarksOk, FillsOk, NeverShort, Reported, Unvalued;
    if start >= end {
      return Err(BadInterval);
    }
    var ok := CheckMarks(marks);
    if !ok {
      return Err(BadMarks);
    }
    var rows := SortedFills(fills);
    var error, tables := Tabulate(rows);
    if error.Some? {
      return Err(error.value);
    }
    InventoryIs(rows);
    ok := AllNonNegative(tables.inventory);
    if !ok {
      return Err(NetShort);
    }
    r := MeasureTables(fills, tables, marks, start, end, inclusive);
  }
}
