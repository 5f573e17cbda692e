/** Merging per-listing summaries one at a time against grouping the whole market at once. */
module MarketSummary {
  import opened Common

  /** One candidate at one time; its key is its ticker and side. */
  datatype Row = Row(key: string, canOpen: bool, capital: real, valued: bool, score: Option<real>)

  datatype Best = Best(score: real, key: string, capital: real)

  datatype Summary = Summary(maxNewPrice: real, priced: nat, valued: nat, best: Option<Best>)

  // ---------- Grouping the whole market ----------

  function Higher(a: Option<real>, b: Option<real>): Option<real> {
    if a.None? then b else if b.None? || b.value <= a.value then a else b
  }

  function MaxOpen(rows: seq<Row>): Option<real> {
    if rows == [] then None
    else Higher(MaxOpen(rows[..|rows| - 1]), var r := rows[|rows| - 1]; if r.canOpen then Some(r.capital) else None)
  }

  function Priced(rows: seq<Row>): nat {
    if rows == [] then 0 else Priced(rows[..|rows| - 1]) + if rows[|rows| - 1].canOpen then 1 else 0
  }

  function Valued(rows: seq<Row>): nat {
    if rows == [] then 0 else Valued(rows[..|rows| - 1]) + if rows[|rows| - 1].valued then 1 else 0
  }

  function TopScore(rows: seq<Row>): Option<real> {
    if rows == [] then None else Higher(TopScore(rows[..|rows| - 1]), rows[|rows| - 1].score)
  }

  /** The smallest key carrying a score. */
  function TopKey(rows: seq<Row>, score: real): Option<string> {
    if rows == [] then None
    else
      var before, r := TopKey(rows[..|rows| - 1], score), rows[|rows| - 1];
      if r.score == Some(score) && (before.None? || Below(r.key, before.value)) then Some(r.key) else before
  }

  /** The capital of the row a key names. */
  function CapitalOf(rows: seq<Row>, key: string): Option<real> {
    if rows == [] then None
    else if rows[|rows| - 1].key == key then Some(rows[|rows| - 1].capital)
    else CapitalOf(rows[..|rows| - 1], key)
  }

  function BestOf(rows: seq<Row>): Option<Best> {
    var score := TopScore(rows);
    if score.None? then None
    else
      var key := TopKey(rows, score.value);
      if key.None? then None
      else
        var capital := CapitalOf(rows, key.value);
        if capital.None? then None else Some(Best(score.value, key.value, capital.value))
  }

  function Grouped(rows: seq<Row>): Summary {
    var open := MaxOpen(rows);
    Summary(if open.Some? then open.value else 0.0, Priced(rows), Valued(rows), BestOf(rows))
  }

  /** The other columns: the highest capital of an openable row, zero when there is none, and how many rows are openable and
      how many valued. */
  lemma GroupedIs(rows: seq<Row>) returns (open: set<int>, valued: set<int>)
    ensures forall i :: i in open <==> 0 <= i < |rows| && rows[i].canOpen
    ensures forall i :: i in valued <==> 0 <= i < |rows| && rows[i].valued
    ensures Grouped(rows).priced == |open| && Grouped(rows).valued == |valued|
    ensures open == {} ==> Grouped(rows).maxNewPrice == 0.0
    ensures open != {} ==>
      && (exists i :: i in open && Grouped(rows).maxNewPrice == rows[i].capital)
      && forall i :: i in open ==> rows[i].capital <= Grouped(rows).maxNewPrice
  {
    open, valued := Counted(rows);
    MaxOpenIs(rows);
    if open != {} {
      NonemptyHasElement(open);
    }
  }

  lemma {:induction false} Counted(rows: seq<Row>) returns (open: set<int>, valued: set<int>)
    ensures forall i :: i in open <==> 0 <= i < |rows| && rows[i].canOpen
    ensures forall i :: i in valued <==> 0 <= i < |rows| && rows[i].valued
    ensures Priced(rows) == |open| && Valued(rows) == |valued|
    decreases |rows|
  {
    open, valued := {}, {};
    if rows != [] {
      var n := |rows| - 1;
      var head := rows[..n];
      open, valued := Counted(head);
      assert n !in open && n !in valued;
      assert forall i :: 0 <= i < n ==> head[i] == rows[i];
      open := if rows[n].canOpen then open + {n} else open;
      valued := if rows[n].valued then valued + {n} else valued;
    }
  }

  lemma {:induction false} MaxOpenIs(rows: seq<Row>)
    ensures MaxOpen(rows).None? <==> forall i :: 0 <= i < |rows| ==> !rows[i].canOpen
    ensures MaxOpen(rows).Some? ==>
      && (exists i :: 0 <= i < |rows| && rows[i].canOpen && rows[i].capital == MaxOpen(rows).value)
      && forall i :: 0 <= i < |rows| && rows[i].canOpen ==> rows[i].capital <= MaxOpen(rows).value
    decreases |rows|
  {
    if rows != [] {
      var n := |rows| - 1;
      MaxOpenIs(rows[..n]);
      assert forall i :: 0 <= i < n ==> rows[..n][i] == rows[i];
    }
  }

  // ---------- Merging ----------

  function Single(r: Row): Summary {
    Summary(if r.canOpen then r.capital else 0.0, if r.canOpen then 1 else 0, if r.valued then 1 else 0,
            if r.score.Some? then Some(Best(r.score.value, r.key, r.capital)) else None)
  }

  predicate Replaces(held: Option<Best>, next: Option<Best>) {
    || (next.Some? && held.None?)
    || (next.Some? && held.Some? && next.value.score > held.value.score)
    || (next.Some? && held.Some? && next.value.score == held.value.score && Below(next.value.key, held.value.key))
  }

  function Merge(a: Summary, b: Summary): Summary {
    Summary(if b.maxNewPrice >= a.maxNewPrice then b.maxNewPrice else a.maxNewPrice,
            a.priced + b.priced, a.valued + b.valued, if Replaces(a.best, b.best) then b.best else a.best)
  }

  // ---------- What the best candidate is ----------

  predicate UniqueKeys(rows: seq<Row>) {
    forall i, j :: 0 <= i < j < |rows| ==> rows[i].key != rows[j].key
  }

  predicate NonNegative(rows: seq<Row>) {
    forall i :: 0 <= i < |rows| && rows[i].canOpen ==> rows[i].capital >= 0.0
  }

  /** Highest score; smallest key among equals; that row's own capital; nothing when every score is missing. */
  ghost predicate IsBest(rows: seq<Row>, b: Option<Best>) {
    match b
    case None => forall i :: 0 <= i < |rows| ==> rows[i].score.None?
    case Some(x) =>
      && (exists i :: 0 <= i < |rows| && Carries(rows[i], x))
      && (forall i :: 0 <= i < |rows| ==> !Beats(rows[i], x))
  }

  predicate Carries(r: Row, x: Best) {
    r.score == Some(x.score) && r.key == x.key && r.capital == x.capital
  }

  predicate Beats(r: Row, x: Best) {
    r.score.Some? && (r.score.value > x.score || (r.score.value == x.score && Below(r.key, x.key)))
  }

  lemma BestIsUnique(rows: seq<Row>, x: Option<Best>, y: Option<Best>)
    requires UniqueKeys(rows) && IsBest(rows, x) && IsBest(rows, y)
    ensures x == y
  {
    if x.Some? {
      var i :| 0 <= i < |rows| && Carries(rows[i], x.value);
      if y.Some? {
        var j :| 0 <= j < |rows| && Carries(rows[j], y.value);
        assert !Beats(rows[i], y.value) && !Beats(rows[j], x.value);
        if x.value.key != y.value.key {
          BelowIsTotal(x.value.key, y.value.key);
        }
      }
    }
  }

  lemma BestMerges(a: seq<Row>, b: seq<Row>, x: Option<Best>, y: Option<Best>)
    requires IsBest(a, x) && IsBest(b, y)
    ensures IsBest(a + b, if Replaces(x, y) then y else x)
  {
    hide Below;
    TextOrder();
    var all, best := a + b, if Replaces(x, y) then y else x;
    if best.Some? {
      if Replaces(x, y) {
        var i :| 0 <= i < |b| && Carries(b[i], best.value);
        assert all[|a| + i] == b[i];
      } else {
        var i :| 0 <= i < |a| && Carries(a[i], best.value);
        assert all[i] == a[i];
      }
      forall i | 0 <= i < |all| ensures !Beats(all[i], best.value) {
        if i < |a| {
          assert all[i] == a[i];
          assert x.Some? ==> !Beats(a[i], x.value);
        } else {
          assert all[i] == b[i - |a|];
          assert y.Some? ==> !Beats(b[i - |a|], y.value);
        }
      }
    }
  }

  lemma {:induction false} TopScoreIs(rows: seq<Row>)
    ensures TopScore(rows).None? <==> forall i :: 0 <= i < |rows| ==> rows[i].score.None?
    ensures TopScore(rows).Some? ==>
      && (exists i :: 0 <= i < |rows| && rows[i].score == TopScore(rows))
      && (forall i :: 0 <= i < |rows| && rows[i].score.Some? ==> rows[i].score.value <= TopScore(rows).value)
    decreases |rows|
  {
    if rows != [] {
      var n := |rows| - 1;
      TopScoreIs(rows[..n]);
      assert rows == rows[..n] + [rows[n]];
      if TopScore(rows[..n]).Some? {
        var i :| 0 <= i < n && rows[..n][i].score == TopScore(rows[..n]);
        assert rows[i].score == TopScore(rows[..n]);
      }
    }
  }

  lemma {:induction false} TopKeyIs(rows: seq<Row>, score: real)
    ensures TopKey(rows, score).None? <==> forall i :: 0 <= i < |rows| ==> rows[i].score != Some(score)
    ensures TopKey(rows, score).Some? ==>
      && (exists i :: 0 <= i < |rows| && rows[i].score == Some(score) && rows[i].key == TopKey(rows, score).value)
      && (forall i :: 0 <= i < |rows| && rows[i].score == Some(score) ==> !Below(rows[i].key, TopKey(rows, score).value))
    decreases |rows|
  {
    hide Below;
    TextOrder();
    if rows != [] {
      var n := |rows| - 1;
      TopKeyIs(rows[..n], score);
      assert rows == rows[..n] + [rows[n]];
      if TopKey(rows[..n], score).Some? {
        var i :| 0 <= i < n && rows[..n][i].score == Some(score) && rows[..n][i].key == TopKey(rows[..n], score).value;
        assert rows[i] == rows[..n][i];
      }
    }
  }

  lemma {:induction false} CapitalIs(rows: seq<Row>, i: nat)
    requires UniqueKeys(rows) && i < |rows|
    ensures CapitalOf(rows, rows[i].key) == Some(rows[i].capital)
    decreases |rows|
  {
    var n := |rows| - 1;
    if i < n {
      CapitalIs(rows[..n], i);
      assert rows[..n][i] == rows[i];
    }
  }

  /** The grouped columns name exactly the best candidate. */
  lemma BestOfIs(rows: seq<Row>)
    requires UniqueKeys(rows)
    ensures IsBest(rows, BestOf(rows))
  {
    TopScoreIs(rows);
    if TopScore(rows).Some? {
      var score := TopScore(rows).value;
      TopKeyIs(rows, score);
      var i :| 0 <= i < |rows| && rows[i].score == Some(score) && rows[i].key == TopKey(rows, score).value;
      CapitalIs(rows, i);
      assert Carries(rows[i], BestOf(rows).value);
    }
  }

  // ---------- Grouping is merging ----------

  lemma {:induction false} MaxOpenConcat(a: seq<Row>, b: seq<Row>)
    ensures MaxOpen(a + b) == Higher(MaxOpen(a), MaxOpen(b))
    ensures Priced(a + b) == Priced(a) + Priced(b) && Valued(a + b) == Valued(a) + Valued(b)
    decreases |b|
  {
    if b == [] {
      assert a + b == a;
    } else {
      var n := |b| - 1;
      assert (a + b)[..|a + b| - 1] == a + b[..n] && (a + b)[|a + b| - 1] == b[n];
      MaxOpenConcat(a, b[..n]);
    }
  }

  lemma {:induction false} MaxOpenNonNegative(rows: seq<Row>)
    requires NonNegative(rows)
    ensures MaxOpen(rows).Some? ==> MaxOpen(rows).value >= 0.0
    decreases |rows|
  {
    if rows != [] {
      var n := |rows| - 1;
      assert rows == rows[..n] + [rows[n]];
      MaxOpenNonNegative(rows[..n]);
    }
  }

  lemma PartsAreUnique(a: seq<Row>, b: seq<Row>)
    requires UniqueKeys(a + b)
    ensures UniqueKeys(a) && UniqueKeys(b)
  {
    var all := a + b;
    forall i, j | 0 <= i < j < |a| ensures a[i].key != a[j].key {
      assert all[i] == a[i] && all[j] == a[j];
    }
    forall i, j | 0 <= i < j < |b| ensures b[i].key != b[j].key {
      assert all[|a| + i] == b[i] && all[|a| + j] == b[j];
    }
  }

  lemma PartsAreNonNegative(a: seq<Row>, b: seq<Row>)
    requires NonNegative(a + b)
    ensures NonNegative(a) && NonNegative(b)
  {
    var all := a + b;
    forall i | 0 <= i < |a| && a[i].canOpen ensures a[i].capital >= 0.0 {
      assert all[i] == a[i];
    }
    forall i | 0 <= i < |b| && b[i].canOpen ensures b[i].capital >= 0.0 {
      assert all[|a| + i] == b[i];
    }
  }

  /** Grouping two parts of the market and merging is grouping both together. */
  lemma GroupedConcat(a: seq<Row>, b: seq<Row>)
    requires UniqueKeys(a + b) && NonNegative(a + b)
    ensures Grouped(a + b) == Merge(Grouped(a), Grouped(b))
  {
    hide MaxOpen, Priced, Valued, BestOf, UniqueKeys, NonNegative;
    PartsAreUnique(a, b);
    PartsAreNonNegative(a, b);
    MaxOpenConcat(a, b);
    MaxOpenNonNegative(a);
    MaxOpenNonNegative(b);
    BestOfIs(a);
    BestOfIs(b);
    BestOfIs(a + b);
    BestMerges(a, b, BestOf(a), BestOf(b));
    BestIsUnique(a + b, BestOf(a + b), if Replaces(BestOf(a), BestOf(b)) then BestOf(b) else BestOf(a));
  }

  lemma GroupedSingle(r: Row)
    ensures Grouped([r]) == Single(r)
  {
    assert [r][..0] == [];
    assert MaxOpen([r]) == Higher(None, if r.canOpen then Some(r.capital) else None);
    assert Priced([r]) == (if r.canOpen then 1 else 0) && Valued([r]) == (if r.valued then 1 else 0);
    assert TopScore([r]) == r.score by {
      assert TopScore([]) == None;
    }
    if r.score.Some? {
      assert TopKey([r], r.score.value) == Some(r.key);
      assert CapitalOf([r], r.key) == Some(r.capital);
    }
  }

  lemma SplitOut<T>(b: seq<T>, k: nat)
    requires k < |b|
    ensures b == b[..k] + [b[k]] + b[k + 1..]
    ensures multiset(b) == multiset(b[..k] + b[k + 1..]) + multiset{b[k]}
  {
    assert b == b[..k] + [b[k]] + b[k + 1..];
  }

  lemma Cancel<T>(x: multiset<T>, y: multiset<T>, r: T)
    requires x + multiset{r} == y + multiset{r}
    ensures x == y
  {
    assert x == (x + multiset{r}) - multiset{r};
    assert y == (y + multiset{r}) - multiset{r};
  }

  /** The last row of one order found in another, and what is left of both. */
  lemma TakeOut(a: seq<Row>, b: seq<Row>) returns (k: nat)
    requires a != [] && multiset(a) == multiset(b)
    ensures k < |b| && b[k] == a[|a| - 1]
    ensures multiset(a[..|a| - 1]) == multiset(b[..k] + b[k + 1..])
    ensures b == b[..k] + [b[k]] + b[k + 1..] && a == a[..|a| - 1] + [a[|a| - 1]]
  {
    var r := a[|a| - 1];
    assert r in multiset(a);
    k :| 0 <= k < |b| && b[k] == r;
    SplitOut(a, |a| - 1);
    SplitOut(b, k);
    assert a[..|a| - 1] + a[|a|..] == a[..|a| - 1];
    Cancel(multiset(a[..|a| - 1]), multiset(b[..k] + b[k + 1..]), r);
    assert a == a[..|a| - 1] + [r];
  }

  lemma MiddleRow(head: seq<Row>, r: Row, rest: seq<Row>)
    ensures Priced(head + [r] + rest) == Priced(head + rest) + Priced([r])
    ensures Valued(head + [r] + rest) == Valued(head + rest) + Valued([r])
    ensures MaxOpen(head + [r] + rest) == Higher(MaxOpen(head + rest), MaxOpen([r]))
  {
    hide Priced, Valued, MaxOpen;
    MaxOpenConcat(head + [r], rest);
    MaxOpenConcat(head, [r]);
    MaxOpenConcat(head, rest);
  }

  lemma {:induction false} CountsPermute(a: seq<Row>, b: seq<Row>)
    requires multiset(a) == multiset(b)
    ensures Priced(a) == Priced(b) && Valued(a) == Valued(b) && MaxOpen(a) == MaxOpen(b)
    decreases |a|
  {
    if a == [] {
      assert |b| == |multiset(b)| == |multiset(a)| == 0;
    } else {
      hide Priced, Valued, MaxOpen;
      var k := TakeOut(a, b);
      CountsPermute(a[..|a| - 1], b[..k] + b[k + 1..]);
      MaxOpenConcat(a[..|a| - 1], [b[k]]);
      MiddleRow(b[..k], b[k], b[k + 1..]);
    }
  }

  /** The order in which listings arrive does not matter. */
  lemma GroupedPermutes(a: seq<Row>, b: seq<Row>)
    requires multiset(a) == multiset(b) && UniqueKeys(a) && UniqueKeys(b)
    ensures Grouped(a) == Grouped(b)
  {
    CountsPermute(a, b);
    BestOfIs(a);
    BestOfIs(b);
    BestPermutes(a, b, BestOf(a));
    BestIsUnique(b, BestOf(a), BestOf(b));
  }

  lemma BestPermutes(a: seq<Row>, b: seq<Row>, x: Option<Best>)
    requires multiset(a) == multiset(b) && IsBest(a, x)
    ensures IsBest(b, x)
  {
    forall i | 0 <= i < |b| ensures exists k :: 0 <= k < |a| && a[k] == b[i] {
      assert b[i] in multiset(b);
    }
    if x.Some? {
      var i :| 0 <= i < |a| && Carries(a[i], x.value);
      assert a[i] in multiset(a);
      var k :| 0 <= k < |b| && b[k] == a[i];
      assert Carries(b[k], x.value);
      forall j | 0 <= j < |b| ensures !Beats(b[j], x.value) {
        var l :| 0 <= l < |a| && a[l] == b[j];
        assert !Beats(a[l], x.value);
      }
    } else {
      forall j | 0 <= j < |b| ensures b[j].score.None? {
        var l :| 0 <= l < |a| && a[l] == b[j];
      }
    }
  }

  // ---------- Frames over a time grid ----------

  /** One listing and side: its key, and a row at every time of its grid. */
  datatype Side = Side(key: string, times: seq<int>, rows: seq<Row>)

  datatype Frame = Frame(times: seq<int>, cells: seq<Summary>)

  predicate GoodSide(s: Side) {
    && |s.times| == |s.rows|
    && forall t :: 0 <= t < |s.rows| ==> s.rows[t].key == s.key && (s.rows[t].canOpen ==> s.rows[t].capital >= 0.0)
  }

  /** Every listing and side appears once, with capital that is not negative where it can open. */
  predicate GoodMarket(sides: seq<Side>) {
    && (forall i :: 0 <= i < |sides| ==> GoodSide(sides[i]))
    && (forall i, j :: 0 <= i < j < |sides| ==> sides[i].key != sides[j].key)
  }

  /** All rows of the market at one grid position. */
  function Column(sides: seq<Side>, t: nat): seq<Row>
    requires forall i :: 0 <= i < |sides| ==> t < |sides[i].rows|
  {
    seq(|sides|, i requires 0 <= i < |sides| => sides[i].rows[t])
  }

  predicate SameGrid(sides: seq<Side>) {
    forall i :: 0 <= i < |sides| ==> sides[i].times == sides[0].times
  }

  lemma ColumnIsGood(sides: seq<Side>, t: nat)
    requires GoodMarket(sides) && forall i :: 0 <= i < |sides| ==> t < |sides[i].rows|
    ensures UniqueKeys(Column(sides, t)) && NonNegative(Column(sides, t))
  {
    forall i | 0 <= i < |sides|
      ensures Column(sides, t)[i].key == sides[i].key
      ensures Column(sides, t)[i].canOpen ==> Column(sides, t)[i].capital >= 0.0
    {
      assert GoodSide(sides[i]);
    }
  }

  lemma MarketParts(a: seq<Side>, b: seq<Side>)
    requires GoodMarket(a + b)
    ensures GoodMarket(a) && GoodMarket(b)
  {
    hide GoodSide;
    var all := a + b;
    forall i | 0 <= i < |a| ensures a[i] == all[i] {
    }
    forall i | 0 <= i < |b| ensures b[i] == all[|a| + i] {
    }
  }

  /** The frame holds, at every time, the whole group's summary. */
  ghost predicate Summarizes(f: Frame, sides: seq<Side>) {
    && GoodMarket(sides) && sides != [] && SameGrid(sides) && f.times == sides[0].times && |f.cells| == |f.times|
    && forall t :: 0 <= t < |f.cells| ==> SummaryAt(f, sides, t)
  }

  ghost predicate SummaryAt(f: Frame, sides: seq<Side>, t: nat)
    requires t < |f.cells|
  {
    && (forall i :: 0 <= i < |sides| ==> t < |sides[i].rows|)
    && f.cells[t] == Grouped(Column(sides, t))
  }

  method DirectColumns(side: Side) returns (f: Frame)
    requires GoodSide(side)
    ensures Summarizes(f, [side])
  {
    hide Grouped;
    var cells: seq<Summary> := [];
    var t := 0;
    while t < |side.rows|
      invariant 0 <= t <= |side.rows| && |cells| == t
      invariant forall i :: 0 <= i < t ==> cells[i] == Grouped([side.rows[i]])
    {
      GroupedSingle(side.rows[t]);
      cells := cells + [Single(side.rows[t])];
      t := t + 1;
    }
    f := Frame(side.times, cells);
    forall t | 0 <= t < |cells| ensures SummaryAt(f, [side], t) {
      assert Column([side], t) == [side.rows[t]];
    }
  }

  method MergeFrames(previous: Frame, current: Frame) returns (merged: Option<Frame>)
    requires |previous.times| == |previous.cells| && |current.times| == |current.cells|
    ensures merged.None? <==> previous.times != current.times
    ensures merged.Some? ==> merged.value.times == previous.times && |merged.value.cells| == |previous.cells|
    ensures merged.Some? ==>
      forall t :: 0 <= t < |previous.cells| ==> merged.value.cells[t] == Merge(previous.cells[t], current.cells[t])
  {
    if previous.times != current.times {
      return None;
    }
    var cells: seq<Summary> := [];
    var t := 0;
    while t < |previous.cells|
      invariant 0 <= t <= |previous.cells| && |cells| == t
      invariant forall i :: 0 <= i < t ==> cells[i] == Merge(previous.cells[i], current.cells[i])
    {
      cells := cells + [Merge(previous.cells[t], current.cells[t])];
      t := t + 1;
    }
    return Some(Frame(previous.times, cells));
  }

  lemma MergedSummarizes(f: Frame, g: Frame, a: seq<Side>, b: seq<Side>, merged: Frame)
    requires Summarizes(f, a) && Summarizes(g, b) && GoodMarket(a + b)
    requires f.times == g.times == merged.times && |merged.cells| == |f.cells|
    requires forall t :: 0 <= t < |f.cells| ==> merged.cells[t] == Merge(f.cells[t], g.cells[t])
    ensures Summarizes(merged, a + b)
  {
    hide Grouped, Merge, GoodMarket, UniqueKeys, NonNegative;
    GridsJoin(a, b);
    forall t | 0 <= t < |merged.cells| ensures SummaryAt(merged, a + b, t) {
      assert SummaryAt(f, a, t) && SummaryAt(g, b, t);
      ColumnIsGood(a + b, t);
      assert Column(a + b, t) == Column(a, t) + Column(b, t);
      GroupedConcat(Column(a, t), Column(b, t));
    }
  }

  lemma GridsJoin(a: seq<Side>, b: seq<Side>)
    requires a != [] && b != []
    ensures SameGrid(a + b) <==> SameGrid(a) && SameGrid(b) && a[0].times == b[0].times
  {
    var all := a + b;
    if SameGrid(all) {
      forall i | 0 <= i < |a| ensures a[i].times == a[0].times {
        assert all[i] == a[i] && all[0] == a[0];
      }
      forall i | 0 <= i < |b| ensures b[i].times == b[0].times {
        assert all[|a| + i] == b[i] && all[|a|] == b[0];
      }
      assert all[|a|] == b[0];
    }
  }

  lemma FrameShape(f: Frame, sides: seq<Side>)
    requires Summarizes(f, sides)
    ensures sides != [] && SameGrid(sides) && f.times == sides[0].times && |f.cells| == |f.times|
  {
  }

  /** Merging a summary of more sides into what is held, or refusing a different grid. */
  method MergeSummary(held: Option<Frame>, current: Frame, ghost before: seq<Side>, ghost more: seq<Side>)
    returns (merged: Option<Frame>)
    requires GoodMarket(before + more) && Summarizes(current, more)
    requires if held.Some? then Summarizes(held.value, before) else before == []
    ensures merged.Some? <==> SameGrid(before + more)
    ensures merged.Some? ==> Summarizes(merged.value, before + more)
  {
    hide Summarizes, SameGrid, GoodMarket;
    FrameShape(current, more);
    if held.None? {
      assert before + more == more;
      return Some(current);
    }
    FrameShape(held.value, before);
    GridsJoin(before, more);
    merged := MergeFrames(held.value, current);
    if merged.Some? {
      MergedSummarizes(held.value, current, before, more, merged.value);
    }
  }

  /** One listing: its sides merged in turn; refused when their grids differ. */
  method SummarizeListing(sides: seq<Side>) returns (f: Option<Frame>)
    requires sides != [] && GoodMarket(sides)
    ensures f.Some? <==> SameGrid(sides)
    ensures f.Some? ==> Summarizes(f.value, sides)
  {
    hide Summarizes, SameGrid;
    f := None;
    var k := 0;
    while k < |sides|
      invariant 0 <= k <= |sides|
      invariant if k == 0 then f.None? else f.Some? && Summarizes(f.value, sides[..k])
    {
      var current := DirectColumns(sides[k]);
      assert sides[..k + 1] == sides[..k] + [sides[k]] && sides == sides[..k + 1] + sides[k + 1..];
      MarketParts(sides[..k + 1], sides[k + 1..]);
      f := MergeSummary(f, current, sides[..k], [sides[k]]);
      if f.None? {
        if SameGrid(sides) {
          GridOfPart(sides, k + 1);
        }
        return None;
      }
      k := k + 1;
    }
    assert sides[..k] == sides;
    FrameShape(f.value, sides);
  }

  lemma GridOfPart(sides: seq<Side>, k: nat)
    requires k <= |sides| && SameGrid(sides)
    ensures SameGrid(sides[..k])
  {
  }

  function Flatten(listings: seq<seq<Side>>): seq<Side> {
    if listings == [] then [] else Flatten(listings[..|listings| - 1]) + listings[|listings| - 1]
  }

  lemma {:induction false} FlattenConcat(a: seq<seq<Side>>, b: seq<seq<Side>>)
    ensures Flatten(a + b) == Flatten(a) + Flatten(b)
    decreases |b|
  {
    if b == [] {
      assert a + b == a;
    } else {
      assert (a + b)[..|a + b| - 1] == a + b[..|b| - 1] && (a + b)[|a + b| - 1] == b[|b| - 1];
      FlattenConcat(a, b[..|b| - 1]);
    }
  }

  /** The market reduction: listing after listing, the result is the whole market grouped at every time. */
  method Reduce(listings: seq<seq<Side>>) returns (f: Option<Frame>)
    requires listings != [] && GoodMarket(Flatten(listings))
    requires forall l :: 0 <= l < |listings| ==> listings[l] != []
    ensures f.Some? <==> SameGrid(Flatten(listings))
    ensures f.Some? ==> Summarizes(f.value, Flatten(listings))
  {
    hide Summarizes, SameGrid, GoodMarket;
    f := None;
    var l := 0;
    while l < |listings|
      invariant 0 <= l <= |listings|
      invariant if l == 0 then f.None? else f.Some? && Summarizes(f.value, Flatten(listings[..l]))
    {
      NextListing(listings, l);
      var one := SummarizeListing(listings[l]);
      if one.None? {
        return None;
      }
      f := MergeSummary(f, one.value, Flatten(listings[..l]), listings[l]);
      if f.None? {
        return None;
      }
      l := l + 1;
    }
    assert listings[..l] == listings;
    FrameShape(f.value, Flatten(listings));
  }

  lemma NextListing(listings: seq<seq<Side>>, l: nat)
    requires l < |listings| && GoodMarket(Flatten(listings)) && listings[l] != []
    ensures Flatten(listings[..l + 1]) == Flatten(listings[..l]) + listings[l]
    ensures GoodMarket(Flatten(listings[..l]) + listings[l]) && GoodMarket(listings[l])
    ensures l == 0 ==> Flatten(listings[..l]) == []
    ensures SameGrid(Flatten(listings)) ==> SameGrid(listings[l]) && SameGrid(Flatten(listings[..l]) + listings[l])
  {
    hide GoodMarket, SameGrid;
    var upTo, rest := listings[..l + 1], listings[l + 1..];
    assert listings == upTo + rest && upTo[..l] == listings[..l];
    FlattenConcat(upTo, rest);
    MarketParts(Flatten(upTo), Flatten(rest));
    MarketParts(Flatten(listings[..l]), listings[l]);
    if SameGrid(Flatten(listings)) {
      assert Flatten(upTo) == Flatten(listings)[..|Flatten(upTo)|];
      GridOfPart(Flatten(listings), |Flatten(upTo)|);
      GridOfTail(Flatten(listings[..l]), listings[l]);
    }
  }

  lemma GridOfTail(a: seq<Side>, b: seq<Side>)
    requires SameGrid(a + b) && b != []
    ensures SameGrid(b)
  {
    if a == [] {
      assert a + b == b;
    } else {
      GridsJoin(a, b);
    }
  }

  // ---------- The flat policy ----------

  datatype Policy = Unavailable | Wait | Enter(key: string, shares: real, value: real)

  /** Enters the best candidate with the largest opening price as budget, only when no candidate's value is missing. */
  function FlatPolicy(s: Summary): Policy
    requires s.best.Some? && s.best.value.score > 0.0 ==> s.best.value.capital != 0.0
  {
    if s.priced != s.valued then Unavailable
    else if s.best.Some? && s.best.value.score > 0.0 then
      Enter(s.best.value.key, s.maxNewPrice / s.best.value.capital, s.maxNewPrice * s.best.value.score)
    else Wait
  }

  lemma {:induction false} CountsMatch(rows: seq<Row>)
    requires forall i :: 0 <= i < |rows| && rows[i].valued ==> rows[i].canOpen
    ensures Valued(rows) <= Priced(rows)
    ensures Valued(rows) == Priced(rows) <==> forall i :: 0 <= i < |rows| && rows[i].canOpen ==> rows[i].valued
    decreases |rows|
  {
    if rows != [] {
      assert rows == rows[..|rows| - 1] + [rows[|rows| - 1]];
      CountsMatch(rows[..|rows| - 1]);
    }
  }

  /** The entry is this candidate, bought with the whole budget. */
  predicate Funded(rows: seq<Row>, i: nat, p: Policy)
    requires i < |rows| && p.Enter?
  {
    rows[i].key == p.key && p.shares * rows[i].capital == Grouped(rows).maxNewPrice
  }

  /** No candidate promises more on this budget. */
  predicate NoneBetter(rows: seq<Row>, budget: real, value: real) {
    forall i :: 0 <= i < |rows| && rows[i].score.Some? ==> budget * rows[i].score.value <= value
  }

  /** An entry is chosen only when every candidate that can open is valued, and no candidate of the whole market promises
      more on the same budget; waiting means none promises anything. */
  lemma PolicyIsBest(rows: seq<Row>)
    requires UniqueKeys(rows) && NonNegative(rows)
    requires forall i :: 0 <= i < |rows| && rows[i].valued ==> rows[i].canOpen
    requires forall i :: 0 <= i < |rows| && rows[i].score.Some? ==> rows[i].capital > 0.0
    requires BestOf(rows).Some? && BestOf(rows).value.score > 0.0 ==> BestOf(rows).value.capital != 0.0
    ensures FlatPolicy(Grouped(rows)).Unavailable? <==> exists i :: 0 <= i < |rows| && rows[i].canOpen && !rows[i].valued
    ensures FlatPolicy(Grouped(rows)).Enter? ==> exists i :: 0 <= i < |rows| && Funded(rows, i, FlatPolicy(Grouped(rows)))
    ensures FlatPolicy(Grouped(rows)).Enter? ==> NoneBetter(rows, Grouped(rows).maxNewPrice, FlatPolicy(Grouped(rows)).value)
    ensures FlatPolicy(Grouped(rows)).Wait? ==> forall i :: 0 <= i < |rows| && rows[i].score.Some? ==>
      rows[i].score.value <= 0.0
  {
    hide MaxOpen, BestOf, Priced, Valued, Carries, Beats, Funded, FlatPolicy, NoneBetter;
    CountsMatch(rows);
    BestOfIs(rows);
    var s := Grouped(rows);
    PolicyCases(s);
    if s.best.Some? {
      var b := s.best.value;
      var i :| 0 <= i < |rows| && Carries(rows[i], b);
      forall k | 0 <= k < |rows| && rows[k].score.Some? ensures rows[k].score.value <= b.score {
        assert !Beats(rows[k], b);
        NotBeaten(rows[k], b);
      }
      if FlatPolicy(s).Enter? {
        EntryIsFunded(rows, i, b);
        EntryIsBest(rows, b);
      }
    }
  }

  lemma PolicyCases(s: Summary)
    requires s.best.Some? && s.best.value.score > 0.0 ==> s.best.value.capital != 0.0
    ensures FlatPolicy(s).Unavailable? <==> s.priced != s.valued
    ensures FlatPolicy(s).Wait? <==> s.priced == s.valued && (s.best.None? || s.best.value.score <= 0.0)
  {
  }

  lemma NotBeaten(r: Row, b: Best)
    requires r.score.Some? && !Beats(r, b)
    ensures r.score.value <= b.score
  {
  }

  lemma EntryIsFunded(rows: seq<Row>, i: nat, b: Best)
    requires i < |rows| && Carries(rows[i], b) && b.capital != 0.0 && Grouped(rows).best == Some(b)
    requires FlatPolicy(Grouped(rows)).Enter?
    ensures Funded(rows, i, FlatPolicy(Grouped(rows)))
  {
    hide MaxOpen, BestOf, Priced, Valued;
    Refunds(Grouped(rows).maxNewPrice, b.capital);
  }

  lemma EntryIsBest(rows: seq<Row>, b: Best)
    requires NonNegative(rows) && Grouped(rows).best == Some(b) && (b.score > 0.0 ==> b.capital != 0.0)
    requires FlatPolicy(Grouped(rows)).Enter?
    requires forall k :: 0 <= k < |rows| && rows[k].score.Some? ==> rows[k].score.value <= b.score
    ensures NoneBetter(rows, Grouped(rows).maxNewPrice, FlatPolicy(Grouped(rows)).value)
  {
    MaxOpenNonNegative(rows);
    hide MaxOpen, BestOf, Priced, Valued;
    var budget := Grouped(rows).maxNewPrice;
    forall k | 0 <= k < |rows| && rows[k].score.Some? ensures budget * rows[k].score.value <= budget * b.score {
      Scales(budget, rows[k].score.value, b.score);
    }
  }

  lemma Scales(budget: real, x: real, y: real)
    requires budget >= 0.0 && x <= y
    ensures budget * x <= budget * y
  {
    assert budget * (y - x) >= 0.0;
  }

  lemma Refunds(budget: real, capital: real)
    requires capital != 0.0
    ensures budget / capital * capital == budget
  {
  }
}
