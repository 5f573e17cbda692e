/** The history a swing book must hold, day by day, and what its tables say when every write has landed. */
module SwingHistory {
  import opened Common
  import opened CheckpointWrites

  /** A level's state; `distances` are its other prices: reversal, thresholds, best departure. */
  datatype Level = Level(id: nat, price: real, lower: real, upper: real, distances: seq<real>, rest: nat)

  datatype Key = Key(validFrom: int, id: nat)

  datatype Content = Content(level: Level, validTo: Option<int>)

  type BookRow = Row<Key, Content>

  datatype Split = Split(at: int, ratio: real)

  datatype Bar = Bar(time: int, high: real, low: real, close: real)

  datatype Day = Day(session: nat, opening: int, closing: int, bars: seq<Bar>)

  /** A closing state: what one session hands to the next. */
  datatype Seed = Seed(closedAt: int, sequence: nat, levels: seq<Level>)

  datatype Closing = Closing(sequence: nat, levels: seq<Level>)

  /** The level engine is any deterministic function of the previous closing state, the session and the split factor. */
  datatype Plan = Plan(engine: (Option<Seed>, Day, real) -> Closing, splits: seq<Split>, days: seq<Day>)

  datatype Version = Version(at: int, levels: seq<Level>)

  predicate Ordered(levels: seq<Level>) {
    forall i, j :: 0 <= i < j < |levels| ==> levels[i].id < levels[j].id
  }

  ghost predicate EngineOrdered(plan: Plan) {
    forall seed, day, factor :: Ordered(plan.engine(seed, day, factor).levels)
  }

  ghost predicate ValidPlan(plan: Plan) {
    && EngineOrdered(plan)
    && (forall i :: 0 <= i < |plan.days| ==> plan.days[i].opening < plan.days[i].closing)
    && (forall i, j :: 0 <= i < j < |plan.days| ==>
          plan.days[i].closing < plan.days[j].opening && plan.days[i].session < plan.days[j].session)
    && Rising(plan.splits)
  }

  predicate Rising(splits: seq<Split>) {
    forall i, j :: 0 <= i < j < |splits| ==> splits[i].at < splits[j].at
  }

  // ---------- One session ----------

  function Scaled(l: Level, ratio: real): Level {
    l.(price := l.price * ratio, lower := l.lower * ratio, upper := l.upper * ratio,
       distances := seq(|l.distances|, i requires 0 <= i < |l.distances| => l.distances[i] * ratio))
  }

  function ScaledAll(levels: seq<Level>, ratio: real): (r: seq<Level>)
    ensures |r| == |levels| && forall i :: 0 <= i < |r| ==> r[i] == Scaled(levels[i], ratio)
  {
    seq(|levels|, i requires 0 <= i < |levels| => Scaled(levels[i], ratio))
  }

  /** Splits that take effect after the previous close and by this opening. */
  function Applicable(splits: seq<Split>, seed: Option<Seed>, day: Day): seq<Split> {
    if seed.None? || splits == [] then []
    else
      (if seed.value.closedAt < splits[0].at <= day.opening then [splits[0]] else []) + Applicable(splits[1..], seed, day)
  }

  function Factor(splits: seq<Split>): real {
    if splits == [] then 1.0 else Factor(splits[..|splits| - 1]) * splits[|splits| - 1].ratio
  }

  function Next(plan: Plan, seed: Option<Seed>, day: Day): Seed {
    var c := plan.engine(seed, day, Factor(Applicable(plan.splits, seed, day)));
    Seed(day.closing, c.sequence, c.levels)
  }

  /** The same levels restated at each split in turn. */
  function Restated(levels: seq<Level>, splits: seq<Split>): seq<Version>
    decreases |splits|
  {
    if splits == [] then []
    else
      var adjusted := ScaledAll(levels, splits[0].ratio);
      [Version(splits[0].at, adjusted)] + Restated(adjusted, splits[1..])
  }

  function LevelsOf(seed: Option<Seed>): seq<Level> {
    if seed.Some? then seed.value.levels else []
  }

  function DayVersions(plan: Plan, seed: Option<Seed>, day: Day): seq<Version> {
    Restated(LevelsOf(seed), Applicable(plan.splits, seed, day)) + [Version(day.closing, Next(plan, seed, day).levels)]
  }

  // ---------- All sessions ----------

  function SeedAfter(plan: Plan, n: nat): Option<Seed>
    requires n <= |plan.days|
  {
    if n == 0 then None else Some(Next(plan, SeedAfter(plan, n - 1), plan.days[n - 1]))
  }

  function VersionsAfter(plan: Plan, n: nat): seq<Version>
    requires n <= |plan.days|
  {
    if n == 0 then [] else VersionsAfter(plan, n - 1) + DayVersions(plan, SeedAfter(plan, n - 1), plan.days[n - 1])
  }

  function Versions(plan: Plan): seq<Version> {
    VersionsAfter(plan, |plan.days|)
  }

  predicate WellFormed(vs: seq<Version>) {
    && (forall i, j :: 0 <= i < j < |vs| ==> vs[i].at < vs[j].at)
    && (forall i :: 0 <= i < |vs| ==> Ordered(vs[i].levels))
  }

  predicate Spans(vs: seq<Version>, after: int, until: int) {
    WellFormed(vs) && forall i :: 0 <= i < |vs| ==> after < vs[i].at <= until
  }

  lemma SpansJoin(a: seq<Version>, b: seq<Version>, after: int, middle: int, until: int)
    requires Spans(a, after, middle) && Spans(b, middle, until) && after <= middle <= until
    ensures Spans(a + b, after, until)
  {
    var c := a + b;
    forall i, j | 0 <= i < j < |c| ensures c[i].at < c[j].at {
      if i < |a| <= j {
        assert c[i] == a[i] && c[j] == b[j - |a|];
      }
    }
  }

  predicate Between(splits: seq<Split>, after: int, until: int) {
    forall s :: s in splits ==> after < s.at <= until
  }

  lemma TailRises(splits: seq<Split>, after: int, until: int)
    requires splits != [] && Rising(splits) && Between(splits, after, until)
    ensures Rising(splits[1..]) && Between(splits[1..], splits[0].at, until) && after < splits[0].at <= until
  {
    var rest := splits[1..];
    forall s | s in rest ensures splits[0].at < s.at <= until {
      var i :| 0 <= i < |rest| && rest[i] == s;
      assert splits[i + 1] == s;
    }
  }

  lemma {:induction false} RestatedSpans(levels: seq<Level>, splits: seq<Split>, after: int, until: int)
    requires Ordered(levels) && Rising(splits) && Between(splits, after, until)
    ensures Spans(Restated(levels, splits), after, until)
    decreases |splits|
  {
    if splits != [] {
      var adjusted := ScaledAll(levels, splits[0].ratio);
      TailRises(splits, after, until);
      RestatedSpans(adjusted, splits[1..], splits[0].at, until);
      SpansJoin([Version(splits[0].at, adjusted)], Restated(adjusted, splits[1..]), after, splits[0].at, until);
    }
  }

  lemma HeadRises(head: Split, rest: seq<Split>)
    requires Rising(rest) && forall s :: s in rest ==> head.at < s.at
    ensures Rising([head] + rest)
  {
  }

  /** The applicable splits are those in force after the previous close and by the opening, in their order. */
  lemma {:induction false} ApplicableIs(splits: seq<Split>, seed: Option<Seed>, day: Day)
    requires Rising(splits)
    ensures var a := Applicable(splits, seed, day);
      Rising(a) && forall s :: s in a <==> s in splits && seed.Some? && seed.value.closedAt < s.at <= day.opening
    decreases |splits|
  {
    if seed.Some? && splits != [] {
      var head, tail := splits[0], splits[1..];
      var rest := Applicable(tail, seed, day);
      forall s | s in tail ensures head.at < s.at {
        var i :| 0 <= i < |tail| && tail[i] == s;
        assert splits[i + 1] == s;
      }
      ApplicableIs(tail, seed, day);
      HeadRises(head, rest);
      assert splits == [head] + tail;
    }
  }

  lemma DaySpans(plan: Plan, seed: Option<Seed>, day: Day, after: int)
    requires ValidPlan(plan) && day.opening < day.closing && after < day.closing
    requires seed.Some? ==> Ordered(seed.value.levels) && after == seed.value.closedAt < day.opening
    ensures Spans(DayVersions(plan, seed, day), after, day.closing)
  {
    hide Restated, Applicable, Factor, Rising;
    ApplicableIs(plan.splits, seed, day);
    var middle := if seed.Some? then day.opening else after;
    var splits := Applicable(plan.splits, seed, day);
    assert Between(splits, after, middle);
    RestatedSpans(LevelsOf(seed), splits, after, middle);
    assert Spans([Version(day.closing, Next(plan, seed, day).levels)], middle, day.closing);
    SpansJoin(Restated(LevelsOf(seed), splits), [Version(day.closing, Next(plan, seed, day).levels)],
              after, middle, day.closing);
  }

  lemma SeedIs(plan: Plan, n: nat)
    requires ValidPlan(plan) && 0 < n <= |plan.days|
    ensures var seed := SeedAfter(plan, n);
      seed.Some? && seed.value.closedAt == plan.days[n - 1].closing && Ordered(seed.value.levels)
  {
    hide Rising, Applicable, Ordered;
    var before, day := SeedAfter(plan, n - 1), plan.days[n - 1];
    assert Ordered(plan.engine(before, day, Factor(Applicable(plan.splits, before, day))).levels);
  }

  /** Versions follow one another in time up to the last close, and each lists its levels by id. */
  lemma {:induction false} HistorySpans(plan: Plan, n: nat, start: int)
    requires ValidPlan(plan) && n <= |plan.days| && (plan.days != [] ==> start < plan.days[0].closing)
    ensures n > 0 ==> Spans(VersionsAfter(plan, n), start, plan.days[n - 1].closing)
    ensures n > 0 ==> var vs := VersionsAfter(plan, n);
      vs != [] && vs[|vs| - 1] == Version(plan.days[n - 1].closing, SeedAfter(plan, n).value.levels)
    decreases n
  {
    hide Spans, EngineOrdered, Rising, Ordered, Restated, Applicable, Factor;
    if n > 0 {
      var day := plan.days[n - 1];
      if n == 1 {
        DaySpans(plan, None, day, start);
        assert VersionsAfter(plan, 1) == DayVersions(plan, None, day);
      } else {
        var middle := plan.days[n - 2].closing;
        assert middle < day.opening;
        HistorySpans(plan, n - 1, start);
        SpansAreAfter(VersionsAfter(plan, n - 1), start, middle);
        SeedIs(plan, n - 1);
        DaySpans(plan, SeedAfter(plan, n - 1), day, middle);
        SpansJoin(VersionsAfter(plan, n - 1), DayVersions(plan, SeedAfter(plan, n - 1), day), start, middle, day.closing);
      }
    }
  }

  lemma SpansAreAfter(vs: seq<Version>, after: int, until: int)
    requires vs != [] && Spans(vs, after, until)
    ensures after < until
  {
    assert after < vs[0].at <= until;
  }

  lemma HistoryWellFormed(plan: Plan, n: nat)
    requires ValidPlan(plan) && n <= |plan.days|
    ensures WellFormed(VersionsAfter(plan, n))
  {
    if n > 0 {
      HistorySpans(plan, n, plan.days[0].closing - 1);
    }
  }

  lemma PrefixGrows<T>(a: seq<T>, b: seq<T>, more: seq<T>)
    requires a <= b
    ensures a <= b + more
  {
  }

  lemma {:induction false} HistoryPrefix(plan: Plan, m: nat, n: nat)
    requires m <= n <= |plan.days|
    ensures VersionsAfter(plan, m) <= VersionsAfter(plan, n)
    decreases n
  {
    if m < n {
      HistoryPrefix(plan, m, n - 1);
      PrefixGrows(VersionsAfter(plan, m), VersionsAfter(plan, n - 1),
                  DayVersions(plan, SeedAfter(plan, n - 1), plan.days[n - 1]));
    }
  }

  // ---------- Rows ----------

  function OpenRow(at: int, l: Level): BookRow {
    Row(Key(at, l.id), 1, Content(l, None))
  }

  function ClosedRow(at: int, l: Level, until: int): BookRow {
    Row(Key(at, l.id), 2, Content(l, Some(until)))
  }

  /** A row some session writes: a level of one version, still open or closed where the next version starts. */
  predicate WrittenAt(vs: seq<Version>, r: BookRow, i: nat, j: nat) {
    && i < |vs| && j < |vs[i].levels|
    && (r == OpenRow(vs[i].at, vs[i].levels[j])
        || (i + 1 < |vs| && r == ClosedRow(vs[i].at, vs[i].levels[j], vs[i + 1].at)))
  }

  ghost predicate Written(vs: seq<Version>, r: BookRow) {
    exists i: nat, j: nat :: WrittenAt(vs, r, i, j)
  }

  /** The row a finished history holds for one level of one version. */
  function FinalRow(vs: seq<Version>, i: nat, j: nat): BookRow
    requires i < |vs| && j < |vs[i].levels|
  {
    if i + 1 < |vs| then ClosedRow(vs[i].at, vs[i].levels[j], vs[i + 1].at) else OpenRow(vs[i].at, vs[i].levels[j])
  }

  /** Nothing but rows of the history was ever stored. */
  ghost predicate OnlyWritten(vs: seq<Version>, store: seq<BookRow>) {
    forall i :: 0 <= i < |store| ==> Written(vs, store[i])
  }

  ghost predicate OnlyWrittenTable(vs: seq<Version>, table: map<Key, BookRow>) {
    forall k :: k in table ==> table[k].key == k && Written(vs, table[k])
  }

  /** A version's levels are stored, at least at a revision. */
  ghost predicate Holds(v: Version, table: map<Key, BookRow>, revision: nat) {
    forall j :: 0 <= j < |v.levels| ==>
      Key(v.at, v.levels[j].id) in table && table[Key(v.at, v.levels[j].id)].revision >= revision
  }

  /** The first m versions are stored, all but the last of them closed. */
  ghost predicate Covers(vs: seq<Version>, table: map<Key, BookRow>, m: nat)
    requires m <= |vs|
  {
    forall i :: 0 <= i < m ==> Holds(vs[i], table, if i + 1 < m then 2 else 1)
  }

  lemma {:induction false} StoredRows(vs: seq<Version>, store: seq<BookRow>)
    requires OnlyWritten(vs, store)
    ensures OnlyWrittenTable(vs, Puts(map[], store))
    decreases |store|
  {
    if store != [] {
      var n := |store| - 1;
      assert forall i :: 0 <= i < n ==> store[..n][i] == store[i];
      StoredRows(vs, store[..n]);
    }
  }

  /** Two history rows of one key and one revision are the same row. */
  lemma OneRowPerRevision(vs: seq<Version>, r: BookRow, s: BookRow)
    requires WellFormed(vs) && Written(vs, r) && Written(vs, s) && r.key == s.key && r.revision == s.revision
    ensures r == s
  {
    var i: nat, j: nat :| WrittenAt(vs, r, i, j);
    var k: nat, l: nat :| WrittenAt(vs, s, k, l);
    SameVersion(vs, i, j, k, l);
  }

  lemma Before(vs: seq<Version>, i: nat, j: nat)
    requires WellFormed(vs) && i < j < |vs|
    ensures vs[i].at < vs[j].at
  {
  }

  lemma SameLevel(levels: seq<Level>, i: nat, j: nat)
    requires Ordered(levels) && i < |levels| && j < |levels| && levels[i].id == levels[j].id
    ensures i == j
  {
  }

  lemma SameVersion(vs: seq<Version>, i: nat, j: nat, k: nat, l: nat)
    requires WellFormed(vs) && i < |vs| && k < |vs| && j < |vs[i].levels| && l < |vs[k].levels|
    requires vs[i].at == vs[k].at && vs[i].levels[j].id == vs[k].levels[l].id
    ensures i == k && j == l
  {
    assert Ordered(vs[i].levels);
    hide WellFormed, Ordered;
    if i < k {
      Before(vs, i, k);
    } else if k < i {
      Before(vs, k, i);
    } else {
      SameLevel(vs[i].levels, j, l);
    }
  }

  // ---------- The finished tables ----------

  predicate HasFinal(vs: seq<Version>, table: map<Key, BookRow>, i: nat, j: nat)
    requires i < |vs| && j < |vs[i].levels|
  {
    var r := FinalRow(vs, i, j);
    r.key in table && table[r.key] == r
  }

  predicate FinalAt(vs: seq<Version>, r: BookRow, i: nat, j: nat) {
    i < |vs| && j < |vs[i].levels| && r == FinalRow(vs, i, j)
  }

  ghost predicate Final(vs: seq<Version>, r: BookRow) {
    exists i: nat, j: nat :: FinalAt(vs, r, i, j)
  }

  /** Every level of every version has its final row, and there is no other row. */
  ghost predicate IsBook(vs: seq<Version>, table: map<Key, BookRow>) {
    && (forall i: nat, j: nat :: i < |vs| && j < |vs[i].levels| ==> HasFinal(vs, table, i, j))
    && (forall k :: k in table ==> table[k].key == k && Final(vs, table[k]))
  }

  lemma HeldRow(vs: seq<Version>, table: map<Key, BookRow>, i: nat, j: nat)
    requires OnlyWrittenTable(vs, table) && Covers(vs, table, |vs|) && i < |vs| && j < |vs[i].levels|
    ensures var k := Key(vs[i].at, vs[i].levels[j].id);
      && k in table && table[k].key == k && Written(vs, table[k])
      && table[k].revision >= if i + 1 < |vs| then 2 else 1
  {
    hide Written;
    assert Holds(vs[i], table, if i + 1 < |vs| then 2 else 1);
  }

  lemma FinalRowHeld(vs: seq<Version>, table: map<Key, BookRow>, i: nat, j: nat)
    requires WellFormed(vs) && OnlyWrittenTable(vs, table) && Covers(vs, table, |vs|)
    requires i < |vs| && j < |vs[i].levels|
    ensures HasFinal(vs, table, i, j)
  {
    hide WellFormed, Covers, OnlyWrittenTable;
    HeldRow(vs, table, i, j);
    var s := table[Key(vs[i].at, vs[i].levels[j].id)];
    var k: nat, l: nat :| WrittenAt(vs, s, k, l);
    SameVersion(vs, i, j, k, l);
  }

  /** Once all versions are covered the table is exactly the finished book, however the writes got there. */
  lemma CoveredIsBook(vs: seq<Version>, table: map<Key, BookRow>)
    requires WellFormed(vs) && OnlyWrittenTable(vs, table) && Covers(vs, table, |vs|)
    ensures IsBook(vs, table)
  {
    hide WellFormed, Covers, Holds, HasFinal;
    forall i: nat, j: nat | i < |vs| && j < |vs[i].levels| ensures HasFinal(vs, table, i, j) {
      FinalRowHeld(vs, table, i, j);
    }
    forall k | k in table ensures Final(vs, table[k]) {
      KeyIsFinal(vs, table, k);
    }
  }

  lemma KeyIsFinal(vs: seq<Version>, table: map<Key, BookRow>, k: Key)
    requires WellFormed(vs) && OnlyWrittenTable(vs, table) && Covers(vs, table, |vs|) && k in table
    ensures Final(vs, table[k])
  {
    hide WellFormed, Covers, Holds;
    assert Written(vs, table[k]) && table[k].key == k;
    hide OnlyWrittenTable;
    var i: nat, j: nat :| WrittenAt(vs, table[k], i, j);
    FinalRowHeld(vs, table, i, j);
    assert FinalRow(vs, i, j).key == k;
    assert FinalAt(vs, table[k], i, j);
  }

  /** Two finished books of one history are the same table. */
  lemma BookIsUnique(vs: seq<Version>, s: map<Key, BookRow>, t: map<Key, BookRow>)
    requires IsBook(vs, s) && IsBook(vs, t)
    ensures s == t
  {
    forall k | k in s ensures k in t && t[k] == s[k] {
      BookRowIn(vs, s, t, k);
    }
    forall k | k in t ensures k in s {
      BookRowIn(vs, t, s, k);
    }
  }

  lemma BookRowIn(vs: seq<Version>, s: map<Key, BookRow>, t: map<Key, BookRow>, k: Key)
    requires IsBook(vs, s) && IsBook(vs, t) && k in s
    ensures k in t && t[k] == s[k]
  {
    assert Final(vs, s[k]) && s[k].key == k;
    var i: nat, j: nat :| FinalAt(vs, s[k], i, j);
    assert HasFinal(vs, t, i, j);
  }

  predicate ValidAt(r: BookRow, t: int) {
    r.key.validFrom <= t && (r.content.validTo.Some? ==> t < r.content.validTo.value)
  }

  predicate Stored(table: map<Key, BookRow>, r: BookRow) {
    r.key in table && table[r.key] == r
  }

  /** A final row is valid exactly while its version is the latest. */
  lemma ValidWhileLatest(vs: seq<Version>, i: nat, k: nat, j: nat, t: int)
    requires WellFormed(vs) && i < |vs| && vs[i].at <= t && (i + 1 < |vs| ==> t < vs[i + 1].at)
    requires k < |vs| && j < |vs[k].levels|
    ensures ValidAt(FinalRow(vs, k, j), t) <==> k == i
  {
    hide WellFormed;
    if k + 1 < |vs| {
      Before(vs, k, k + 1);
    }
    if k + 1 < i {
      Before(vs, k + 1, i);
    }
    if i + 1 < k {
      Before(vs, i + 1, k);
    }
  }

  /** At any time from the first version on, the rows valid then are exactly the levels of the latest version. */
  lemma BookSays(vs: seq<Version>, table: map<Key, BookRow>, i: nat, t: int, r: BookRow)
    requires WellFormed(vs) && IsBook(vs, table)
    requires i < |vs| && vs[i].at <= t && (i + 1 < |vs| ==> t < vs[i + 1].at)
    ensures Stored(table, r) && ValidAt(r, t) <==> exists j: nat :: FinalAt(vs, r, i, j)
  {
    if Stored(table, r) && ValidAt(r, t) {
      assert Final(vs, table[r.key]);
      hide IsBook, ValidAt, WellFormed;
      var k: nat, j: nat :| FinalAt(vs, r, k, j);
      ValidWhileLatest(vs, i, k, j, t);
    }
    if j: nat :| FinalAt(vs, r, i, j) {
      assert HasFinal(vs, table, i, j);
      hide IsBook, ValidAt, WellFormed;
      ValidWhileLatest(vs, i, i, j, t);
    }
  }

  /** No level is described twice at any time, and no closed row covers an empty interval. */
  lemma NoOverlap(vs: seq<Version>, table: map<Key, BookRow>, k: Key, l: Key, t: int)
    requires WellFormed(vs) && IsBook(vs, table)
    requires k in table && l in table && k.id == l.id && k != l
    ensures !(ValidAt(table[k], t) && ValidAt(table[l], t))
    ensures table[k].content.validTo.Some? ==> table[k].key.validFrom < table[k].content.validTo.value
  {
    assert Final(vs, table[k]) && Final(vs, table[l]) && table[k].key == k && table[l].key == l;
    hide IsBook, WellFormed;
    var a: nat, b: nat :| FinalAt(vs, table[k], a, b);
    var c: nat, d: nat :| FinalAt(vs, table[l], c, d);
    if a + 1 < |vs| {
      Before(vs, a, a + 1);
    }
    if a + 1 < c {
      Before(vs, a + 1, c);
    }
    if c + 1 < a {
      Before(vs, c + 1, a);
    }
  }
}
