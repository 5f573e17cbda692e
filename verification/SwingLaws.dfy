/** What the finished swing book says in prices: the last closing levels, times the ratios of the splits since. */
module SwingLaws {
  import opened Common
  import opened CheckpointWrites
  import opened SwingHistory
  import opened SwingRun

  // ---------- The growth of prices over a span of time ----------

  /** The splits in force after one time and by another. */
  function Since(splits: seq<Split>, after: int, until: int): seq<Split> {
    if splits == [] then []
    else (if after < splits[0].at <= until then [splits[0]] else []) + Since(splits[1..], after, until)
  }

  function Product(splits: seq<Split>): real {
    if splits == [] then 1.0 else splits[0].ratio * Product(splits[1..])
  }

  function Growth(splits: seq<Split>, after: int, until: int): real {
    Product(Since(splits, after, until))
  }

  lemma {:induction false} ProductConcat(a: seq<Split>, b: seq<Split>)
    ensures Product(a + b) == Product(a) * Product(b)
  {
    if a == [] {
      assert a + b == b;
    } else {
      assert (a + b)[1..] == a[1..] + b;
      ProductConcat(a[1..], b);
    }
  }

  lemma {:induction false} SinceIs(splits: seq<Split>, after: int, until: int, s: Split)
    ensures s in Since(splits, after, until) <==> s in splits && after < s.at <= until
  {
    if splits != [] {
      SinceIs(splits[1..], after, until, s);
      assert s in splits <==> s == splits[0] || s in splits[1..];
    }
  }

  lemma {:induction false} SinceJoins(splits: seq<Split>, after: int, middle: int, until: int)
    requires Rising(splits) && after <= middle <= until
    ensures Since(splits, after, until) == Since(splits, after, middle) + Since(splits, middle, until)
    decreases |splits|
  {
    if splits != [] {
      var rest := splits[1..];
      SinceJoins(rest, after, middle, until);
      if splits[0].at > middle {
        NoneSince(rest, after, middle);
      }
    }
  }

  lemma {:induction false} NoneSince(splits: seq<Split>, after: int, until: int)
    requires forall s :: s in splits ==> !(after < s.at <= until)
    ensures Since(splits, after, until) == []
    decreases |splits|
  {
    if splits != [] {
      assert splits[0] in splits && forall s :: s in splits[1..] ==> s in splits;
      NoneSince(splits[1..], after, until);
    }
  }

  /** Growth is one over a span without a split, multiplies over adjoining spans, and is its ratio across one split: so it is
      the product of the ratios of the splits in the span. */
  lemma GrowthIs(splits: seq<Split>, after: int, middle: int, until: int, k: nat)
    requires Rising(splits) && after <= middle <= until && k < |splits|
    ensures (forall s :: s in splits ==> !(after < s.at <= until)) ==> Growth(splits, after, until) == 1.0
    ensures Growth(splits, after, until) == Growth(splits, after, middle) * Growth(splits, middle, until)
    ensures Growth(splits, splits[k].at - 1, splits[k].at) == splits[k].ratio
  {
    hide Since, Rising, Product;
    ProductOf(splits[k]);
    if forall s :: s in splits ==> !(after < s.at <= until) {
      NoneSince(splits, after, until);
    }
    SinceJoins(splits, after, middle, until);
    ProductConcat(Since(splits, after, middle), Since(splits, middle, until));
    OneSince(splits, k);
  }

  lemma ProductOf(s: Split)
    ensures Product([]) == 1.0 && Product([s]) == s.ratio
  {
    assert [s][1..] == [];
  }

  lemma {:induction false} OneSince(splits: seq<Split>, k: nat)
    requires Rising(splits) && k < |splits|
    ensures Since(splits, splits[k].at - 1, splits[k].at) == [splits[k]]
    decreases k
  {
    if k == 0 {
      NoneSince(splits[1..], splits[0].at - 1, splits[0].at);
    } else {
      assert splits[1..][k - 1] == splits[k] && splits[0].at < splits[k].at;
      OneSince(splits[1..], k - 1);
    }
  }

  lemma {:induction false} ApplicableIsSince(splits: seq<Split>, seed: Seed, day: Day)
    ensures Applicable(splits, Some(seed), day) == Since(splits, seed.closedAt, day.opening)
  {
    if splits != [] {
      ApplicableIsSince(splits[1..], seed, day);
    }
  }

  lemma {:induction false} FactorIsProduct(splits: seq<Split>)
    ensures Factor(splits) == Product(splits)
    decreases |splits|
  {
    if splits != [] {
      var n := |splits| - 1;
      FactorIsProduct(splits[..n]);
      ProductConcat(splits[..n], [splits[n]]);
      assert splits == splits[..n] + [splits[n]] && [splits[n]][1..] == [];
    }
  }

  // ---------- Closing states ----------

  /** A session closes in what the engine makes of the previous closing state, the session, and the growth of prices from that
      close to this opening; the first session starts from nothing, at one. */
  lemma ClosingStateIs(plan: Plan, d: nat)
    requires ValidPlan(plan) && d < |plan.days|
    ensures var before, after := SeedAfter(plan, d), SeedAfter(plan, d + 1);
      && (before.None? <==> d == 0) && after.Some?
      && var growth := if d == 0 then 1.0 else Growth(plan.splits, plan.days[d - 1].closing, plan.days[d].opening);
        var made := plan.engine(before, plan.days[d], growth);
        after.value == Seed(plan.days[d].closing, made.sequence, made.levels)
  {
    if d > 0 {
      ApplicableIsSince(plan.splits, SeedAfter(plan, d).value, plan.days[d]);
    }
    FactorIsProduct(Applicable(plan.splits, SeedAfter(plan, d), plan.days[d]));
  }

  // ---------- What a row says ----------

  /** A level in prices that have grown: its prices multiplied, everything else as it was. */
  predicate IsGrown(l: Level, g: Level, growth: real) {
    && g.id == l.id && g.rest == l.rest
    && g.price == l.price * growth && g.lower == l.lower * growth && g.upper == l.upper * growth
    && |g.distances| == |l.distances|
    && forall i :: 0 <= i < |l.distances| ==> g.distances[i] == l.distances[i] * growth
  }

  predicate AllGrown(levels: seq<Level>, grown: seq<Level>, growth: real) {
    |grown| == |levels| && forall j :: 0 <= j < |levels| ==> IsGrown(levels[j], grown[j], growth)
  }

  lemma GrownAgain(levels: seq<Level>, grown: seq<Level>, growth: real, ratio: real)
    requires AllGrown(levels, grown, growth)
    ensures AllGrown(levels, ScaledAll(grown, ratio), growth * ratio)
  {
    forall j | 0 <= j < |levels| ensures IsGrown(levels[j], ScaledAll(grown, ratio)[j], growth * ratio) {
      ScaledIsGrown(levels[j], grown[j], growth, ratio);
    }
  }

  lemma ScaledIsGrown(l: Level, g: Level, growth: real, ratio: real)
    requires IsGrown(l, g, growth)
    ensures IsGrown(l, Scaled(g, ratio), growth * ratio)
  {
    forall i | 0 <= i < |l.distances| ensures Scaled(g, ratio).distances[i] == l.distances[i] * (growth * ratio) {
      assert l.distances[i] * growth * ratio == l.distances[i] * (growth * ratio);
    }
  }

  lemma NotGrown(levels: seq<Level>)
    ensures AllGrown(levels, levels, 1.0)
  {
  }

  /** The version k splits after a close is the closing state grown by those k ratios, in force from the k-th split on. */
  lemma {:induction false} VersionIsGrown(plan: Plan, d: nat, k: nat)
    requires ValidPlan(plan) && d + 1 < |plan.days|
    requires k <= |Since(plan.splits, plan.days[d].closing, plan.days[d + 1].opening)|
    ensures var splits, m := Since(plan.splits, plan.days[d].closing, plan.days[d + 1].opening), |VersionsAfter(plan, d + 1)|;
      && 0 < m && m - 1 + k < |Versions(plan)| && SeedAfter(plan, d + 1).Some?
      && AllGrown(SeedAfter(plan, d + 1).value.levels, Versions(plan)[m - 1 + k].levels, Product(splits[..k]))
      && Versions(plan)[m - 1 + k].at == if k == 0 then plan.days[d].closing else splits[k - 1].at
    decreases k
  {
    hide VersionsAfter, Versions, Since, SeedAfter, Applicable, ValidPlan, Product;
    ApplicableNext(plan, d);
    var splits := Since(plan.splits, plan.days[d].closing, plan.days[d + 1].opening);
    var closing, m := SeedAfter(plan, d + 1).value.levels, |VersionsAfter(plan, d + 1)|;
    LastVersion(plan, d + 1);
    if k == 0 {
      NotGrown(closing);
      assert splits[..0] == [];
      NoProduct();
    } else {
      VersionIsGrown(plan, d, k - 1);
      SplitVersion(plan, d + 1, k - 1);
      GrownAgain(closing, Versions(plan)[m + k - 2].levels, Product(splits[..k - 1]), splits[k - 1].ratio);
      ProductSnoc(splits, k);
      assert Versions(plan)[m - 1 + k] == Version(splits[k - 1].at, ScaledAll(Versions(plan)[m + k - 2].levels, splits[k - 1].ratio));
    }
  }

  lemma NoProduct()
    ensures Product([]) == 1.0
  {
  }

  /** The splits a session applies are those since the close before it. */
  lemma ApplicableNext(plan: Plan, d: nat)
    requires ValidPlan(plan) && d + 1 < |plan.days|
    ensures SeedAfter(plan, d + 1).Some?
    ensures Applicable(plan.splits, SeedAfter(plan, d + 1), plan.days[d + 1])
         == Since(plan.splits, plan.days[d].closing, plan.days[d + 1].opening)
  {
    ClosingStateIs(plan, d);
    ApplicableIsSince(plan.splits, SeedAfter(plan, d + 1).value, plan.days[d + 1]);
  }

  lemma ProductSnoc(splits: seq<Split>, k: nat)
    requires 0 < k <= |splits|
    ensures Product(splits[..k]) == Product(splits[..k - 1]) * splits[k - 1].ratio
  {
    assert splits[..k] == splits[..k - 1] + [splits[k - 1]];
    ProductConcat(splits[..k - 1], [splits[k - 1]]);
    assert [splits[k - 1]][1..] == [];
  }

  /** The splits by an earlier time come first among those by a later one. */
  lemma FirstOnes(splits: seq<Split>, after: int, middle: int, until: int)
    requires Rising(splits) && after <= middle <= until
    ensures var all, k := Since(splits, after, until), |Since(splits, after, middle)|;
      && k <= |all| && all[..k] == Since(splits, after, middle)
      && (k > 0 ==> all[k - 1].at <= middle) && (k < |all| ==> middle < all[k].at <= until)
  {
    SinceJoins(splits, after, middle, until);
    var early, late := Since(splits, after, middle), Since(splits, middle, until);
    if early != [] {
      SinceIs(splits, after, middle, early[|early| - 1]);
    }
    if late != [] {
      SinceIs(splits, middle, until, late[0]);
    }
  }

  function Earlier(x: int, y: int): int {
    if x <= y then x else y
  }

  /** How far into the time after a close splits count: to the time itself, but no further than the next opening. */
  function InForce(plan: Plan, d: nat, t: int): int
    requires d < |plan.days|
  {
    if d + 1 < |plan.days| then Earlier(t, plan.days[d + 1].opening) else plan.days[d].closing
  }

  predicate Between(plan: Plan, d: nat, t: int) {
    d < |plan.days| && plan.days[d].closing <= t && (d + 1 < |plan.days| ==> t < plan.days[d + 1].closing)
  }

  /** The version of the history in force between two closes. */
  lemma VersionInForce(plan: Plan, d: nat, t: int) returns (i: nat)
    requires ValidPlan(plan) && Between(plan, d, t)
    ensures i < |Versions(plan)| && Versions(plan)[i].at <= t && (i + 1 < |Versions(plan)| ==> t < Versions(plan)[i + 1].at)
    ensures SeedAfter(plan, d + 1).Some?
    ensures AllGrown(SeedAfter(plan, d + 1).value.levels, Versions(plan)[i].levels,
                     Growth(plan.splits, plan.days[d].closing, InForce(plan, d, t)))
  {
    hide VersionsAfter, Versions, Since, SeedAfter, AllGrown;
    var closing := plan.days[d].closing;
    LastVersion(plan, d + 1);
    if d + 1 == |plan.days| {
      i := |VersionsAfter(plan, d + 1)| - 1;
      NotGrown(SeedAfter(plan, d + 1).value.levels);
      NoneSince(plan.splits, closing, closing);
      assert |Versions(plan)| == |VersionsAfter(plan, d + 1)| by {
        AllVersions(plan);
      }
    } else {
      var opening := plan.days[d + 1].opening;
      var middle := Earlier(t, opening);
      var splits := Since(plan.splits, closing, opening);
      assert closing < opening;
      FirstOnes(plan.splits, closing, middle, opening);
      var k := |Since(plan.splits, closing, middle)|;
      VersionIsGrown(plan, d, k);
      i := |VersionsAfter(plan, d + 1)| - 1 + k;
      if k < |splits| {
        VersionIsGrown(plan, d, k + 1);
      } else {
        NextClosing(plan, d);
      }
    }
  }

  lemma AllVersions(plan: Plan)
    ensures Versions(plan) == VersionsAfter(plan, |plan.days|)
  {
  }

  /** After its splits a session adds its closing version. */
  lemma NextClosing(plan: Plan, d: nat)
    requires ValidPlan(plan) && d + 1 < |plan.days|
    ensures var splits := Since(plan.splits, plan.days[d].closing, plan.days[d + 1].opening);
      var m := |VersionsAfter(plan, d + 1)| + |splits|;
      m < |Versions(plan)| && Versions(plan)[m].at == plan.days[d + 1].closing
  {
    hide VersionsAfter, Versions, Since, SeedAfter, Applicable;
    ApplicableNext(plan, d);
    ClosingIsNext(plan, d + 1, Next(plan, SeedAfter(plan, d + 1), plan.days[d + 1]));
  }

  // ---------- The finished book ----------

  predicate Tells(table: map<Key, BookRow>, r: BookRow, t: int, l: Level, growth: real) {
    Stored(table, r) && ValidAt(r, t) && r.key.id == l.id && IsGrown(l, r.content.level, growth)
  }

  /** Every row valid at a time tells of a level, and every level is told of. */
  ghost predicate Told(table: map<Key, BookRow>, closing: seq<Level>, growth: real, t: int) {
    && (forall r :: Stored(table, r) && ValidAt(r, t) ==> TellsOfSome(table, r, t, closing, growth))
    && (forall j :: 0 <= j < |closing| ==> ToldOf(table, t, closing[j], growth))
  }

  predicate TellsOfSome(table: map<Key, BookRow>, r: BookRow, t: int, closing: seq<Level>, growth: real) {
    exists j :: 0 <= j < |closing| && Tells(table, r, t, closing[j], growth)
  }

  ghost predicate ToldOf(table: map<Key, BookRow>, t: int, l: Level, growth: real) {
    exists r :: Tells(table, r, t, l, growth)
  }

  /** Main result for a finished book: at any time between two closes every valid row is a level of the last closing state
      with its prices multiplied by the ratios of the splits since, and every level of it has such a row. */
  lemma BookSaysInPrices(plan: Plan, book: seq<BookRow>, marks: map<nat, MarkRow>, d: nat, t: int)
    requires Saved(plan, book, marks, |plan.days|) && Between(plan, d, t)
    ensures SeedAfter(plan, d + 1).Some?
    ensures Told(Puts(map[], book), SeedAfter(plan, d + 1).value.levels,
                 Growth(plan.splits, plan.days[d].closing, InForce(plan, d, t)), t)
  {
    hide Puts, Versions, SeedAfter, Growth, IsBook, WellFormed, AllGrown, InForce;
    var i := VersionInForce(plan, d, t);
    FinishedBuild(plan, book, marks);
    AllTold(Versions(plan), Puts(map[], book), SeedAfter(plan, d + 1).value.levels,
            Growth(plan.splits, plan.days[d].closing, InForce(plan, d, t)), i, t);
  }

  lemma AllTold(vs: seq<Version>, table: map<Key, BookRow>, closing: seq<Level>, growth: real, i: nat, t: int)
    requires WellFormed(vs) && IsBook(vs, table) && i < |vs| && vs[i].at <= t && (i + 1 < |vs| ==> t < vs[i + 1].at)
    requires AllGrown(closing, vs[i].levels, growth)
    ensures Told(table, closing, growth, t)
  {
    hide IsBook, WellFormed, AllGrown;
    forall r | Stored(table, r) && ValidAt(r, t)
      ensures TellsOfSome(table, r, t, closing, growth)
    {
      RowTells(vs, table, closing, growth, i, t, r);
    }
    forall j | 0 <= j < |closing| ensures ToldOf(table, t, closing[j], growth) {
      LevelTold(vs, table, closing, growth, i, t, j);
    }
  }

  lemma RowTells(vs: seq<Version>, table: map<Key, BookRow>, closing: seq<Level>, growth: real, i: nat, t: int, r: BookRow)
    requires WellFormed(vs) && IsBook(vs, table) && i < |vs| && vs[i].at <= t && (i + 1 < |vs| ==> t < vs[i + 1].at)
    requires AllGrown(closing, vs[i].levels, growth) && Stored(table, r) && ValidAt(r, t)
    ensures TellsOfSome(table, r, t, closing, growth)
  {
    hide WellFormed, IsBook, ValidAt;
    BookSays(vs, table, i, t, r);
    var j: nat :| FinalAt(vs, r, i, j);
    assert IsGrown(closing[j], vs[i].levels[j], growth);
    assert Tells(table, r, t, closing[j], growth);
  }

  lemma LevelTold(vs: seq<Version>, table: map<Key, BookRow>, closing: seq<Level>, growth: real, i: nat, t: int, j: nat)
    requires WellFormed(vs) && IsBook(vs, table) && i < |vs| && vs[i].at <= t && (i + 1 < |vs| ==> t < vs[i + 1].at)
    requires AllGrown(closing, vs[i].levels, growth) && j < |closing|
    ensures ToldOf(table, t, closing[j], growth)
  {
    hide WellFormed, IsBook, ValidAt;
    var r := FinalRow(vs, i, j);
    assert FinalAt(vs, r, i, j);
    BookSays(vs, table, i, t, r);
    assert IsGrown(closing[j], vs[i].levels[j], growth);
    assert Tells(table, r, t, closing[j], growth);
  }

  /** Before the first close nothing is valid. */
  lemma NothingBefore(plan: Plan, book: seq<BookRow>, marks: map<nat, MarkRow>, t: int, r: BookRow)
    requires Saved(plan, book, marks, |plan.days|) && Stored(Puts(map[], book), r)
    requires plan.days != [] ==> t < plan.days[0].closing
    ensures !ValidAt(r, t)
  {
    FinishedBuild(plan, book, marks);
    HistorySpans(plan, |plan.days|, if plan.days == [] then t else plan.days[0].closing - 1);
    assert Final(Versions(plan), Puts(map[], book)[r.key]);
    var i: nat, j: nat :| FinalAt(Versions(plan), r, i, j);
  }

  /** A marker records the close of the last bar of regular trading hours, which end four hours before the session closes and
      last six and a half; zero when there is none. */
  lemma {:induction false} PriorCloseIs(day: Day, n: nat)
    requires n <= |day.bars|
    ensures (exists k :: 0 <= k < n && Regular(day, day.bars[k])) ==>
      exists k :: 0 <= k < n && Regular(day, day.bars[k]) && PriorClose(day, n) == day.bars[k].close
                  && forall j :: k < j < n ==> !Regular(day, day.bars[j])
    ensures (forall k :: 0 <= k < n ==> !Regular(day, day.bars[k])) ==> PriorClose(day, n) == 0.0
    decreases n
  {
    if n > 0 {
      PriorCloseIs(day, n - 1);
    }
  }

  /** Within six and a half hours before the regular close, the opening instant excluded. Times are in microseconds. */
  predicate Regular(day: Day, bar: Bar) {
    var close := day.closing - 14_400_000_000;
    close - 23_400_000_000 < bar.time && bar.time <= close
  }

  predicate IsLastRegular(day: Day, k: nat) {
    k < |day.bars| && Regular(day, day.bars[k]) && forall j :: k < j < |day.bars| ==> !Regular(day, day.bars[j])
  }

  /** The marker of a committed session says when it closed, what the engine made of it, and the last regular close. */
  lemma MarkTells(plan: Plan, book: seq<BookRow>, marks: map<nat, MarkRow>, n: nat, d: nat)
    requires Saved(plan, book, marks, n) && d < n <= |plan.days|
    ensures var day := plan.days[d];
      var growth := if d == 0 then 1.0 else Growth(plan.splits, plan.days[d - 1].closing, day.opening);
      var made := plan.engine(SeedAfter(plan, d), day, growth);
      && day.session in marks
      && var mark := marks[day.session].content;
        && mark.closedAt == day.closing && mark.sequence == made.sequence
        && mark.stateHash == Seed(day.closing, made.sequence, made.levels)
        && (forall k: nat :: IsLastRegular(day, k) ==> mark.close == day.bars[k].close)
        && ((forall k :: 0 <= k < |day.bars| ==> !Regular(day, day.bars[k])) ==> mark.close == 0.0)
  {
    hide Growth, SeedAfter, PriorClose;
    assert MarkedAt(plan, marks, d);
    ClosingStateIs(plan, d);
    PriorCloseIs(plan.days[d], |plan.days[d].bars|);
  }
}
