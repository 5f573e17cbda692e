/** Run-wise elimination of observations, and when it is exact. */
module Compression {
  import opened Lifecycle

  // ---------- The eliminator ----------

  function Bit(p: bool, weight: nat): nat {
    if p then weight else 0
  }

  /** The six branch predicates packed into one number, as the grouping key. */
  function Code(b: Band, e: Event): nat {
    Bit(e.price < b.lower, 1) + Bit(e.price > b.upper, 2)
    + Bit(e.price < b.lower - b.tick, 4) + Bit(e.price > b.upper + b.tick, 8)
    + Bit(e.price < b.lower - Margin(b, e), 16) + Bit(e.price > b.upper + Margin(b, e), 32)
  }

  predicate OneRun(b: Band, g: seq<Event>) {
    forall i :: 0 <= i < |g| ==> Code(b, g[i]) == Code(b, g[0])
  }

  /** Length of the longest prefix with a constant code. */
  function RunLength(b: Band, events: seq<Event>): (n: nat)
    requires events != []
    ensures 1 <= n <= |events|
    ensures OneRun(b, events[..n])
    ensures n < |events| ==> Code(b, events[n]) != Code(b, events[n - 1])
  {
    if |events| == 1 || Code(b, events[1]) != Code(b, events[0]) then 1
    else
      var m := RunLength(b, events[1..]);
      assert events[..m + 1] == [events[0]] + events[1..][..m];
      m + 1
  }

  /** First index holding the greatest price. */
  function FirstMax(g: seq<Event>): (k: nat)
    requires g != []
    ensures k < |g|
    ensures forall i :: 0 <= i < |g| ==> g[i].price <= g[k].price
    ensures forall i :: 0 <= i < k ==> g[i].price < g[k].price
  {
    if |g| == 1 then 0
    else
      var k := FirstMax(g[1..]);
      if g[0].price >= g[1..][k].price then 0 else k + 1
  }

  /** First index holding the least price. */
  function FirstMin(g: seq<Event>): (k: nat)
    requires g != []
    ensures k < |g|
    ensures forall i :: 0 <= i < |g| ==> g[k].price <= g[i].price
    ensures forall i :: 0 <= i < k ==> g[k].price < g[i].price
  {
    if |g| == 1 then 0
    else
      var k := FirstMin(g[1..]);
      if g[0].price <= g[1..][k].price then 0 else k + 1
  }

  predicate Kept(g: seq<Event>, i: nat)
    requires i < |g|
  {
    i < 3 || i == |g| - 1 || i == FirstMin(g) || i == FirstMax(g)
  }

  /** The kept observations from index i on, in order. */
  function KeptFrom(g: seq<Event>, i: nat): seq<Event>
    requires i <= |g|
    decreases |g| - i
  {
    if i == |g| then []
    else (if Kept(g, i) then [g[i]] else []) + KeptFrom(g, i + 1)
  }

  function Keep(g: seq<Event>): seq<Event> {
    KeptFrom(g, 0)
  }

  function Compress(b: Band, events: seq<Event>): seq<Event>
    decreases |events|
  {
    if events == [] then []
    else
      var n := RunLength(b, events);
      Keep(events[..n]) + Compress(b, events[n..])
  }

  // ---------- Structure of the kept observations ----------

  lemma CodeFixesFlags(b: Band, x: Event, y: Event)
    requires Code(b, x) == Code(b, y)
    ensures Contact(b, x) == Contact(b, y)
    ensures forall role :: Beyond(b, role, x) == Beyond(b, role, y)
    ensures forall role :: Flips(b, role, x) == Flips(b, role, y)
    ensures forall role :: Rejects(b, role, x) == Rejects(b, role, y)
    ensures forall role :: Favorable(b, role, x) == Favorable(b, role, y)
  {
    assert (x.price < b.lower) == (y.price < b.lower);
    assert (x.price > b.upper) == (y.price > b.upper);
  }

  /** Observations are grouped exactly while all six comparisons answer alike. */
  lemma CodeIff(b: Band, x: Event, y: Event)
    ensures Code(b, x) == Code(b, y) <==>
      && (x.price < b.lower <==> y.price < b.lower) && (x.price > b.upper <==> y.price > b.upper)
      && (x.price + b.tick < b.lower <==> y.price + b.tick < b.lower)
      && (x.price - b.tick > b.upper <==> y.price - b.tick > b.upper)
      && (x.price + b.tick < b.lower && x.price + x.range / 4.0 < b.lower
          <==> y.price + b.tick < b.lower && y.price + y.range / 4.0 < b.lower)
      && (x.price - b.tick > b.upper && x.price - x.range / 4.0 > b.upper
          <==> y.price - b.tick > b.upper && y.price - y.range / 4.0 > b.upper)
  {
  }

  /** No price before it is as low, and none after it lower. */
  predicate IsFirstLow(g: seq<Event>, k: nat) {
    && k < |g| && (forall j :: 0 <= j < k ==> g[j].price > g[k].price)
    && forall j :: k < j < |g| ==> g[j].price >= g[k].price
  }

  predicate IsFirstHigh(g: seq<Event>, k: nat) {
    && k < |g| && (forall j :: 0 <= j < k ==> g[j].price < g[k].price)
    && forall j :: k < j < |g| ==> g[j].price <= g[k].price
  }

  predicate Increases(at: seq<nat>) {
    forall i, j :: 0 <= i < j < |at| ==> at[i] < at[j]
  }

  ghost predicate JustKept(g: seq<Event>, i: nat, at: seq<nat>) {
    forall k: nat :: k in at <==> i <= k < |g| && Kept(g, k)
  }

  /** From a position on, just these positions are kept. */
  ghost predicate KeptAt(g: seq<Event>, i: nat, at: seq<nat>)
    requires i <= |g|
  {
    && |KeptFrom(g, i)| == |at| && Increases(at)
    && (forall j :: 0 <= j < |at| ==> i <= at[j] < |g| && KeptFrom(g, i)[j] == g[at[j]])
    && JustKept(g, i, at)
  }

  lemma KeptFromStep(g: seq<Event>, i: nat)
    requires i < |g|
    ensures KeptFrom(g, i) == (if Kept(g, i) then [g[i]] else []) + KeptFrom(g, i + 1)
  {
    hide Kept;
  }

  lemma Prepended(later: seq<nat>, i: nat)
    requires Increases(later) && forall j :: 0 <= j < |later| ==> i < later[j]
    ensures Increases([i] + later) && forall k: nat :: k in [i] + later <==> k == i || k in later
  {
    var at := [i] + later;
    forall j, k | 0 <= j < k < |at| ensures at[j] < at[k] {
      assert at[k] == later[k - 1] && (j > 0 ==> at[j] == later[j - 1]);
    }
  }

  lemma KeptPicks(g: seq<Event>, i: nat, later: seq<nat>)
    requires i < |g| && KeptAt(g, i + 1, later) && Kept(g, i)
    ensures var at := [i] + later;
      |KeptFrom(g, i)| == |at| && forall j :: 0 <= j < |at| ==> i <= at[j] < |g| && KeptFrom(g, i)[j] == g[at[j]]
  {
    hide Kept, KeptFrom, Increases;
    KeptFromStep(g, i);
    var at, rest := [i] + later, KeptFrom(g, i + 1);
    forall j | 0 <= j < |at| ensures i <= at[j] < |g| && KeptFrom(g, i)[j] == g[at[j]] {
      if j > 0 {
        assert at[j] == later[j - 1] && KeptFrom(g, i)[j] == rest[j - 1];
      }
    }
  }

  lemma JustKeptStep(g: seq<Event>, i: nat, later: seq<nat>, at: seq<nat>)
    requires i < |g| && JustKept(g, i + 1, later)
    requires forall k: nat :: k in at <==> (Kept(g, i) && k == i) || k in later
    ensures JustKept(g, i, at)
  {
    hide Kept;
    forall k: nat ensures k in at <==> i <= k < |g| && Kept(g, k) {
      assert k in later <==> i + 1 <= k < |g| && Kept(g, k);
    }
  }

  lemma KeptAtStep(g: seq<Event>, i: nat, later: seq<nat>)
    requires i < |g| && KeptAt(g, i + 1, later)
    ensures KeptAt(g, i, if Kept(g, i) then [i] + later else later)
  {
    hide Kept, KeptFrom, Increases, JustKept;
    KeptFromStep(g, i);
    if Kept(g, i) {
      KeptPicks(g, i, later);
      Prepended(later, i);
      JustKeptStep(g, i, later, [i] + later);
    } else {
      JustKeptStep(g, i, later, later);
    }
  }

  lemma {:induction false} KeptFromAre(g: seq<Event>, i: nat) returns (at: seq<nat>)
    requires i <= |g|
    ensures KeptAt(g, i, at)
    decreases |g| - i
  {
    hide Kept;
    at := [];
    if i < |g| {
      var later := KeptFromAre(g, i + 1);
      KeptAtStep(g, i, later);
      at := if Kept(g, i) then [i] + later else later;
    }
  }

  /** Of a run the first three observations, the last, the first lowest and the first highest are kept, in their order, and
      nothing else: at most six. */
  lemma KeptAre(g: seq<Event>) returns (at: seq<nat>)
    requires g != []
    ensures |Keep(g)| == |at| <= 6 && Increases(at)
    ensures forall j :: 0 <= j < |at| ==> at[j] < |g| && Keep(g)[j] == g[at[j]]
    ensures forall k: nat :: k in at <==> k < |g| && (k < 3 || k == |g| - 1 || IsFirstLow(g, k) || IsFirstHigh(g, k))
  {
    at := KeptFromAre(g, 0);
    forall k: nat | k < |g| ensures Kept(g, k) <==> k < 3 || k == |g| - 1 || IsFirstLow(g, k) || IsFirstHigh(g, k) {
      LowAndHigh(g, k);
    }
    AtMostSix(at, |g| - 1, FirstMin(g), FirstMax(g));
  }

  lemma LowAndHigh(g: seq<Event>, k: nat)
    requires k < |g|
    ensures IsFirstLow(g, k) <==> k == FirstMin(g)
    ensures IsFirstHigh(g, k) <==> k == FirstMax(g)
  {
    hide FirstMin, FirstMax;
    var low, high := FirstMin(g), FirstMax(g);
    assert g[low].price <= g[k].price <= g[high].price;
  }

  lemma AtMostSix(at: seq<nat>, a: nat, b: nat, c: nat)
    requires Increases(at) && forall k :: k in at ==> k < 3 || k == a || k == b || k == c
    ensures |at| <= 6
  {
    var six := {0, 1, 2, a, b, c};
    forall i | 0 <= i < |at| ensures at[i] in six {
      assert at[i] in at;
    }
    DistinctFit(at, six);
  }

  lemma {:induction false} DistinctFit(at: seq<nat>, s: set<nat>)
    requires Increases(at) && forall i :: 0 <= i < |at| ==> at[i] in s
    ensures |at| <= |s|
    decreases |at|
  {
    if at != [] {
      var n := |at| - 1;
      DistinctFit(at[..n], s - {at[n]});
    }
  }

  lemma {:induction false} KeptFromMembers(g: seq<Event>, i: nat)
    requires i <= |g|
    ensures forall e :: e in KeptFrom(g, i) ==> e in g[i..]
    ensures forall j :: i <= j < |g| && Kept(g, j) ==> g[j] in KeptFrom(g, i)
    decreases |g| - i
  {
    if i < |g| {
      KeptFromMembers(g, i + 1);
      assert g[i..] == [g[i]] + g[i + 1..];
    }
  }

  /** The first three observations always lead the kept ones. */
  lemma {:induction false} KeepPrefix(g: seq<Event>, i: nat)
    requires i <= 3 && i <= |g|
    ensures Keep(g) == g[..i] + KeptFrom(g, i)
  {
    if i > 0 {
      KeepPrefix(g, i - 1);
      assert KeptFrom(g, i - 1) == [g[i - 1]] + KeptFrom(g, i);
      assert g[..i] == g[..i - 1] + [g[i - 1]];
    }
  }

  lemma KeepShort(g: seq<Event>)
    requires |g| <= 3
    ensures Keep(g) == g
  {
    KeepPrefix(g, |g|);
  }

  lemma KeepLong(g: seq<Event>)
    requires |g| > 3
    ensures Keep(g) == g[..3] + KeptFrom(g, 3)
    ensures KeptFrom(g, 3) != []
    ensures forall e :: e in KeptFrom(g, 3) ==> e in g[3..] && e in g
  {
    KeepPrefix(g, 3);
    KeptFromMembers(g, 3);
    assert Kept(g, |g| - 1);
    forall e | e in g[3..] ensures e in g {
    }
  }

  // ---------- Role, phase, count and confirmation time: always exact ----------

  predicate SameLife(s: State, t: State) {
    s.role == t.role && s.phase == t.phase && s.count == t.count && s.confirmed == t.confirmed
  }

  /** Every further observation with this code leaves the four lifecycle fields alone. */
  ghost predicate Settled(b: Band, s: State, code: nat) {
    forall e: Event :: Code(b, e) == code ==> SameLife(Step(b, s, e), s)
  }

  lemma StepRespectsSameLife(b: Band, s: State, t: State, e: Event)
    requires SameLife(s, t)
    ensures SameLife(Step(b, s, e), Step(b, t, e))
  {
  }

  lemma {:induction false} FoldRespectsSameLife(b: Band, events: seq<Event>, s: State, t: State)
    requires SameLife(s, t)
    ensures SameLife(Fold(b, events, s), Fold(b, events, t))
  {
    if events != [] {
      FoldRespectsSameLife(b, events[1..], Step(b, s, events[0]), Step(b, t, events[0]));
    }
  }

  function AfterThree(b: Band, s: State, x: Event, y: Event, z: Event): State {
    Step(b, Step(b, Step(b, s, x), y), z)
  }

  /** Three observations of one code plus any fourth settle every seed: cross, accept, reset the counter. */
  lemma FourSettle(b: Band, s: State, x: Event, y: Event, z: Event, u: Event)
    requires b.Valid()
    requires Code(b, x) == Code(b, y) == Code(b, z) == Code(b, u)
    ensures Settled(b, Step(b, AfterThree(b, s, x, y, z), u), Code(b, x))
    ensures forall v: Event :: Code(b, v) == Code(b, x) ==>
      SameLife(Step(b, AfterThree(b, s, x, y, z), u), Step(b, AfterThree(b, s, x, y, z), v))
  {
    var t := AfterThree(b, s, x, y, z);
    CodeFixesFlags(b, x, y);
    CodeFixesFlags(b, x, z);
    CodeFixesFlags(b, x, u);
    forall v: Event | Code(b, v) == Code(b, x)
      ensures SameLife(Step(b, Step(b, t, u), v), Step(b, t, u))
      ensures SameLife(Step(b, t, u), Step(b, t, v))
    {
      CodeFixesFlags(b, x, v);
    }
  }

  lemma {:induction false} SettledFold(b: Band, s: State, code: nat, events: seq<Event>)
    requires Settled(b, s, code)
    requires forall e :: e in events ==> Code(b, e) == code
    ensures SameLife(Fold(b, events, s), s)
    decreases |events|
  {
    if events != [] {
      assert events[0] in events;
      var t := Step(b, s, events[0]);
      assert Settled(b, t, code) by {
        forall e: Event | Code(b, e) == code ensures SameLife(Step(b, t, e), t) {
          StepRespectsSameLife(b, t, s, e);
        }
      }
      SettledFold(b, t, code, events[1..]);
    }
  }

  /** The fold over any nonempty continuation of the run is its first step. */
  lemma SettledTail(b: Band, g: seq<Event>, s: State, tail: seq<Event>)
    requires b.Valid() && OneRun(b, g) && |g| > 3
    requires tail != [] && forall e :: e in tail ==> e in g
    ensures SameLife(Fold(b, tail, AfterThree(b, s, g[0], g[1], g[2])),
                     Step(b, AfterThree(b, s, g[0], g[1], g[2]), g[3]))
  {
    var t := AfterThree(b, s, g[0], g[1], g[2]);
    assert tail[0] in g;
    FourSettle(b, s, g[0], g[1], g[2], g[3]);
    FourSettle(b, s, g[0], g[1], g[2], tail[0]);
    assert forall e :: e in tail[1..] ==> e in tail;
    SettledFold(b, Step(b, t, tail[0]), Code(b, g[0]), tail[1..]);
  }

  lemma FoldThree(b: Band, g: seq<Event>, s: State)
    requires |g| == 3
    ensures Fold(b, g, s) == AfterThree(b, s, g[0], g[1], g[2])
  {
    assert g[1..][1..] == [g[2]] && [g[2]][1..] == [];
    assert Fold(b, [g[2]], Step(b, Step(b, s, g[0]), g[1])) == AfterThree(b, s, g[0], g[1], g[2]);
  }

  lemma RunKeepsLife(b: Band, g: seq<Event>, s: State)
    requires b.Valid() && OneRun(b, g)
    ensures SameLife(Fold(b, Keep(g), s), Fold(b, g, s))
  {
    if |g| <= 3 {
      KeepShort(g);
    } else {
      var head, tail, kept := g[..3], g[3..], KeptFrom(g, 3);
      KeepLong(g);
      assert g == head + tail;
      FoldConcat(b, head, tail, s);
      FoldConcat(b, head, kept, s);
      FoldThree(b, head, s);
      SettledTail(b, g, s, tail);
      SettledTail(b, g, s, kept);
    }
  }

  /** Main result: from every seed and over every sequence, compression preserves the four lifecycle fields. */
  lemma {:induction false} CompressKeepsLife(b: Band, events: seq<Event>, s: State)
    requires b.Valid()
    ensures SameLife(Fold(b, Compress(b, events), s), Fold(b, events, s))
    decreases |events|
  {
    if events != [] {
      var n := RunLength(b, events);
      var run, rest := events[..n], events[n..];
      var kept, full := Fold(b, Keep(run), s), Fold(b, run, s);
      assert events == run + rest;
      FoldConcat(b, run, rest, s);
      FoldConcat(b, Keep(run), Compress(b, rest), s);
      RunKeepsLife(b, run, s);
      CompressKeepsLife(b, rest, full);
      FoldRespectsSameLife(b, Compress(b, rest), kept, full);
    }
  }
}
