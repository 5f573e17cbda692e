/** What several components share: optional values, the larger of two reals, sorting, lifetimes and text order. */
module Common {
  datatype Option<T> = None | Some(value: T)

  function Max(x: real, y: real): real {
    if x >= y then x else y
  }

  predicate Increasing(xs: seq<int>) {
    forall i, j :: 0 <= i < j < |xs| ==> xs[i] < xs[j]
  }

  // ---------- A process that may die ----------

  /** Whether one more durable effect happens; without a limit it always does. */
  predicate Alive(budget: Option<nat>) {
    budget != Some(0)
  }

  /** What is left after it. */
  function Remaining(budget: Option<nat>): Option<nat> {
    if budget.Some? && budget.value > 0 then Some(budget.value - 1) else budget
  }

  // ---------- Sorting a finite set ----------

  ghost predicate Least(s: set<int>, m: int) {
    m in s && forall x :: x in s ==> m <= x
  }

  lemma EmptyWithout(s: set<int>)
    requires forall x :: x !in s
    ensures s == {}
  {
    var none: set<int> := {};
    assert forall x :: x in s <==> x in none;
  }

  lemma NonemptyHasElement(s: set<int>)
    requires s != {}
    ensures exists x :: x in s
  {
    if forall x :: x !in s {
      EmptyWithout(s);
    }
  }

  lemma LeastWithOne(s: set<int>, x: int, m: int)
    requires x in s && (s - {x} != {} ==> Least(s - {x}, m))
    ensures Least(s, if s - {x} != {} && m <= x then m else x)
  {
    forall y | y in s ensures (if s - {x} != {} && m <= x then m else x) <= y {
      assert y == x || y in s - {x};
    }
  }

  lemma HasLeast(s: set<int>)
    requires s != {}
    ensures exists m :: Least(s, m)
    decreases |s|
  {
    NonemptyHasElement(s);
    var x :| x in s;
    var m := x;
    if s - {x} != {} {
      HasLeast(s - {x});
      m :| Least(s - {x}, m);
    }
    LeastWithOne(s, x, m);
  }

  /** The elements in increasing order. */
  function Sorted(s: set<int>): (r: seq<int>)
    ensures Increasing(r) && |r| == |s|
    ensures forall x :: x in r <==> x in s
    decreases |s|
  {
    if s == {} then []
    else
      HasLeast(s);
      var m :| m in s && forall x :: x in s ==> m <= x;
      SortedTail(s, m, Sorted(s - {m}));
      [m] + Sorted(s - {m})
  }

  lemma SortedTail(s: set<int>, m: int, rest: seq<int>)
    requires Least(s, m) && Increasing(rest) && |rest| == |s| - 1 && forall x :: x in rest <==> x in s - {m}
    ensures Increasing([m] + rest) && forall x :: x in [m] + rest <==> x in s
  {
    forall i | 0 <= i < |rest| ensures m < rest[i] {
      assert rest[i] in rest;
    }
    forall x ensures x in [m] + rest <==> x in s {
      assert x in [m] + rest <==> x == m || x in rest;
    }
  }

  // ---------- Lexicographic order of text ----------

  predicate Below(a: string, b: string) {
    b != "" && (a == "" || a[0] < b[0] || (a[0] == b[0] && Below(a[1..], b[1..])))
  }

  lemma {:induction false} BelowIsStrict(a: string)
    ensures !Below(a, a)
  {
    if a != "" {
      BelowIsStrict(a[1..]);
    }
  }

  /** Of two different texts exactly one is below the other. */
  lemma {:induction false} BelowIsTotal(a: string, b: string)
    requires a != b
    ensures Below(a, b) <==> !Below(b, a)
    decreases |a|
  {
    if a != "" && b != "" && a[0] == b[0] {
      assert a == [a[0]] + a[1..] && b == [b[0]] + b[1..];
      BelowIsTotal(a[1..], b[1..]);
    }
  }

  lemma {:induction false} BelowIsTransitive(a: string, b: string, c: string)
    requires Below(a, b) && Below(b, c)
    ensures Below(a, c)
    decreases |a|
  {
    if a != "" && a[0] == b[0] == c[0] {
      BelowIsTransitive(a[1..], b[1..], c[1..]);
    }
  }

  lemma TextOrder()
    ensures forall a, b {:trigger Below(a, b)} :: !Below(a, a) && (a != b ==> (Below(a, b) <==> !Below(b, a)))
    ensures forall a, b, c :: Below(a, b) && Below(b, c) ==> Below(a, c)
  {
    forall a, b ensures !Below(a, a) && (a != b ==> (Below(a, b) <==> !Below(b, a))) {
      BelowIsStrict(a);
      if a != b {
        BelowIsTotal(a, b);
      }
    }
    forall a, b, c | Below(a, b) && Below(b, c) ensures Below(a, c) {
      BelowIsTransitive(a, b, c);
    }
  }
}
