/** One split action per date: duplicate deliveries collapse, contradictory ones are refused. */
module CanonicalSplits {
  import opened Common

  datatype Row = Row(day: int, from: real, to: real, inserted: int)

  datatype Error = InvalidRatio(day: int) | ConflictingRatios(day: int)

  datatype Result = Ok(splits: seq<Row>) | Err(error: Error)

  predicate Positive(r: Row) {
    r.from > 0.0 && r.to > 0.0
  }

  predicate SameRatio(a: Row, b: Row) {
    a.from == b.from && a.to == b.to
  }

  predicate Consistent(rows: seq<Row>) {
    && (forall i :: 0 <= i < |rows| ==> Positive(rows[i]))
    && (forall i, j :: 0 <= i < j < |rows| && rows[i].day == rows[j].day ==> SameRatio(rows[i], rows[j]))
  }

  predicate NewestAt(rows: seq<Row>, j: nat, r: Row) {
    && j < |rows| && rows[j] == r
    && forall i :: 0 <= i < |rows| && rows[i].day == r.day ==>
         rows[i].inserted <= r.inserted && (i < j ==> rows[i].inserted < r.inserted)
  }

  /** The row kept for a date: one of its deliveries, none of them later, and the first of those as late. */
  ghost predicate Newest(rows: seq<Row>, r: Row) {
    exists j: nat :: NewestAt(rows, j, r)
  }

  predicate HasDay(splits: seq<Row>, d: int) {
    exists j :: 0 <= j < |splits| && splits[j].day == d
  }

  ghost predicate Tracks(rows: seq<Row>, unique: map<int, Row>) {
    && (forall d :: d in unique <==> exists i :: 0 <= i < |rows| && rows[i].day == d)
    && (forall d :: d in unique ==> unique[d].day == d && Newest(rows, unique[d]))
  }

  lemma TracksNext(rows: seq<Row>, r: Row, unique: map<int, Row>)
    requires Tracks(rows, unique)
    ensures Tracks(rows + [r], if r.day !in unique || r.inserted > unique[r.day].inserted then unique[r.day := r] else unique)
  {
    var longer := rows + [r];
    var next := if r.day !in unique || r.inserted > unique[r.day].inserted then unique[r.day := r] else unique;
    forall d ensures d in next <==> exists i :: 0 <= i < |longer| && longer[i].day == d {
      if i :| 0 <= i < |rows| && rows[i].day == d {
        assert longer[i] == rows[i];
      }
      assert longer[|rows|] == r;
    }
    forall d | d in next ensures next[d].day == d && Newest(longer, next[d]) {
      if d in unique {
        KeptStays(rows, r, unique[d]);
      } else {
        assert forall i :: 0 <= i < |rows| ==> longer[i] == rows[i] && rows[i].day != d;
        assert NewestAt(longer, |rows|, r);
      }
    }
  }

  /** One more delivery replaces the kept one exactly when it is of its date and later. */
  lemma KeptStays(rows: seq<Row>, r: Row, kept: Row)
    requires Newest(rows, kept)
    ensures Newest(rows + [r], if r.day == kept.day && r.inserted > kept.inserted then r else kept)
  {
    var longer := rows + [r];
    assert longer[|rows|] == r && forall i :: 0 <= i < |rows| ==> longer[i] == rows[i];
    var j: nat :| NewestAt(rows, j, kept);
    if r.day == kept.day && r.inserted > kept.inserted {
      assert NewestAt(longer, |rows|, r);
    } else {
      assert NewestAt(longer, j, kept);
    }
  }

  /** A delivery agrees with every earlier one of its date exactly when it agrees with the one kept. */
  lemma AgreesWithKept(rows: seq<Row>, r: Row, unique: map<int, Row>)
    requires Consistent(rows) && Tracks(rows, unique) && Positive(r)
    ensures Consistent(rows + [r]) <==> (r.day in unique ==> SameRatio(r, unique[r.day]))
  {
    var longer := rows + [r];
    assert longer[|rows|] == r && forall i :: 0 <= i < |rows| ==> longer[i] == rows[i];
    if r.day in unique {
      assert Newest(rows, unique[r.day]);
      var k: nat :| NewestAt(rows, k, unique[r.day]);
      if SameRatio(r, unique[r.day]) {
        forall i | 0 <= i < |rows| && rows[i].day == r.day ensures SameRatio(rows[i], r) {
          assert i < k ==> SameRatio(rows[i], rows[k]);
          assert k < i ==> SameRatio(rows[k], rows[i]);
        }
      } else {
        assert longer[k].day == longer[|rows|].day;
      }
    }
  }

  lemma PrefixConsistent(rows: seq<Row>, n: nat)
    requires n <= |rows| && Consistent(rows)
    ensures Consistent(rows[..n])
  {
  }

  /** Succeeds exactly on consistent deliveries; then each date appears once, in order, as the first of
      its newest deliveries. */
  method Canonical(rows: seq<Row>) returns (r: Result)
    ensures r.Ok? <==> Consistent(rows)
    ensures r.Ok? ==>
      && (forall i, j :: 0 <= i < j < |r.splits| ==> r.splits[i].day < r.splits[j].day)
      && (forall i :: 0 <= i < |r.splits| ==> Newest(rows, r.splits[i]))
      && (forall i :: 0 <= i < |rows| ==> HasDay(r.splits, rows[i].day))
  {
    hide Tracks, Newest;
    var unique: map<int, Row> := map[];
    NothingTracked();
    var k := 0;
    while k < |rows|
      invariant 0 <= k <= |rows| && Consistent(rows[..k]) && Tracks(rows[..k], unique)
    {
      var row := rows[k];
      assert rows[..k + 1] == rows[..k] + [row];
      if !Positive(row) {
        return Err(InvalidRatio(row.day));
      }
      AgreesWithKept(rows[..k], row, unique);
      if row.day in unique && !SameRatio(row, unique[row.day]) {
        if Consistent(rows) {
          PrefixConsistent(rows, k + 1);
        }
        return Err(ConflictingRatios(row.day));
      }
      TracksNext(rows[..k], row, unique);
      if row.day !in unique || row.inserted > unique[row.day].inserted {
        unique := unique[row.day := row];
      }
      k := k + 1;
    }
    assert rows[..k] == rows;
    var days := Sorted(unique.Keys);
    DaysAre(days, unique);
    var splits := seq(|days|, i requires 0 <= i < |days| => unique[days[i]]);
    ListIs(rows, unique, days, splits);
    return Ok(splits);
  }

  lemma NothingTracked()
    ensures Tracks([], map[])
  {
  }

  lemma DaysAre(days: seq<int>, unique: map<int, Row>)
    requires forall d :: d in days <==> d in unique.Keys
    ensures forall i :: 0 <= i < |days| ==> days[i] in unique
  {
    forall i | 0 <= i < |days| ensures days[i] in unique {
      var d := days[i];
      assert d in days;
    }
  }

  lemma ListIs(rows: seq<Row>, unique: map<int, Row>, days: seq<int>, splits: seq<Row>)
    requires Tracks(rows, unique) && Increasing(days) && (forall d :: d in days <==> d in unique.Keys)
    requires |splits| == |days| && forall i :: 0 <= i < |days| ==> days[i] in unique && splits[i] == unique[days[i]]
    ensures forall i, j :: 0 <= i < j < |splits| ==> splits[i].day < splits[j].day
    ensures forall i :: 0 <= i < |splits| ==> Newest(rows, splits[i])
    ensures forall i :: 0 <= i < |rows| ==> HasDay(splits, rows[i].day)
  {
    hide Newest;
    forall i | 0 <= i < |splits| ensures splits[i].day == days[i] && Newest(rows, splits[i]) {
      var d := days[i];
      assert d in unique;
    }
    forall i | 0 <= i < |rows| ensures HasDay(splits, rows[i].day) {
      var d := rows[i].day;
      assert d in unique;
      assert d in days;
      var j :| 0 <= j < |days| && days[j] == d;
      assert splits[j].day == d;
    }
  }

  /** Delivering rows again, or in another order, changes no date and no ratio. */
  lemma DeliveryDoesNotMatter(a: seq<Row>, b: seq<Row>, x: Row, y: Row)
    requires Consistent(a) && Consistent(b) && (forall r :: r in a <==> r in b)
    requires Newest(a, x) && Newest(b, y) && x.day == y.day
    ensures SameRatio(x, y) && x.inserted == y.inserted
  {
    var i: nat :| NewestAt(a, i, x);
    var l: nat :| NewestAt(b, l, y);
    assert y in b && x in a;
    assert y in a && x in b;
    var j :| 0 <= j < |a| && a[j] == y;
    var k :| 0 <= k < |b| && b[k] == x;
    if i < j {
      assert SameRatio(a[i], a[j]);
    }
  }
}
