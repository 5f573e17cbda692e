/** Reading one version back from the book in level order. */
module SwingReads {
  import opened Common
  import opened CheckpointWrites
  import opened SwingHistory

  predicate RowsOrdered(rows: seq<BookRow>) {
    forall i, j :: 0 <= i < j < |rows| ==> rows[i].key.id < rows[j].key.id
  }

  /** Merges a stored row into the rows read so far: by level id, keeping the higher revision. */
  function Merge(rows: seq<BookRow>, r: BookRow): seq<BookRow> {
    if rows == [] || r.key.id < rows[0].key.id then [r] + rows
    else if r.key.id == rows[0].key.id then
      if rows[0].revision > r.revision then rows else [r] + rows[1..]
    else [rows[0]] + Merge(rows[1..], r)
  }

  /** The rows starting at one time, highest revision of each, by level id. */
  function ReadAt(store: seq<BookRow>, at: int): seq<BookRow> {
    if store == [] then []
    else
      var n := |store| - 1;
      if store[n].key.validFrom == at then Merge(ReadAt(store[..n], at), store[n]) else ReadAt(store[..n], at)
  }

  predicate Supersedes(rows: seq<BookRow>, r: BookRow) {
    exists i :: 0 <= i < |rows| && rows[i].key.id == r.key.id && rows[i].revision > r.revision
  }

  /** A merged row is an old row of another level, the newcomer, or the old row that outranks it. */
  predicate FromMerge(rows: seq<BookRow>, r: BookRow, x: BookRow) {
    || (x in rows && x.key.id != r.key.id)
    || (x == r && !Supersedes(rows, r))
    || (x in rows && x.key.id == r.key.id && x.revision > r.revision)
  }

  predicate HasLevel(rows: seq<BookRow>, id: nat) {
    exists i :: 0 <= i < |rows| && rows[i].key.id == id
  }

  predicate Merged(rows: seq<BookRow>, r: BookRow, m: seq<BookRow>) {
    && RowsOrdered(m) && HasLevel(m, r.key.id)
    && (forall i :: 0 <= i < |m| ==> FromMerge(rows, r, m[i]))
    && (forall i :: 0 <= i < |rows| && rows[i].key.id != r.key.id ==> rows[i] in m)
  }

  lemma MergeFront(rows: seq<BookRow>, r: BookRow)
    requires RowsOrdered(rows) && (rows != [] ==> r.key.id < rows[0].key.id)
    ensures Merged(rows, r, [r] + rows)
  {
    var m := [r] + rows;
    assert m[0] == r && !Supersedes(rows, r);
    hide Supersedes;
    forall i | 0 <= i < |m| ensures FromMerge(rows, r, m[i]) {
      if i > 0 {
        assert m[i] == rows[i - 1];
      }
    }
  }

  lemma SupersededBySame(rows: seq<BookRow>, r: BookRow)
    requires RowsOrdered(rows) && rows != [] && r.key.id == rows[0].key.id
    ensures rows[0].revision <= r.revision ==> !Supersedes(rows, r)
  {
  }

  lemma MergeSame(rows: seq<BookRow>, r: BookRow)
    requires RowsOrdered(rows) && rows != [] && r.key.id == rows[0].key.id
    ensures Merged(rows, r, if rows[0].revision > r.revision then rows else [r] + rows[1..])
  {
    var m := if rows[0].revision > r.revision then rows else [r] + rows[1..];
    SupersededBySame(rows, r);
    hide Supersedes;
    assert m[0].key.id == r.key.id && rows[0] in rows;
    forall i | 0 <= i < |m| ensures FromMerge(rows, r, m[i]) {
      if i > 0 {
        assert m[i] == rows[i];
      }
    }
    forall i | 0 <= i < |rows| && rows[i].key.id != r.key.id ensures rows[i] in m {
      assert m[i] == rows[i];
    }
  }

  lemma {:induction false} MergeIs(rows: seq<BookRow>, r: BookRow)
    requires RowsOrdered(rows)
    ensures Merged(rows, r, Merge(rows, r))
    decreases |rows|
  {
    hide Merged, Supersedes;
    if rows == [] || r.key.id < rows[0].key.id {
      MergeFront(rows, r);
    } else if r.key.id == rows[0].key.id {
      MergeSame(rows, r);
    } else {
      MergeIs(rows[1..], r);
      MergeCons(rows, r, Merge(rows[1..], r));
    }
  }

  lemma FromMergeCons(rows: seq<BookRow>, r: BookRow, x: BookRow)
    requires rows != [] && rows[0].key.id < r.key.id && FromMerge(rows[1..], r, x)
    ensures FromMerge(rows, r, x)
  {
    if Supersedes(rows, r) {
      var i :| 0 <= i < |rows| && rows[i].key.id == r.key.id && rows[i].revision > r.revision;
      assert rows[1..][i - 1] == rows[i];
    }
  }

  lemma MergeCons(rows: seq<BookRow>, r: BookRow, rest: seq<BookRow>)
    requires RowsOrdered(rows) && rows != [] && rows[0].key.id < r.key.id && Merged(rows[1..], r, rest)
    ensures Merged(rows, r, [rows[0]] + rest)
  {
    hide Supersedes;
    var m := [rows[0]] + rest;
    forall i | 0 <= i < |rest| ensures rows[0].key.id < rest[i].key.id && FromMerge(rows, r, rest[i]) {
      assert FromMerge(rows[1..], r, rest[i]);
      FromMergeCons(rows, r, rest[i]);
    }
    forall i | 0 <= i < |rows| && rows[i].key.id != r.key.id ensures rows[i] in m {
      if i > 0 {
        assert rows[1..][i - 1] == rows[i];
      }
    }
    assert HasLevel(m, r.key.id) by {
      var i :| 0 <= i < |rest| && rest[i].key.id == r.key.id;
      assert m[i + 1] == rest[i];
    }
  }

  /** The rows read are exactly the table's rows starting at that time. */
  ghost predicate Lists(rows: seq<BookRow>, table: map<Key, BookRow>, at: int) {
    && RowsOrdered(rows)
    && (forall x :: x in rows ==> x.key.validFrom == at && Stored(table, x))
    && (forall k :: k in table && k.validFrom == at ==> table[k] in rows)
  }

  lemma SupersedesIs(rows: seq<BookRow>, table: map<Key, BookRow>, at: int, r: BookRow)
    requires Lists(rows, table, at) && r.key.validFrom == at && (forall k :: k in table ==> table[k].key == k)
    ensures Supersedes(rows, r) <==> (r.key in table && table[r.key].revision > r.revision)
  {
    if Supersedes(rows, r) {
      var i :| 0 <= i < |rows| && rows[i].key.id == r.key.id && rows[i].revision > r.revision;
      assert rows[i] in rows && rows[i].key == r.key;
    }
    if r.key in table && table[r.key].revision > r.revision {
      assert table[r.key] in rows;
    }
  }

  lemma MergedIsStored(rows: seq<BookRow>, table: map<Key, BookRow>, at: int, r: BookRow, x: BookRow)
    requires Lists(rows, table, at) && r.key.validFrom == at && FromMerge(rows, r, x)
    requires Supersedes(rows, r) <==> (r.key in table && table[r.key].revision > r.revision)
    ensures x.key.validFrom == at && Stored(Put(table, r), x)
  {
    hide Supersedes;
  }

  lemma MergeLists(rows: seq<BookRow>, table: map<Key, BookRow>, at: int, r: BookRow)
    requires Lists(rows, table, at) && r.key.validFrom == at && (forall k :: k in table ==> table[k].key == k)
    ensures Lists(Merge(rows, r), Put(table, r), at)
  {
    var m, next := Merge(rows, r), Put(table, r);
    MergeIs(rows, r);
    SupersedesIs(rows, table, at, r);
    hide Merge, Supersedes, FromMerge;
    forall x | x in m ensures x.key.validFrom == at && Stored(next, x) {
      var i :| 0 <= i < |m| && m[i] == x;
      MergedIsStored(rows, table, at, r, m[i]);
    }
    forall k | k in next && k.validFrom == at ensures next[k] in m {
      if k == r.key {
        var i :| 0 <= i < |m| && m[i].key.id == r.key.id;
        assert m[i] in m && Stored(next, m[i]);
      } else {
        assert table[k] in rows && table[k].key.id != r.key.id;
      }
    }
  }

  lemma {:induction false} TableKeys(store: seq<BookRow>)
    ensures forall k :: k in Puts(map[], store) ==> Puts(map[], store)[k].key == k
    decreases |store|
  {
    if store != [] {
      TableKeys(store[..|store| - 1]);
    }
  }

  /** Reading one start time returns exactly the table's rows there, in level order. */
  lemma {:induction false} ReadIs(store: seq<BookRow>, at: int)
    ensures Lists(ReadAt(store, at), Puts(map[], store), at)
    decreases |store|
  {
    if store != [] {
      var n := |store| - 1;
      ReadIs(store[..n], at);
      TableKeys(store[..n]);
      if store[n].key.validFrom == at {
        MergeLists(ReadAt(store[..n], at), Puts(map[], store[..n]), at, store[n]);
      }
    }
  }

  lemma InTail(a: seq<nat>, x: nat)
    requires Increasing(a) && a != []
    ensures x in a[1..] <==> x in a && x != a[0]
  {
    assert a == [a[0]] + a[1..];
  }

  lemma HasFirst(a: seq<nat>)
    requires a != []
    ensures exists x: nat :: x in a
  {
    assert a[0] in a;
  }

  /** Two increasing sequences with the same elements are equal. */
  lemma {:induction false} SameIds(a: seq<nat>, b: seq<nat>)
    requires Increasing(a) && Increasing(b) && forall x :: x in a <==> x in b
    ensures a == b
    decreases |a|
  {
    if a == [] {
      if b != [] {
        HasFirst(b);
      }
    } else {
      assert a[0] in b && b != [];
      assert b[0] in a;
      assert a[0] == b[0];
      forall x: nat ensures x in a[1..] <==> x in b[1..] {
        InTail(a, x);
        InTail(b, x);
      }
      SameIds(a[1..], b[1..]);
    }
  }

  // ---------- Reading a version of the history ----------

  /** The rows carried to the next version: this version's levels, whatever their revision. */
  ghost predicate Carries(previous: seq<BookRow>, v: Version) {
    && |previous| == |v.levels|
    && (forall j :: 0 <= j < |previous| ==>
          previous[j].key == Key(v.at, v.levels[j].id) && previous[j].content.level == v.levels[j])
  }

  function Ids(rows: seq<BookRow>): seq<nat> {
    seq(|rows|, i requires 0 <= i < |rows| => rows[i].key.id)
  }

  function LevelIds(levels: seq<Level>): seq<nat> {
    seq(|levels|, i requires 0 <= i < |levels| => levels[i].id)
  }

  lemma RowOfVersion(vs: seq<Version>, i: nat, r: BookRow)
    requires WellFormed(vs) && Written(vs, r) && i < |vs| && r.key.validFrom == vs[i].at
    ensures exists j :: 0 <= j < |vs[i].levels| && r.key.id == vs[i].levels[j].id && r.content.level == vs[i].levels[j]
  {
    var k: nat, j: nat :| WrittenAt(vs, r, k, j);
    hide WellFormed;
    if i < k {
      Before(vs, i, k);
    } else if k < i {
      Before(vs, k, i);
    }
  }

  ghost predicate VersionStored(vs: seq<Version>, table: map<Key, BookRow>, i: nat) {
    WellFormed(vs) && OnlyWrittenTable(vs, table) && i < |vs| && Holds(vs[i], table, 1)
  }

  lemma RowsHaveLevels(vs: seq<Version>, table: map<Key, BookRow>, i: nat, rows: seq<BookRow>, x: nat)
    requires VersionStored(vs, table, i) && Lists(rows, table, vs[i].at)
    ensures x in Ids(rows) <==> x in LevelIds(vs[i].levels)
  {
    var v := vs[i];
    if x in Ids(rows) {
      var j :| 0 <= j < |rows| && rows[j].key.id == x;
      assert rows[j] in rows && Written(vs, rows[j]);
      hide Holds, OnlyWrittenTable, Lists;
      RowOfVersion(vs, i, rows[j]);
      var k :| 0 <= k < |v.levels| && rows[j].key.id == v.levels[k].id;
      assert LevelIds(v.levels)[k] == x;
    }
    if x in LevelIds(v.levels) {
      var k :| 0 <= k < |v.levels| && v.levels[k].id == x;
      var key := Key(v.at, x);
      assert key in table && table[key] in rows && table[key].key == key;
      var j :| 0 <= j < |rows| && rows[j] == table[key];
      assert Ids(rows)[j] == x;
    }
  }

  lemma RowCarries(vs: seq<Version>, table: map<Key, BookRow>, i: nat, rows: seq<BookRow>, j: nat)
    requires VersionStored(vs, table, i) && Lists(rows, table, vs[i].at)
    requires j < |rows| == |vs[i].levels| && rows[j].key.id == vs[i].levels[j].id
    ensures rows[j].key == Key(vs[i].at, vs[i].levels[j].id) && rows[j].content.level == vs[i].levels[j]
  {
    assert rows[j] in rows && Written(vs, rows[j]);
    assert Ordered(vs[i].levels);
    hide Holds, OnlyWrittenTable, Lists;
    RowOfVersion(vs, i, rows[j]);
    var k :| 0 <= k < |vs[i].levels| && rows[j].key.id == vs[i].levels[k].id && rows[j].content.level == vs[i].levels[k];
    SameLevel(vs[i].levels, j, k);
  }

  /** Reading back a covered version gives its levels in order, open or closed. */
  lemma ReadCarries(vs: seq<Version>, store: seq<BookRow>, i: nat)
    requires WellFormed(vs) && OnlyWritten(vs, store) && i < |vs| && Holds(vs[i], Puts(map[], store), 1)
    ensures Carries(ReadAt(store, vs[i].at), vs[i])
  {
    hide Puts, ReadAt, Merge, Holds;
    var v, table := vs[i], Puts(map[], store);
    var rows := ReadAt(store, v.at);
    ReadIs(store, v.at);
    StoredRows(vs, store);
    assert Ordered(v.levels);
    assert Increasing(Ids(rows)) && Increasing(LevelIds(v.levels));
    hide Lists, WellFormed, OnlyWrittenTable, OnlyWritten;
    forall x: nat ensures x in Ids(rows) <==> x in LevelIds(v.levels) {
      RowsHaveLevels(vs, table, i, rows, x);
    }
    SameIds(Ids(rows), LevelIds(v.levels));
    assert |Ids(rows)| == |rows| == |v.levels|;
    forall j | 0 <= j < |rows|
      ensures rows[j].key == Key(v.at, v.levels[j].id) && rows[j].content.level == v.levels[j]
    {
      assert Ids(rows)[j] == LevelIds(v.levels)[j];
      RowCarries(vs, table, i, rows, j);
    }
  }
}
