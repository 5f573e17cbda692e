/** Recoverable batch writes into a table that keeps the highest revision of each key. */
module CheckpointWrites {
  import opened Common

  datatype Row<K, C> = Row(key: K, revision: nat, content: C)

  type Table<K(==), C> = map<K, Row<K, C>>

  /** Merging one row: a higher stored revision wins, otherwise the newcomer does. */
  function Put<K(==), C>(f: map<K, Row<K, C>>, r: Row<K, C>): map<K, Row<K, C>> {
    if r.key in f && f[r.key].revision > r.revision then f else f[r.key := r]
  }

  function Puts<K(==), C>(f: map<K, Row<K, C>>, rows: seq<Row<K, C>>): map<K, Row<K, C>> {
    if rows == [] then f else Put(Puts(f, rows[..|rows| - 1]), rows[|rows| - 1])
  }

  lemma {:induction false} PutsConcat<K, C>(f: map<K, Row<K, C>>, a: seq<Row<K, C>>, b: seq<Row<K, C>>)
    ensures Puts(f, a + b) == Puts(Puts(f, a), b)
    decreases |b|
  {
    if b == [] {
      assert a + b == a;
    } else {
      var n := |b| - 1;
      assert (a + b)[..|a + b| - 1] == a + b[..n] && (a + b)[|a + b| - 1] == b[n];
      PutsConcat(f, a, b[..n]);
    }
  }

  ghost predicate UniqueKeys<K, C>(rows: seq<Row<K, C>>) {
    forall i, j :: 0 <= i < j < |rows| ==> rows[i].key != rows[j].key
  }

  ghost predicate HasKey<K, C>(rows: seq<Row<K, C>>, k: K) {
    exists i :: 0 <= i < |rows| && rows[i].key == k
  }

  /** Keys outside the written rows are untouched. */
  lemma {:induction false} PutsElsewhere<K, C>(f: map<K, Row<K, C>>, rows: seq<Row<K, C>>, k: K)
    requires !HasKey(rows, k)
    ensures k in Puts(f, rows) <==> k in f
    ensures k in f ==> Puts(f, rows)[k] == f[k]
    decreases |rows|
  {
    if rows != [] {
      var n := |rows| - 1;
      assert rows[n].key != k;
      assert forall i :: 0 <= i < n ==> rows[..n][i] == rows[i];
      PutsElsewhere(f, rows[..n], k);
    }
  }

  /** With distinct keys each key ends with its own row unless a higher revision was already there. */
  lemma {:induction false} PutsAt<K, C>(f: map<K, Row<K, C>>, rows: seq<Row<K, C>>, i: nat)
    requires UniqueKeys(rows) && i < |rows|
    ensures var r := rows[i];
      r.key in Puts(f, rows)
      && Puts(f, rows)[r.key] == if r.key in f && f[r.key].revision > r.revision then f[r.key] else r
    decreases |rows|
  {
    var n := |rows| - 1;
    if i < n {
      assert rows[..n][i] == rows[i] && rows[n].key != rows[i].key;
      PutsAt(f, rows[..n], i);
    } else {
      PutsElsewhere(f, rows[..n], rows[i].key);
    }
  }

  /** Revisions never fall and keys never disappear. */
  lemma {:induction false} PutsOnlyRaise<K, C>(f: map<K, Row<K, C>>, rows: seq<Row<K, C>>, k: K)
    requires k in f
    ensures k in Puts(f, rows) && Puts(f, rows)[k].revision >= f[k].revision
    decreases |rows|
  {
    if rows != [] {
      PutsOnlyRaise(f, rows[..|rows| - 1], k);
    }
  }

  // ---------- A lost response ----------

  /** The rows a failed write may have stored before the response was lost. */
  function Kept<K(==), C>(rows: seq<Row<K, C>>, applied: set<K>): seq<Row<K, C>> {
    if rows == [] then []
    else
      var n := |rows| - 1;
      Kept(rows[..n], applied) + if rows[n].key in applied then [rows[n]] else []
  }

  /** The rows still to be written, or nothing when a different row of equal or higher revision is stored. */
  function Missing<K(==), C(==)>(f: map<K, Row<K, C>>, rows: seq<Row<K, C>>): Option<seq<Row<K, C>>> {
    if rows == [] then Some([])
    else
      var n := |rows| - 1;
      var rest, r := Missing(f, rows[..n]), rows[n];
      if rest.None? then None
      else if r.key in f && f[r.key] == r then rest
      else if r.key in f && f[r.key].revision >= r.revision then None
      else Some(rest.value + [r])
  }

  predicate Verified<K(==), C(==)>(f: map<K, Row<K, C>>, r: Row<K, C>) {
    r.key in f && f[r.key] == r
  }

  predicate Conflicts<K(==), C(==)>(f: map<K, Row<K, C>>, r: Row<K, C>) {
    r.key in f && f[r.key] != r && f[r.key].revision >= r.revision
  }

  /** Rows of the second sequence all come from the first. */
  ghost predicate DrawnFrom<K, C>(rows: seq<Row<K, C>>, sub: seq<Row<K, C>>) {
    forall i :: 0 <= i < |sub| ==> sub[i] in rows
  }

  lemma {:induction false} KeptMember<K, C>(rows: seq<Row<K, C>>, applied: set<K>, r: Row<K, C>)
    ensures r in Kept(rows, applied) <==> r in rows && r.key in applied
    decreases |rows|
  {
    if rows != [] {
      var n := |rows| - 1;
      KeptMember(rows[..n], applied, r);
      assert rows == rows[..n] + [rows[n]];
    }
  }

  lemma {:induction false} KeptIsUnique<K, C>(rows: seq<Row<K, C>>, applied: set<K>)
    requires UniqueKeys(rows)
    ensures UniqueKeys(Kept(rows, applied))
    decreases |rows|
  {
    if rows != [] {
      var n := |rows| - 1;
      KeptIsUnique(rows[..n], applied);
      var head := Kept(rows[..n], applied);
      forall i | 0 <= i < |head| ensures head[i].key != rows[n].key {
        KeptMember(rows[..n], applied, head[i]);
        var j :| 0 <= j < n && rows[..n][j] == head[i];
        assert rows[j] == head[i];
      }
    }
  }

  lemma KeptIs<K, C>(rows: seq<Row<K, C>>, applied: set<K>)
    requires UniqueKeys(rows)
    ensures UniqueKeys(Kept(rows, applied)) && DrawnFrom(rows, Kept(rows, applied))
    ensures forall i :: 0 <= i < |rows| && rows[i].key in applied ==> rows[i] in Kept(rows, applied)
    ensures forall r :: r in Kept(rows, applied) ==> r.key in applied
  {
    hide UniqueKeys, Kept;
    KeptIsUnique(rows, applied);
    forall r ensures r in Kept(rows, applied) <==> r in rows && r.key in applied {
      KeptMember(rows, applied, r);
    }
    forall i | 0 <= i < |Kept(rows, applied)| ensures Kept(rows, applied)[i] in rows {
      KeptMember(rows, applied, Kept(rows, applied)[i]);
    }
  }

  /** Recovery fails exactly on a conflict; otherwise it leaves exactly the rows not yet verified. */
  lemma {:induction false} MissingIs<K, C>(f: map<K, Row<K, C>>, rows: seq<Row<K, C>>)
    requires UniqueKeys(rows)
    ensures Missing(f, rows).None? <==> exists i :: 0 <= i < |rows| && Conflicts(f, rows[i])
    ensures Missing(f, rows).Some? ==> var rest := Missing(f, rows).value;
      && UniqueKeys(rest) && DrawnFrom(rows, rest) && |rest| <= |rows|
      && (forall i :: 0 <= i < |rows| ==> (rows[i] in rest <==> !Verified(f, rows[i])))
    decreases |rows|
  {
    if rows != [] {
      var n := |rows| - 1;
      MissingIs(f, rows[..n]);
      MissingStep(f, rows);
    }
  }

  lemma MissingStep<K, C>(f: map<K, Row<K, C>>, rows: seq<Row<K, C>>)
    requires UniqueKeys(rows) && rows != []
    requires var head := rows[..|rows| - 1];
      && (Missing(f, head).None? <==> exists i :: 0 <= i < |head| && Conflicts(f, head[i]))
      && (Missing(f, head).Some? ==> var rest := Missing(f, head).value;
            && UniqueKeys(rest) && DrawnFrom(head, rest) && |rest| <= |head|
            && (forall i :: 0 <= i < |head| ==> (head[i] in rest <==> !Verified(f, head[i]))))
    ensures Missing(f, rows).None? <==> exists i :: 0 <= i < |rows| && Conflicts(f, rows[i])
    ensures Missing(f, rows).Some? ==> var rest := Missing(f, rows).value;
      && UniqueKeys(rest) && DrawnFrom(rows, rest) && |rest| <= |rows|
      && (forall i :: 0 <= i < |rows| ==> (rows[i] in rest <==> !Verified(f, rows[i])))
  {
    var n := |rows| - 1;
    var head, r := rows[..n], rows[n];
    assert forall i :: 0 <= i < n ==> head[i] == rows[i];
    if Missing(f, head).None? {
      var i :| 0 <= i < |head| && Conflicts(f, head[i]);
      assert Conflicts(f, rows[i]);
    } else {
      var before := Missing(f, head).value;
      forall i | 0 <= i < |before| ensures before[i].key != r.key && before[i] in rows {
        assert before[i] in head;
      }
      assert r !in before;
      if Conflicts(f, r) {
        assert Conflicts(f, rows[n]);
      }
    }
  }

  lemma PutsRow<K, C>(f: map<K, Row<K, C>>, rows: seq<Row<K, C>>, r: Row<K, C>)
    requires UniqueKeys(rows) && r in rows
    ensures r.key in Puts(f, rows)
    ensures Puts(f, rows)[r.key] == if r.key in f && f[r.key].revision > r.revision then f[r.key] else r
  {
    var i :| 0 <= i < |rows| && rows[i] == r;
    PutsAt(f, rows, i);
  }

  lemma OutsideSub<K, C>(rows: seq<Row<K, C>>, sub: seq<Row<K, C>>, r: Row<K, C>)
    requires UniqueKeys(rows) && DrawnFrom(rows, sub) && r in rows && r !in sub
    ensures !HasKey(sub, r.key)
  {
    forall i | 0 <= i < |sub| ensures sub[i].key != r.key {
      assert sub[i] in rows;
    }
  }

  /** One key: whatever part of the write was stored, completing it with what is missing gives the full write. */
  lemma RecoveredKey<K, C>(f: map<K, Row<K, C>>, rows: seq<Row<K, C>>, applied: set<K>, r: Row<K, C>)
    requires UniqueKeys(rows) && r in rows
    requires Missing(Puts(f, Kept(rows, applied)), rows).Some?
    ensures var g := Puts(f, Kept(rows, applied));
      var done := Puts(g, Missing(g, rows).value);
      r.key in done && done[r.key] == r && r.key in Puts(f, rows) && Puts(f, rows)[r.key] == r
  {
    hide Puts, Missing, Kept;
    var kept := Kept(rows, applied);
    var g := Puts(f, kept);
    var rest := Missing(g, rows).value;
    KeptIs(rows, applied);
    MissingIs(g, rows);
    PutsRow(f, rows, r);
    var i :| 0 <= i < |rows| && rows[i] == r;
    assert !Conflicts(g, rows[i]);
    if r in kept {
      PutsRow(f, kept, r);
    } else {
      OutsideSub(rows, kept, r);
      PutsElsewhere(f, kept, r.key);
    }
    if r in rest {
      PutsRow(g, rest, r);
    } else {
      OutsideSub(rows, rest, r);
      PutsElsewhere(g, rest, r.key);
    }
  }

  lemma RecoveredAt<K, C>(f: map<K, Row<K, C>>, rows: seq<Row<K, C>>, applied: set<K>, k: K)
    requires UniqueKeys(rows) && Missing(Puts(f, Kept(rows, applied)), rows).Some?
    ensures var g := Puts(f, Kept(rows, applied));
      var done, whole := Puts(g, Missing(g, rows).value), Puts(f, rows);
      (k in done <==> k in whole) && (k in done ==> done[k] == whole[k])
  {
    hide Puts, Missing, Kept;
    var kept := Kept(rows, applied);
    var g := Puts(f, kept);
    var rest := Missing(g, rows).value;
    if HasKey(rows, k) {
      var i :| 0 <= i < |rows| && rows[i].key == k;
      RecoveredKey(f, rows, applied, rows[i]);
    } else {
      KeptIs(rows, applied);
      MissingIs(g, rows);
      NoKeyBelow(rows, kept, k);
      NoKeyBelow(rows, rest, k);
      PutsElsewhere(f, rows, k);
      PutsElsewhere(f, kept, k);
      PutsElsewhere(g, rest, k);
    }
  }

  /** After a lost response and a clean check, writing only the missing rows completes the original write exactly. */
  lemma RecoveryCompletes<K(!new), C>(f: map<K, Row<K, C>>, rows: seq<Row<K, C>>, applied: set<K>)
    requires UniqueKeys(rows) && Missing(Puts(f, Kept(rows, applied)), rows).Some?
    ensures var g := Puts(f, Kept(rows, applied)); Puts(g, Missing(g, rows).value) == Puts(f, rows)
  {
    hide Puts, Missing, Kept;
    var g := Puts(f, Kept(rows, applied));
    var done, whole := Puts(g, Missing(g, rows).value), Puts(f, rows);
    forall k: K ensures (k in done <==> k in whole) && (k in done ==> done[k] == whole[k]) {
      RecoveredAt(f, rows, applied, k);
    }
  }

  lemma NoKeyBelow<K, C>(rows: seq<Row<K, C>>, sub: seq<Row<K, C>>, k: K)
    requires DrawnFrom(rows, sub) && !HasKey(rows, k)
    ensures !HasKey(sub, k)
  {
    forall i | 0 <= i < |sub| ensures sub[i].key != k {
      assert sub[i] in rows;
    }
  }

  // ---------- The writer ----------

  const BATCH: nat := 500
  const ATTEMPTS: nat := 3

  /** What becomes of one write: stored and acknowledged; response lost after storing part of it, then settled; lost
      with the write still running; or the writer itself dies. */
  datatype Attempt<K> = Accepted | Lost(applied: set<K>) | Unsettled(applied: set<K>) | Killed(applied: set<K>)

  datatype Outcome = Done | DuplicateKeys | Conflict | GaveUp | StillRunning | Died

  /** One write sent: its rows, the stored rows when it was sent, and whether it was a retry. */
  datatype Send<K, C> = Send(batch: seq<Row<K, C>>, stored: seq<Row<K, C>>, retry: bool)

  /** Sends are bounded in size, and a retry carries no row already verified in the table. */
  ghost predicate GoodSend<K, C>(s: Send<K, C>) {
    && 0 < |s.batch| <= BATCH
    && (s.retry ==> forall i :: 0 <= i < |s.batch| ==> !Verified(Puts(map[], s.stored), s.batch[i]))
  }

  ghost predicate GoodSends<K, C>(sent: seq<Send<K, C>>) {
    forall i :: 0 <= i < |sent| ==> GoodSend(sent[i])
  }

  /** Everything stored since comes from the given rows. */
  ghost predicate Extends<K, C>(before: seq<Row<K, C>>, after: seq<Row<K, C>>, rows: seq<Row<K, C>>) {
    |before| <= |after| && after[..|before|] == before && DrawnFrom(rows, after[|before|..])
  }

  lemma ExtendsThen<K, C>(a: seq<Row<K, C>>, b: seq<Row<K, C>>, c: seq<Row<K, C>>, some: seq<Row<K, C>>, rows: seq<Row<K, C>>)
    requires Extends(a, b, rows) && Extends(b, c, some) && DrawnFrom(rows, some)
    ensures Extends(a, c, rows)
  {
    assert c[..|a|] == c[..|b|][..|a|];
    forall i | 0 <= i < |c[|a|..]| ensures c[|a|..][i] in rows {
      if |a| + i < |b| {
        assert c[|a|..][i] == c[..|b|][|a| + i] == b[|a|..][i];
      } else {
        assert c[|a|..][i] == c[|b|..][|a| + i - |b|];
        assert c[|b|..][|a| + i - |b|] in some;
      }
    }
  }

  predicate Distinct<K(==), C>(rows: seq<Row<K, C>>)
    ensures Distinct(rows) <==> UniqueKeys(rows)
  {
    if rows == [] then true
    else
      var n := |rows| - 1;
      assert rows == rows[..n] + [rows[n]];
      Distinct(rows[..n]) && forall i :: 0 <= i < n ==> rows[i].key != rows[n].key
  }

  class Writer<K(==,!new), C(==)> {
    var store: seq<Row<K, C>>
    var fate: seq<Attempt<K>>
    var sent: seq<Send<K, C>>

    constructor (fate: seq<Attempt<K>>)
      ensures store == [] && this.fate == fate && sent == []
    {
      store, sent := [], [];
      this.fate := fate;
    }

    /** The table as read back: one row a key, the highest revision, the newest of equals. */
    ghost function Table(): map<K, Row<K, C>>
      reads this
    {
      Puts(map[], store)
    }

    /** No response is going to be lost. */
    predicate Accepting()
      reads this
    {
      forall i :: 0 <= i < |fate| ==> fate[i].Accepted?
    }

    /** One write meets its fate. */
    method Write(rows: seq<Row<K, C>>, retry: bool) returns (attempt: Attempt<K>)
      requires UniqueKeys(rows)
      modifies this
      ensures sent == old(sent) + [Send(rows, old(store), retry)]
      ensures store == old(store) + (if attempt.Accepted? then rows else Kept(rows, attempt.applied))
      ensures Extends(old(store), store, rows)
      ensures old(Accepting()) ==> attempt.Accepted? && Accepting()
    {
      sent := sent + [Send(rows, store, retry)];
      attempt := Accepted;
      if fate != [] {
        attempt := fate[0];
        fate := fate[1..];
      }
      KeptIs(rows, if attempt.Accepted? then {} else attempt.applied);
      store := store + if attempt.Accepted? then rows else Kept(rows, attempt.applied);
    }

    /** Reads the batch's keys back and keeps what is still to be written; a conflict stops the writer. */
    method Recover(ghost before: seq<Row<K, C>>, pending: seq<Row<K, C>>, applied: set<K>) returns (rest: Option<seq<Row<K, C>>>)
      requires UniqueKeys(pending) && store == before + Kept(pending, applied)
      ensures rest.None? <==> exists i :: 0 <= i < |pending| && Conflicts(Table(), pending[i])
      ensures rest.Some? ==>
        && UniqueKeys(rest.value) && DrawnFrom(pending, rest.value) && |rest.value| <= |pending|
        && (forall i :: 0 <= i < |rest.value| ==> !Verified(Table(), rest.value[i]))
        && Puts(Table(), rest.value) == Puts(Puts(map[], before), pending)
    {
      hide Puts, Missing, Kept;
      PutsConcat(map[], before, Kept(pending, applied));
      rest := Missing(Puts(map[], store), pending);
      MissingIs(Table(), pending);
      if rest.Some? {
        RecoveryCompletes(Puts(map[], before), pending, applied);
        forall i | 0 <= i < |rest.value| ensures !Verified(Table(), rest.value[i]) {
          assert rest.value[i] in pending && rest.value[i] in rest.value;
        }
      }
    }

    /** At most three sends; success means the table is exactly what one clean write of the batch makes it; a conflict
        means a different row of equal or higher revision is stored; any failure leaves only rows of the batch behind. */
    method InsertBatch(batch: seq<Row<K, C>>) returns (outcome: Outcome)
      requires 0 < |batch| <= BATCH
      modifies this
      ensures old(sent) <= sent && |sent| <= |old(sent)| + ATTEMPTS && (GoodSends(old(sent)) ==> GoodSends(sent))
      ensures Extends(old(store), store, batch)
      ensures outcome == DuplicateKeys <==> !UniqueKeys(batch)
      ensures outcome == Done ==> Table() == Puts(old(Table()), batch)
      ensures outcome == Conflict ==> exists r :: r in batch && Conflicts(Table(), r)
      ensures old(Accepting()) ==> Accepting() && (UniqueKeys(batch) ==> outcome == Done)
    {
      if !Distinct(batch) {
        return DuplicateKeys;
      }
      var pending := batch;
      ghost var goal := Puts(Table(), batch);
      var attempt := 0;
      while attempt < ATTEMPTS
        invariant 0 <= attempt <= ATTEMPTS && |sent| == |old(sent)| + attempt && old(sent) <= sent
        invariant GoodSends(old(sent)) ==> GoodSends(sent)
        invariant UniqueKeys(pending) && DrawnFrom(batch, pending) && 0 < |pending| <= BATCH
        invariant attempt > 0 ==> forall i :: 0 <= i < |pending| ==> !Verified(Table(), pending[i])
        invariant Extends(old(store), store, batch)
        invariant Puts(Table(), pending) == goal
        invariant old(Accepting()) ==> Accepting() && attempt == 0
      {
        hide Puts, Missing, Kept, GoodSend, Conflicts, Verified, Extends;
        ghost var before := store;
        var result := Write(pending, attempt > 0);
        ExtendsThen(old(store), before, store, pending, batch);
        GoodRetry(before, pending, attempt > 0);
        if result.Accepted? {
          PutsConcat(map[], before, pending);
          return Done;
        }
        if result.Unsettled? {
          return StillRunning;
        }
        if result.Killed? {
          return Died;
        }
        var rest := Recover(before, pending, result.applied);
        if rest.None? {
          ghost var i :| 0 <= i < |pending| && Conflicts(Table(), pending[i]);
          assert pending[i] in batch;
          return Conflict;
        }
        if rest.value == [] {
          NothingLeft(Table(), rest.value);
          return Done;
        }
        pending := rest.value;
        attempt := attempt + 1;
      }
      return GaveUp;
    }

    /** Batches in order: success means the table is exactly what one clean write of all rows makes it; any end leaves
        only rows given here behind, after at most three sends a batch; when no response is lost it succeeds. */
    method Insert(rows: seq<Row<K, C>>) returns (outcome: Outcome)
      modifies this
      ensures old(sent) <= sent && |sent| <= |old(sent)| + ATTEMPTS * ((|rows| + BATCH - 1) / BATCH)
      ensures GoodSends(old(sent)) ==> GoodSends(sent)
      ensures Extends(old(store), store, rows)
      ensures outcome == Done ==> Table() == Puts(old(Table()), rows)
      ensures outcome == Conflict ==> exists r :: r in rows && Conflicts(Table(), r)
      ensures outcome == DuplicateKeys ==> !UniqueKeys(rows)
      ensures old(Accepting()) ==> Accepting() && (UniqueKeys(rows) ==> outcome == Done)
    {
      hide Puts, GoodSends, Conflicts;
      NothingLeft(Table(), rows[..0]);
      var offset := 0;
      ghost var batches := 0;
      while offset < |rows|
        invariant 0 <= offset <= |rows|
        invariant batches * BATCH == offset || (offset == |rows| && batches == (|rows| + BATCH - 1) / BATCH)
        invariant old(sent) <= sent && |sent| <= |old(sent)| + ATTEMPTS * batches
        invariant GoodSends(old(sent)) ==> GoodSends(sent)
        invariant Extends(old(store), store, rows)
        invariant Table() == Puts(old(Table()), rows[..offset])
        invariant old(Accepting()) ==> Accepting()
      {
        var next := if offset + BATCH <= |rows| then offset + BATCH else |rows|;
        var batch := rows[offset..next];
        ghost var before := store;
        outcome := InsertBatch(batch);
        SliceDrawn(rows, offset, next);
        ExtendsThen(old(store), before, store, batch, rows);
        batches := batches + 1;
        if outcome != Done {
          return;
        }
        PutsConcat(old(Table()), rows[..offset], batch);
        assert rows[..offset] + batch == rows[..next];
        offset := next;
      }
      assert rows[..offset] == rows;
      return Done;
    }
  }

  lemma SliceDrawn<K, C>(rows: seq<Row<K, C>>, from: nat, to: nat)
    requires from <= to <= |rows|
    ensures DrawnFrom(rows, rows[from..to])
    ensures UniqueKeys(rows) ==> UniqueKeys(rows[from..to])
  {
  }

  // ---------- What a finished insert promises ----------

  /** The key holds this row, or keeps the higher revision that was already there. */
  ghost predicate HoldsOrHigher<K, C>(f: map<K, Row<K, C>>, g: map<K, Row<K, C>>, r: Row<K, C>) {
    && r.key in g
    && (g[r.key] == r || (r.key in f && f[r.key].revision > r.revision && g[r.key] == f[r.key]))
  }

  /** After a finished insert every row's key holds that row or a higher revision, and no other key changes. */
  lemma FinishedInsert<K(!new), C>(f: map<K, Row<K, C>>, rows: seq<Row<K, C>>)
    requires UniqueKeys(rows)
    ensures forall i :: 0 <= i < |rows| ==> HoldsOrHigher(f, Puts(f, rows), rows[i])
    ensures forall k :: !HasKey(rows, k) ==> (k in Puts(f, rows) <==> k in f)
    ensures forall k :: !HasKey(rows, k) && k in f ==> Puts(f, rows)[k] == f[k]
  {
    hide Puts;
    forall i | 0 <= i < |rows| ensures HoldsOrHigher(f, Puts(f, rows), rows[i]) {
      PutsAt(f, rows, i);
    }
    forall k | !HasKey(rows, k)
      ensures (k in Puts(f, rows) <==> k in f) && (k in f ==> Puts(f, rows)[k] == f[k])
    {
      PutsElsewhere(f, rows, k);
    }
  }

  predicate Stops<K(==), C(==)>(f: map<K, Row<K, C>>, r: Row<K, C>, applied: set<K>) {
    r.key in f && (f[r.key].revision > r.revision || (Conflicts(f, r) && r.key !in applied))
  }

  /** A clean write never fails on a superseded row, but recovery does: after a lost response the writer stops exactly
      when some row was already superseded, or had a different equal revision that the lost write did not replace. */
  lemma RecoveryStopsIff<K, C>(f: map<K, Row<K, C>>, rows: seq<Row<K, C>>, applied: set<K>)
    requires UniqueKeys(rows)
    ensures Missing(Puts(f, Kept(rows, applied)), rows).None? <==>
      exists i :: 0 <= i < |rows| && Stops(f, rows[i], applied)
  {
    hide Puts, Kept, Missing;
    var kept := Kept(rows, applied);
    var g := Puts(f, kept);
    MissingIs(g, rows);
    KeptIs(rows, applied);
    forall i | 0 <= i < |rows|
      ensures Conflicts(g, rows[i]) <==> Stops(f, rows[i], applied)
    {
      if rows[i].key in applied {
        PutsRow(f, kept, rows[i]);
      } else {
        OutsideSub(rows, kept, rows[i]);
        PutsElsewhere(f, kept, rows[i].key);
      }
    }
  }

  lemma NothingLeft<K, C>(f: map<K, Row<K, C>>, rows: seq<Row<K, C>>)
    requires rows == []
    ensures Puts(f, rows) == f
  {
  }

  lemma GoodRetry<K, C>(stored: seq<Row<K, C>>, batch: seq<Row<K, C>>, retry: bool)
    requires 0 < |batch| <= BATCH
    requires retry ==> forall i :: 0 <= i < |batch| ==> !Verified(Puts(map[], stored), batch[i])
    ensures GoodSend(Send(batch, stored, retry))
  {
  }
}
