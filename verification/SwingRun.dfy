/** The recoverable day loop: split restatements, interval closing, the session marker last, resume from any crash. */
module SwingRun {
  import opened Common
  import opened CheckpointWrites
  import opened SwingHistory
  import opened SwingReads

  /** A session marker: the closing state's hash stands for the state itself. */
  datatype Mark = Mark(closedAt: int, sequence: nat, close: real, stateHash: Seed)

  type MarkRow = Row<nat, Mark>

  datatype Audit = Audit(factor: real, affected: nat, before: seq<BookRow>, after: seq<BookRow>)

  const HOUR := 3600000000

  /** Close of the last regular-hours bar: regular trading ends four hours before the session does. */
  function PriorClose(day: Day, n: nat): real
    requires n <= |day.bars|
  {
    if n == 0 then 0.0
    else
      var b := day.bars[n - 1];
      var close := day.closing - 4 * HOUR;
      if 2 * (b.time - close) > -13 * HOUR && b.time <= close then b.close else PriorClose(day, n - 1)
  }

  function MarkOf(plan: Plan, n: nat): MarkRow
    requires n < |plan.days|
  {
    var seed := SeedAfter(plan, n + 1).value;
    Row(plan.days[n].session, 1, Mark(seed.closedAt, seed.sequence, PriorClose(plan.days[n], |plan.days[n].bars|), seed))
  }

  // ---------- What the tables hold between any two writes ----------

  /** The book holds only rows of the history, and all of its first m versions. */
  ghost predicate BookOk(vs: seq<Version>, store: seq<BookRow>, m: nat) {
    m <= |vs| && OnlyWritten(vs, store) && Covers(vs, Puts(map[], store), m)
  }

  /** Exactly the first n sessions are marked complete. */
  ghost predicate MarkedAt(plan: Plan, table: map<nat, MarkRow>, d: nat)
    requires d < |plan.days|
  {
    var r := MarkOf(plan, d);
    r.key in table && table[r.key] == r
  }

  ghost predicate MarksOk(plan: Plan, table: map<nat, MarkRow>, n: nat) {
    && n <= |plan.days|
    && (forall d: nat :: d < n ==> MarkedAt(plan, table, d))
    && (forall k :: k in table ==> exists d: nat :: d < n && plan.days[d].session == k)
  }

  /** A marker is never ahead of its closing rows. */
  ghost predicate Saved(plan: Plan, book: seq<BookRow>, marks: map<nat, MarkRow>, n: nat) {
    && ValidPlan(plan) && MarksOk(plan, marks, n)
    && BookOk(Versions(plan), book, |VersionsAfter(plan, n)|)
  }

  /** The rows carried forward are those of the last covered version. */
  ghost predicate CarriesLast(previous: seq<BookRow>, vs: seq<Version>, m: nat) {
    m <= |vs| && if m == 0 then previous == [] else Carries(previous, vs[m - 1])
  }

  function OpenRows(at: int, levels: seq<Level>): seq<BookRow> {
    seq(|levels|, j requires 0 <= j < |levels| => OpenRow(at, levels[j]))
  }

  function ClosedRows(rows: seq<BookRow>, until: int): seq<BookRow> {
    seq(|rows|, j requires 0 <= j < |rows| => Row(rows[j].key, 2, Content(rows[j].content.level, Some(until))))
  }

  /** The carried rows restated at a split. */
  function Adjusted(rows: seq<BookRow>, ratio: real, at: int): seq<BookRow> {
    seq(|rows|, j requires 0 <= j < |rows| =>
      Row(Key(at, rows[j].key.id), 1, Content(Scaled(rows[j].content.level, ratio), None)))
  }

  lemma OpenRowsAreWritten(vs: seq<Version>, m: nat)
    requires WellFormed(vs) && m < |vs|
    ensures var rows := OpenRows(vs[m].at, vs[m].levels);
      && (forall j :: 0 <= j < |rows| ==> Written(vs, rows[j]))
      && UniqueKeys(rows) && CarriesLast(rows, vs, m + 1)
  {
    var rows := OpenRows(vs[m].at, vs[m].levels);
    forall j | 0 <= j < |rows| ensures Written(vs, rows[j]) {
      assert WrittenAt(vs, rows[j], m, j);
    }
    assert Ordered(vs[m].levels);
  }

  lemma ClosedRowsAreWritten(vs: seq<Version>, m: nat, previous: seq<BookRow>)
    requires WellFormed(vs) && m < |vs| && CarriesLast(previous, vs, m)
    ensures var rows := ClosedRows(previous, vs[m].at);
      && (forall j :: 0 <= j < |rows| ==> Written(vs, rows[j]))
      && UniqueKeys(rows)
  {
    var rows := ClosedRows(previous, vs[m].at);
    if m > 0 {
      forall j | 0 <= j < |rows| ensures Written(vs, rows[j]) {
        assert rows[j] == ClosedRow(vs[m - 1].at, vs[m - 1].levels[j], vs[m].at);
        assert WrittenAt(vs, rows[j], m - 1, j);
      }
      assert Ordered(vs[m - 1].levels);
    }
  }

  lemma HoldsGrows(v: Version, f: map<Key, BookRow>, more: seq<BookRow>, revision: nat)
    requires Holds(v, f, revision)
    ensures Holds(v, Puts(f, more), revision)
  {
    forall j | 0 <= j < |v.levels|
      ensures var k := Key(v.at, v.levels[j].id); k in Puts(f, more) && Puts(f, more)[k].revision >= revision
    {
      PutsOnlyRaise(f, more, Key(v.at, v.levels[j].id));
    }
  }

  /** However a write of history rows ends, the book stays sound and keeps what it covered. */
  lemma WriteKeepsBook(vs: seq<Version>, before: seq<BookRow>, after: seq<BookRow>, rows: seq<BookRow>, m: nat)
    requires BookOk(vs, before, m) && Extends(before, after, rows)
    requires forall j :: 0 <= j < |rows| ==> Written(vs, rows[j])
    ensures BookOk(vs, after, m)
  {
    var more := after[|before|..];
    assert after == before + more;
    PutsConcat(map[], before, more);
    forall i | 0 <= i < |after| ensures Written(vs, after[i]) {
      if i < |before| {
        assert after[i] == before[i];
      } else {
        assert after[i] == more[i - |before|] && more[i - |before|] in rows;
      }
    }
    forall i | 0 <= i < m ensures Holds(vs[i], Puts(map[], after), if i + 1 < m then 2 else 1) {
      assert Holds(vs[i], Puts(map[], before), if i + 1 < m then 2 else 1);
      HoldsGrows(vs[i], Puts(map[], before), more, if i + 1 < m then 2 else 1);
    }
  }

  lemma WrittenHolds(v: Version, f: map<Key, BookRow>, rows: seq<BookRow>, revision: nat)
    requires UniqueKeys(rows) && |rows| == |v.levels|
    requires forall j :: 0 <= j < |rows| ==> rows[j].key == Key(v.at, v.levels[j].id) && rows[j].revision == revision
    ensures Holds(v, Puts(f, rows), revision)
  {
    FinishedInsert(f, rows);
    hide Puts;
    forall j | 0 <= j < |v.levels|
      ensures var k := Key(v.at, v.levels[j].id); k in Puts(f, rows) && Puts(f, rows)[k].revision >= revision
    {
      assert HoldsOrHigher(f, Puts(f, rows), rows[j]);
    }
  }

  /** Closing the last version and opening the next covers one version more. */
  lemma NextCovered(vs: seq<Version>, table: map<Key, BookRow>, m: nat)
    requires m < |vs| && Covers(vs, table, m)
    requires m > 0 ==> Holds(vs[m - 1], table, 2)
    requires Holds(vs[m], table, 1)
    ensures Covers(vs, table, m + 1)
  {
    hide Holds;
    forall i | 0 <= i < m + 1 ensures Holds(vs[i], table, if i + 1 < m + 1 then 2 else 1) {
      if i + 1 < m {
        assert Holds(vs[i], table, 2);
      }
    }
  }

  // ---------- Reopening a version that was already closed ----------

  /** Some level of a version is already stored as closed. */
  ghost predicate ClosedAlready(v: Version, table: map<Key, BookRow>) {
    exists j :: 0 <= j < |v.levels| && Key(v.at, v.levels[j].id) in table && table[Key(v.at, v.levels[j].id)].revision > 1
  }

  /** Whatever the runs before left in the book, a version opened again by a write whose response is lost stops the writer
      exactly when a level of it was already closed: its own later closing counts as a conflict. */
  lemma ReopeningStopsIff(vs: seq<Version>, store: seq<BookRow>, m: nat, applied: set<Key>)
    requires WellFormed(vs) && OnlyWritten(vs, store) && m < |vs|
    ensures var table, rows := Puts(map[], store), OpenRows(vs[m].at, vs[m].levels);
      Missing(Puts(table, Kept(rows, applied)), rows).None? <==> ClosedAlready(vs[m], table)
  {
    hide Puts, Kept, Missing, Written;
    var table, rows := Puts(map[], store), OpenRows(vs[m].at, vs[m].levels);
    OpenRowsAreWritten(vs, m);
    StoredRows(vs, store);
    RecoveryStopsIff(table, rows, applied);
    forall j | 0 <= j < |rows| ensures Stops(table, rows[j], applied) <==> rows[j].key in table && table[rows[j].key].revision > 1 {
      var r := rows[j];
      assert Written(vs, r);
      if r.key in table && table[r.key].revision <= 1 {
        RevisionsAreOneOrTwo(vs, table[r.key]);
        OneRowPerRevision(vs, table[r.key], r);
      }
    }
    if ClosedAlready(vs[m], table) {
      var j :| 0 <= j < |vs[m].levels| && Key(vs[m].at, vs[m].levels[j].id) in table
               && table[Key(vs[m].at, vs[m].levels[j].id)].revision > 1;
      assert Stops(table, rows[j], applied);
    }
    if i :| 0 <= i < |rows| && Stops(table, rows[i], applied) {
      assert rows[i].key == Key(vs[m].at, vs[m].levels[i].id);
    }
  }

  lemma RevisionsAreOneOrTwo(vs: seq<Version>, r: BookRow)
    requires Written(vs, r)
    ensures r.revision == 1 || r.revision == 2
  {
  }

  /** The state a run leaves that restates its carried rows at a split, closes the restated version and dies before opening
      the next: sound, no session lost, and yet resuming it reopens a closed version. */
  lemma DiedAfterClosing(vs: seq<Version>, before: seq<BookRow>, m: nat, previous: seq<BookRow>, applied: set<Key>)
    requires WellFormed(vs) && BookOk(vs, before, m) && CarriesLast(previous, vs, m)
    requires m + 1 < |vs| && vs[m].levels != []
    ensures var rows := OpenRows(vs[m].at, vs[m].levels);
      var store := before + (ClosedRows(previous, vs[m].at) + rows + ClosedRows(rows, vs[m + 1].at));
      && BookOk(vs, store, m)
      && Missing(Puts(Puts(map[], store), Kept(rows, applied)), rows).None?
  {
    hide Puts, Kept, Missing, Written, BookOk, CarriesLast, WellFormed;
    var rows := OpenRows(vs[m].at, vs[m].levels);
    var closed, reclosed := ClosedRows(previous, vs[m].at), ClosedRows(rows, vs[m + 1].at);
    var more := closed + rows + reclosed;
    OpenRowsAreWritten(vs, m);
    ClosedRowsAreWritten(vs, m, previous);
    ClosedRowsAreWritten(vs, m + 1, rows);
    forall j | 0 <= j < |more| ensures Written(vs, more[j]) {
      if j < |closed| {
        assert more[j] == closed[j];
      } else if j < |closed| + |rows| {
        assert more[j] == rows[j - |closed|];
      } else {
        assert more[j] == reclosed[j - |closed| - |rows|];
      }
    }
    WriteKeepsBook(vs, before, before + more, more, m);
    assert before + more == before + (closed + rows) + reclosed;
    PutsConcat(map[], before + (closed + rows), reclosed);
    WrittenHolds(vs[m], Puts(map[], before + (closed + rows)), reclosed, 2);
    assert Key(vs[m].at, vs[m].levels[0].id) in Puts(map[], before + more);
    assert ClosedAlready(vs[m], Puts(map[], before + more));
    BookIsWritten(vs, before + more, m);
    ReopeningStopsIff(vs, before + more, m, applied);
  }

  lemma BookIsWritten(vs: seq<Version>, store: seq<BookRow>, m: nat)
    requires BookOk(vs, store, m)
    ensures OnlyWritten(vs, store)
  {
  }

  // ---------- Restatement indices ----------

  lemma {:induction false} RestatedAt(levels: seq<Level>, splits: seq<Split>, k: nat)
    requires k < |splits|
    ensures |Restated(levels, splits)| == |splits|
    ensures Restated(levels, splits)[k]
         == Version(splits[k].at, ScaledAll(if k == 0 then levels else Restated(levels, splits)[k - 1].levels, splits[k].ratio))
    decreases |splits|
  {
    var adjusted := ScaledAll(levels, splits[0].ratio);
    if |splits| > 1 {
      RestatedAt(adjusted, splits[1..], if k == 0 then 0 else k - 1);
      if k > 1 {
        assert Restated(levels, splits)[k - 1] == Restated(adjusted, splits[1..])[k - 2];
      }
    }
  }

  lemma InPrefix<T>(a: seq<T>, b: seq<T>, i: nat)
    requires a <= b && i < |a|
    ensures i < |b| && b[i] == a[i]
  {
  }

  /** The k-th version a session adds to the history. */
  lemma DayVersionAt(plan: Plan, n: nat, k: nat)
    requires n < |plan.days|
    requires k < |DayVersions(plan, SeedAfter(plan, n), plan.days[n])|
    ensures var m := |VersionsAfter(plan, n)|;
      && m + |DayVersions(plan, SeedAfter(plan, n), plan.days[n])| == |VersionsAfter(plan, n + 1)| <= |Versions(plan)|
      && Versions(plan)[m + k] == DayVersions(plan, SeedAfter(plan, n), plan.days[n])[k]
  {
    var m, day := |VersionsAfter(plan, n)|, DayVersions(plan, SeedAfter(plan, n), plan.days[n]);
    assert VersionsAfter(plan, n + 1) == VersionsAfter(plan, n) + day;
    hide VersionsAfter, SeedAfter, DayVersions;
    HistoryPrefix(plan, n + 1, |plan.days|);
    InPrefix(VersionsAfter(plan, n + 1), Versions(plan), m + k);
  }

  /** The last version before a session is the previous closing state. */
  lemma LastVersion(plan: Plan, n: nat)
    requires ValidPlan(plan) && n <= |plan.days|
    ensures n > 0 ==> SeedAfter(plan, n).Some?
    ensures var m := |VersionsAfter(plan, n)|;
      && m <= |Versions(plan)| && (n == 0 ==> m == 0)
      && (n > 0 ==> m > 0 && Versions(plan)[m - 1] == Version(plan.days[n - 1].closing, SeedAfter(plan, n).value.levels))
  {
    HistoryPrefix(plan, n, |plan.days|);
    if n > 0 {
      HistorySpans(plan, n, plan.days[0].closing - 1);
      var m := |VersionsAfter(plan, n)|;
      assert Versions(plan)[m - 1] == VersionsAfter(plan, n)[m - 1];
    }
  }

  // ---------- The run ----------

  datatype Finish = Finished | WriteFailed(outcome: Outcome) | HashMismatch | InvalidInterval | MissingSessions

  class Builder {
    const plan: Plan
    const book: Writer<Key, Content>
    const sessions: Writer<nat, Mark>
    const audit: Writer<int, Audit>

    constructor (plan: Plan, book: Writer<Key, Content>, sessions: Writer<nat, Mark>, audit: Writer<int, Audit>)
      ensures this.plan == plan && this.book == book && this.sessions == sessions && this.audit == audit
    {
      this.plan, this.book, this.sessions, this.audit := plan, book, sessions, audit;
    }

    /** Closes the carried rows where the next version starts, then opens that version. */
    method WriteVersion(ghost vs: seq<Version>, ghost m: nat, previous: seq<BookRow>, at: int, rows: seq<BookRow>)
      returns (outcome: Outcome)
      requires WellFormed(vs) && BookOk(vs, book.store, m) && CarriesLast(previous, vs, m)
      requires m < |vs| && at == vs[m].at && rows == OpenRows(vs[m].at, vs[m].levels)
      modifies book
      ensures BookOk(vs, book.store, m)
      ensures outcome == Done ==> BookOk(vs, book.store, m + 1)
      ensures old(book.Accepting()) ==> outcome == Done && book.Accepting()
    {
      hide Puts, Covers, OnlyWritten, CarriesLast, WellFormed, OpenRows, ClosedRows, Extends, Conflicts, UniqueKeys, Written;
      var closed := ClosedRows(previous, at);
      ClosedRowsAreWritten(vs, m, previous);
      OpenRowsAreWritten(vs, m);
      ghost var before := book.store;
      outcome := book.Insert(closed);
      WriteKeepsBook(vs, before, book.store, closed, m);
      if outcome != Done {
        return;
      }
      ghost var middle := book.store;
      ClosedHolds(vs, m, previous, Puts(map[], before));
      outcome := book.Insert(rows);
      WriteKeepsBook(vs, middle, book.store, rows, m);
      if outcome == Done {
        OpenedCovers(vs, m, Puts(map[], middle), book.store, rows);
      }
    }

    /** The three tables are different objects. */
    predicate Separate() {
      var b: object, s: object, a: object := book, sessions, audit;
      b != s && s != a && b != a
    }

    /** No response from any of the tables is going to be lost. */
    predicate Accepting()
      reads book, sessions, audit
    {
      book.Accepting() && sessions.Accepting() && audit.Accepting()
    }

    /** Restates the carried rows at each split in turn, leaving an audit row for each. */
    method ApplySplits(ghost n: nat, splits: seq<Split>, carried: seq<BookRow>)
      returns (outcome: Outcome, previous: seq<BookRow>)
      requires Separate() && ValidPlan(plan) && n < |plan.days|
      requires splits == Applicable(plan.splits, SeedAfter(plan, n), plan.days[n])
      requires BookOk(Versions(plan), book.store, |VersionsAfter(plan, n)|)
      requires CarriesLast(carried, Versions(plan), |VersionsAfter(plan, n)|)
      modifies book, audit
      ensures BookOk(Versions(plan), book.store, |VersionsAfter(plan, n)|)
      ensures outcome == Done ==>
        && BookOk(Versions(plan), book.store, |VersionsAfter(plan, n)| + |splits|)
        && CarriesLast(previous, Versions(plan), |VersionsAfter(plan, n)| + |splits|)
      ensures old(Accepting()) ==> outcome == Done && Accepting()
    {
      hide VersionsAfter, SeedAfter, Applicable, BookOk, CarriesLast, Extends, UniqueKeys, Conflicts, GoodSends, Puts;
      ghost var vs, m := Versions(plan), |VersionsAfter(plan, n)|;
      HistoryWellFormed(plan, |plan.days|);
      previous := carried;
      var k := 0;
      while k < |splits|
        invariant 0 <= k <= |splits|
        invariant BookOk(vs, book.store, m + k) && CarriesLast(previous, vs, m + k)
        invariant old(Accepting()) ==> Accepting()
      {
        var at, ratio := splits[k].at, splits[k].ratio;
        var adjusted := Adjusted(previous, ratio, at);
        AdjustedIsNext(plan, n, k, previous);
        outcome := WriteVersion(vs, m + k, previous, at, adjusted);
        OpenedCarry(vs, m + k);
        if outcome != Done {
          CoversFewer(vs, book.store, m, m + k);
          return;
        }
        var row := Row(at, 1, Audit(ratio, |adjusted|, previous, adjusted));
        OneKey(row);
        outcome := audit.Insert([row]);
        if outcome != Done {
          CoversFewer(vs, book.store, m, m + k + 1);
          return;
        }
        previous := adjusted;
        k := k + 1;
      }
      CoversFewer(vs, book.store, m, m + k);
      outcome := Done;
    }

    method FactorOf(splits: seq<Split>) returns (factor: real)
      ensures factor == Factor(splits)
    {
      factor := 1.0;
      var k := 0;
      while k < |splits|
        invariant 0 <= k <= |splits| && factor == Factor(splits[..k])
      {
        assert splits[..k + 1][..k] == splits[..k];
        factor := factor * splits[k].ratio;
        k := k + 1;
      }
      assert splits[..k] == splits;
    }

    /** One uncommitted session: splits, engine, closing rows, read-back check, and only then the marker. */
    method ProcessDay(n: nat, seed: Option<Seed>, carried: seq<BookRow>)
      returns (finish: Finish, next: Option<Seed>, previous: seq<BookRow>, ghost after: nat)
      requires Separate() && n < |plan.days| && Saved(plan, book.store, sessions.Table(), n)
      requires seed == SeedAfter(plan, n) && CarriesLast(carried, Versions(plan), |VersionsAfter(plan, n)|)
      modifies book, sessions, audit
      ensures n <= after <= n + 1 && Saved(plan, book.store, sessions.Table(), after)
      ensures finish == Finished || finish.WriteFailed?
      ensures finish == Finished ==>
        && after == n + 1 && next == SeedAfter(plan, n + 1)
        && CarriesLast(previous, Versions(plan), |VersionsAfter(plan, n + 1)|)
      ensures old(Accepting()) ==> finish == Finished && Accepting()
    {
      hide VersionsAfter, SeedAfter, BookOk, CarriesLast, Applicable, Extends, UniqueKeys, Conflicts, GoodSends, Puts,
        MarksOk, OpenRows, ReadAt;
      ghost var vs, m := Versions(plan), |VersionsAfter(plan, n)|;
      after := n;
      next, previous := seed, carried;
      var day := plan.days[n];
      var splits := Applicable(plan.splits, seed, day);
      var factor := FactorOf(splits);
      var outcome;
      outcome, previous := ApplySplits(n, splits, carried);
      if outcome != Done {
        return WriteFailed(outcome), next, previous, after;
      }
      var closing := plan.engine(seed, day, factor);
      var state := Seed(day.closing, closing.sequence, closing.levels);
      var rows := OpenRows(day.closing, state.levels);
      ClosingIsNext(plan, n, state);
      HistoryWellFormed(plan, |plan.days|);
      outcome := WriteVersion(vs, m + |splits|, previous, day.closing, rows);
      if outcome != Done {
        CoversFewer(vs, book.store, m, m + |splits|);
        return WriteFailed(outcome), next, previous, after;
      }
      var persisted := ReadAt(book.store, day.closing);
      ReadBack(vs, book.store, m + |splits|);
      if state != state.(levels := Levels(persisted)) {
        return HashMismatch, next, previous, after;
      }
      var mark := Row(day.session, 1, Mark(day.closing, state.sequence, PriorClose(day, |day.bars|), state));
      CoversFewer(vs, book.store, m, m + |splits| + 1);
      ghost var before := sessions.store;
      OneKey(mark);
      outcome := sessions.Insert([mark]);
      after := MarkLands(plan, n, before, sessions.store);
      if outcome != Done {
        return WriteFailed(outcome), next, previous, after;
      }
      MarkLanded(plan, n, Puts(map[], before));
      after := n + 1;
      OpenedCarry(vs, m + |splits|);
      next, previous, finish := Some(state), rows, Finished;
    }

    /** One committed session: its rows are read back and checked against its marker. */
    method Resume(ghost n: nat, d: nat, done: map<nat, MarkRow>)
      returns (finish: Finish, next: Option<Seed>, previous: seq<BookRow>)
      requires ValidPlan(plan) && d < n <= |plan.days| && MarksOk(plan, done, n) && plan.days[d].session in done
      requires BookOk(Versions(plan), book.store, |VersionsAfter(plan, n)|)
      ensures finish == Finished && next == SeedAfter(plan, d + 1)
      ensures CarriesLast(previous, Versions(plan), |VersionsAfter(plan, d + 1)|)
    {
      hide VersionsAfter, BookOk, ReadAt, Puts;
      var mark := done[plan.days[d].session].content;
      assert MarkedAt(plan, done, d);
      previous := ReadAt(book.store, mark.closedAt);
      CommittedReadsBack(plan, book.store, n, d);
      var seed := Seed(mark.closedAt, mark.sequence, Levels(previous));
      if seed != mark.stateHash {
        return HashMismatch, None, previous;
      }
      return Finished, Some(seed), previous;
    }

    /** The day loop from whatever earlier runs left: however it ends the tables are sound and no session is lost; when
        it finishes every session is committed. */
    method Run(ghost start: nat) returns (finish: Finish, ghost after: nat)
      requires Separate() && Saved(plan, book.store, sessions.Table(), start)
      modifies book, sessions, audit
      ensures start <= after && Saved(plan, book.store, sessions.Table(), after)
      ensures finish == Finished ==> after == |plan.days|
      ensures finish == Finished || finish.WriteFailed?
      ensures old(Accepting()) ==> finish == Finished && Accepting()
    {
      hide VersionsAfter, SeedAfter, BookOk, CarriesLast, MarksOk, Puts;
      var done := Puts(map[], sessions.store);
      var seed: Option<Seed>, previous: seq<BookRow> := None, [];
      after := start;
      Beginning(plan);
      var index := 0;
      while index < |plan.days|
        invariant 0 <= index <= |plan.days| && start <= after
        invariant Saved(plan, book.store, sessions.Table(), after)
        invariant after == if index <= start then start else index
        invariant seed == SeedAfter(plan, index)
        invariant CarriesLast(previous, Versions(plan), |VersionsAfter(plan, index)|)
        invariant old(Accepting()) ==> Accepting()
      {
        SavedIsWithin(plan, book.store, sessions.Table(), after);
        DoneIffMarked(plan, done, start, index);
        if plan.days[index].session in done {
          finish, seed, previous := Resume(after, index, done);
        } else {
          finish, seed, previous, after := ProcessDay(index, seed, previous);
          if finish != Finished {
            return;
          }
        }
        index := index + 1;
      }
      SavedIsWithin(plan, book.store, sessions.Table(), after);
      finish := CheckOutput();
    }

    /** The checks of a completed build, which a sound one passes: no empty interval, and one marker a session. */
    method CheckOutput() returns (finish: Finish)
      requires Saved(plan, book.store, sessions.Table(), |plan.days|)
      ensures finish == Finished
    {
      hide Puts, VersionsAfter, MarksOk, BookOk, IsBook;
      FinishedBuild(plan, book.store, sessions.Table());
      BookIntervals(Versions(plan), book.Table());
      MarksCount(plan, sessions.Table());
      var rows, marks := Puts(map[], book.store), Puts(map[], sessions.store);
      if exists k :: k in rows && rows[k].content.validTo.Some? && rows[k].content.validTo.value <= rows[k].key.validFrom {
        return InvalidInterval;
      }
      if |marks| != |plan.days| {
        return MissingSessions;
      }
      return Finished;
    }
  }

  lemma OneKey<K, C>(r: Row<K, C>)
    ensures UniqueKeys([r])
  {
  }

  function Levels(rows: seq<BookRow>): seq<Level> {
    seq(|rows|, j requires 0 <= j < |rows| => rows[j].content.level)
  }

  lemma ClosedHolds(vs: seq<Version>, m: nat, previous: seq<BookRow>, f: map<Key, BookRow>)
    requires WellFormed(vs) && m < |vs| && CarriesLast(previous, vs, m)
    ensures m > 0 ==> Holds(vs[m - 1], Puts(f, ClosedRows(previous, vs[m].at)), 2)
  {
    hide Puts;
    ClosedRowsAreWritten(vs, m, previous);
    if m > 0 {
      WrittenHolds(vs[m - 1], f, ClosedRows(previous, vs[m].at), 2);
    }
  }

  lemma OpenedCovers(vs: seq<Version>, m: nat, f: map<Key, BookRow>, store: seq<BookRow>, rows: seq<BookRow>)
    requires WellFormed(vs) && m < |vs| && rows == OpenRows(vs[m].at, vs[m].levels)
    requires BookOk(vs, store, m) && Puts(map[], store) == Puts(f, rows) && (m > 0 ==> Holds(vs[m - 1], f, 2))
    ensures BookOk(vs, store, m + 1)
  {
    hide Puts, Holds, OnlyWritten;
    OpenRowsAreWritten(vs, m);
    WrittenHolds(vs[m], f, rows, 1);
    if m > 0 {
      HoldsGrows(vs[m - 1], f, rows, 2);
    }
    NextCovered(vs, Puts(map[], store), m);
  }

  /** Covering more versions covers fewer. */
  lemma CoversFewer(vs: seq<Version>, store: seq<BookRow>, m: nat, more: nat)
    requires BookOk(vs, store, more) && m <= more
    ensures BookOk(vs, store, m)
  {
    hide Puts;
    forall i | 0 <= i < m ensures Holds(vs[i], Puts(map[], store), if i + 1 < m then 2 else 1) {
      assert Holds(vs[i], Puts(map[], store), if i + 1 < more then 2 else 1);
    }
  }

  lemma OpenedCarry(vs: seq<Version>, m: nat)
    requires WellFormed(vs) && m < |vs|
    ensures CarriesLast(OpenRows(vs[m].at, vs[m].levels), vs, m + 1)
  {
    OpenRowsAreWritten(vs, m);
  }

  lemma DayRestates(plan: Plan, seed: Option<Seed>, day: Day, k: nat)
    requires k < |Applicable(plan.splits, seed, day)|
    ensures var splits, versions := Applicable(plan.splits, seed, day), DayVersions(plan, seed, day);
      && |versions| == |splits| + 1
      && versions[k].at == splits[k].at
      && versions[k].levels == ScaledAll(if k == 0 then LevelsOf(seed) else versions[k - 1].levels, splits[k].ratio)
  {
    hide Applicable;
    var splits := Applicable(plan.splits, seed, day);
    RestatedAt(LevelsOf(seed), splits, k);
    hide Restated;
    assert DayVersions(plan, seed, day)[k] == Restated(LevelsOf(seed), splits)[k];
    if k > 0 {
      assert DayVersions(plan, seed, day)[k - 1] == Restated(LevelsOf(seed), splits)[k - 1];
    }
  }

  lemma SpliceAt(vs: seq<Version>, day: seq<Version>, m: nat, k: nat, base: seq<Level>, split: Split)
    requires k < |day| && m + |day| <= |vs| && vs[m + k] == day[k]
    requires if k == 0 then m > 0 && vs[m - 1].levels == base else vs[m + k - 1] == day[k - 1]
    requires day[k].at == split.at
    requires day[k].levels == ScaledAll(if k == 0 then base else day[k - 1].levels, split.ratio)
    ensures m + k > 0 && vs[m + k] == Version(split.at, ScaledAll(vs[m + k - 1].levels, split.ratio))
  {
  }

  /** A session's k-th split restates the version before it. */
  lemma SplitVersion(plan: Plan, n: nat, k: nat)
    requires ValidPlan(plan) && n < |plan.days|
    requires k < |Applicable(plan.splits, SeedAfter(plan, n), plan.days[n])|
    ensures var split, m := Applicable(plan.splits, SeedAfter(plan, n), plan.days[n])[k], |VersionsAfter(plan, n)| + k;
      && 0 < m < |Versions(plan)|
      && Versions(plan)[m] == Version(split.at, ScaledAll(Versions(plan)[m - 1].levels, split.ratio))
  {
    hide VersionsAfter, Applicable, ValidPlan, DayVersions, SeedAfter, Versions, ScaledAll;
    NoSplitsBefore(plan, n);
    var seed := SeedAfter(plan, n);
    DayRestates(plan, seed, plan.days[n], k);
    DayVersionAt(plan, n, k);
    LastVersion(plan, n);
    if k > 0 {
      DayVersionAt(plan, n, k - 1);
    }
    SpliceAt(Versions(plan), DayVersions(plan, seed, plan.days[n]), |VersionsAfter(plan, n)|, k, LevelsOf(seed),
             Applicable(plan.splits, seed, plan.days[n])[k]);
  }

  /** The rows restated at a session's k-th split are the history's next version. */
  lemma AdjustedIsNext(plan: Plan, n: nat, k: nat, previous: seq<BookRow>)
    requires ValidPlan(plan) && n < |plan.days|
    requires k < |Applicable(plan.splits, SeedAfter(plan, n), plan.days[n])|
    requires CarriesLast(previous, Versions(plan), |VersionsAfter(plan, n)| + k)
    ensures var splits, m := Applicable(plan.splits, SeedAfter(plan, n), plan.days[n]), |VersionsAfter(plan, n)| + k;
      && m < |Versions(plan)| && Versions(plan)[m].at == splits[k].at
      && Adjusted(previous, splits[k].ratio, splits[k].at) == OpenRows(Versions(plan)[m].at, Versions(plan)[m].levels)
  {
    hide VersionsAfter, Applicable, ValidPlan, SeedAfter, Versions;
    SplitVersion(plan, n, k);
  }

  /** Before the first session there is nothing to restate. */
  lemma NoSplitsBefore(plan: Plan, n: nat)
    requires n < |plan.days|
    ensures n == 0 ==> Applicable(plan.splits, SeedAfter(plan, n), plan.days[n]) == []
  {
  }

  /** The engine's closing state is the session's last version. */
  lemma ClosingIsNext(plan: Plan, n: nat, state: Seed)
    requires ValidPlan(plan) && n < |plan.days| && state == Next(plan, SeedAfter(plan, n), plan.days[n])
    ensures var splits := Applicable(plan.splits, SeedAfter(plan, n), plan.days[n]);
      var m := |VersionsAfter(plan, n)| + |splits|;
      && m + 1 == |VersionsAfter(plan, n + 1)| <= |Versions(plan)|
      && Versions(plan)[m] == Version(plan.days[n].closing, state.levels)
      && SeedAfter(plan, n + 1) == Some(state)
  {
    hide VersionsAfter, Applicable;
    var splits := Applicable(plan.splits, SeedAfter(plan, n), plan.days[n]);
    if splits != [] {
      RestatedAt(LevelsOf(SeedAfter(plan, n)), splits, 0);
    }
    DayVersionAt(plan, n, |splits|);
  }

  lemma ReadBack(vs: seq<Version>, store: seq<BookRow>, i: nat)
    requires WellFormed(vs) && i < |vs| && BookOk(vs, store, i + 1)
    ensures Levels(ReadAt(store, vs[i].at)) == vs[i].levels
    ensures Carries(ReadAt(store, vs[i].at), vs[i])
  {
    hide Puts, ReadAt;
    assert Holds(vs[i], Puts(map[], store), 1);
    ReadCarries(vs, store, i);
  }

  // ---------- Markers ----------

  lemma MarkLanded(plan: Plan, n: nat, table: map<nat, MarkRow>)
    requires ValidPlan(plan) && MarksOk(plan, table, n) && n < |plan.days|
    ensures MarksOk(plan, Puts(table, [MarkOf(plan, n)]), n + 1)
  {
    hide SeedAfter;
    var mark := MarkOf(plan, n);
    assert plan.days[n].session !in table;
    var next := Puts(table, [mark]);
    assert Puts(table, [mark][..0]) == table && next == Put(table, mark);
    forall d: nat | d < n + 1 ensures MarkedAt(plan, next, d) {
      if d < n {
        assert MarkedAt(plan, table, d);
      }
    }
    forall k | k in next ensures exists d: nat :: d < n + 1 && plan.days[d].session == k {
      if k != mark.key {
        var d: nat :| d < n && plan.days[d].session == k;
      }
    }
  }

  lemma {:induction false} PutsSame<K, C>(f: map<K, Row<K, C>>, rows: seq<Row<K, C>>, r: Row<K, C>)
    requires forall i :: 0 <= i < |rows| ==> rows[i] == r
    ensures rows == [] ==> Puts(f, rows) == f
    ensures rows != [] ==> Puts(f, rows) == Puts(f, [r])
    decreases |rows|
  {
    if |rows| > 1 {
      PutsSame(f, rows[..|rows| - 1], r);
      assert Puts(f, [r]) == Put(f, r);
    }
  }

  /** However the marker's write ends, it is either there or not. */
  lemma MarkLands(plan: Plan, n: nat, before: seq<MarkRow>, after: seq<MarkRow>) returns (done: nat)
    requires ValidPlan(plan) && n < |plan.days| && MarksOk(plan, Puts(map[], before), n)
    requires Extends(before, after, [MarkOf(plan, n)])
    ensures n <= done <= n + 1 && MarksOk(plan, Puts(map[], after), done)
  {
    hide Puts, MarksOk;
    var more := after[|before|..];
    assert after == before + more;
    PutsConcat(map[], before, more);
    PutsSame(Puts(map[], before), more, MarkOf(plan, n));
    if more == [] {
      done := n;
    } else {
      MarkLanded(plan, n, Puts(map[], before));
      done := n + 1;
    }
  }

  lemma Beginning(plan: Plan)
    ensures SeedAfter(plan, 0) == None && CarriesLast([], Versions(plan), |VersionsAfter(plan, 0)|)
  {
  }

  lemma SavedIsWithin(plan: Plan, book: seq<BookRow>, marks: map<nat, MarkRow>, n: nat)
    requires Saved(plan, book, marks, n)
    ensures n <= |plan.days|
  {
  }

  lemma DoneIffMarked(plan: Plan, done: map<nat, MarkRow>, n: nat, d: nat)
    requires ValidPlan(plan) && MarksOk(plan, done, n) && d < |plan.days|
    ensures plan.days[d].session in done <==> d < n
  {
    hide SeedAfter;
    if d < n {
      assert MarkedAt(plan, done, d);
    }
    if plan.days[d].session in done {
      var e: nat :| e < n && plan.days[e].session == plan.days[d].session;
    }
  }

  /** A committed session's rows are found again, open or closed, and match its marker. */
  lemma CommittedReadsBack(plan: Plan, store: seq<BookRow>, n: nat, d: nat)
    requires ValidPlan(plan) && d < n <= |plan.days| && BookOk(Versions(plan), store, |VersionsAfter(plan, n)|)
    ensures var seed := SeedAfter(plan, d + 1).value;
      && Levels(ReadAt(store, seed.closedAt)) == seed.levels
      && seed.closedAt == plan.days[d].closing
      && CarriesLast(ReadAt(store, seed.closedAt), Versions(plan), |VersionsAfter(plan, d + 1)|)
  {
    hide VersionsAfter, BookOk, ReadAt;
    var m := |VersionsAfter(plan, d + 1)|;
    LastVersion(plan, d + 1);
    HistoryPrefix(plan, d + 1, n);
    HistoryWellFormed(plan, |plan.days|);
    CoversFewer(Versions(plan), store, m, |VersionsAfter(plan, n)|);
    ReadBack(Versions(plan), store, m - 1);
  }

  // ---------- What a finished build holds ----------

  /** However many times the build was interrupted and resumed, once it finishes its book and its markers are exactly
      those of the history, so those of an uninterrupted build. */
  lemma FinishedBuild(plan: Plan, book: seq<BookRow>, marks: map<nat, MarkRow>)
    requires Saved(plan, book, marks, |plan.days|)
    ensures WellFormed(Versions(plan)) && IsBook(Versions(plan), Puts(map[], book))
    ensures forall d: nat :: d < |plan.days| ==> MarkedAt(plan, marks, d)
    ensures forall k :: k in marks ==> exists d: nat :: d < |plan.days| && plan.days[d].session == k
  {
    hide Puts, VersionsAfter, SeedAfter, Covers, OnlyWritten;
    HistoryWellFormed(plan, |plan.days|);
    StoredRows(Versions(plan), book);
    CoveredIsBook(Versions(plan), Puts(map[], book));
  }

  lemma BookIntervals(vs: seq<Version>, table: map<Key, BookRow>)
    requires WellFormed(vs) && IsBook(vs, table)
    ensures forall k :: k in table && table[k].content.validTo.Some? ==>
      table[k].key.validFrom < table[k].content.validTo.value
  {
    forall k | k in table && table[k].content.validTo.Some?
      ensures table[k].key.validFrom < table[k].content.validTo.value
    {
      assert Final(vs, table[k]);
    }
  }

  /** The sessions of the first n days. */
  function SessionsOf(plan: Plan, n: nat): set<nat>
    requires n <= |plan.days|
  {
    set d | 0 <= d < n :: plan.days[d].session
  }

  lemma {:induction false} SessionsCount(plan: Plan, n: nat)
    requires ValidPlan(plan) && n <= |plan.days|
    ensures |SessionsOf(plan, n)| == n
    decreases n
  {
    hide EngineOrdered;
    if n > 0 {
      SessionsCount(plan, n - 1);
      assert SessionsOf(plan, n) == SessionsOf(plan, n - 1) + {plan.days[n - 1].session};
    }
  }

  lemma MarksCount(plan: Plan, marks: map<nat, MarkRow>)
    requires ValidPlan(plan) && MarksOk(plan, marks, |plan.days|)
    ensures |marks| == |plan.days|
  {
    hide SeedAfter, ValidPlan;
    var n := |plan.days|;
    forall k ensures k in marks.Keys <==> k in SessionsOf(plan, n) {
      if k in SessionsOf(plan, n) {
        var d: nat :| d < n && plan.days[d].session == k;
        assert MarkedAt(plan, marks, d);
      }
    }
    assert marks.Keys == SessionsOf(plan, n);
    SessionsCount(plan, n);
  }

  lemma MarksAreUnique(plan: Plan, s: map<nat, MarkRow>, t: map<nat, MarkRow>, n: nat)
    requires MarksOk(plan, s, n) && MarksOk(plan, t, n)
    ensures s == t
  {
    hide SeedAfter;
    forall k | k in s ensures k in t && t[k] == s[k] {
      var d: nat :| d < n && plan.days[d].session == k;
      assert MarkedAt(plan, s, d) && MarkedAt(plan, t, d);
    }
    forall k | k in t ensures k in s {
      var d: nat :| d < n && plan.days[d].session == k;
      assert MarkedAt(plan, s, d);
    }
  }

  /** Two finished builds of one plan agree on both tables, whatever failed along the way. */
  lemma FinishedBuildsAgree(plan: Plan, book1: seq<BookRow>, marks1: map<nat, MarkRow>, book2: seq<BookRow>, marks2: map<nat, MarkRow>)
    requires Saved(plan, book1, marks1, |plan.days|) && Saved(plan, book2, marks2, |plan.days|)
    ensures Puts(map[], book1) == Puts(map[], book2) && marks1 == marks2
  {
    hide Puts, VersionsAfter, MarksOk, IsBook;
    FinishedBuild(plan, book1, marks1);
    FinishedBuild(plan, book2, marks2);
    BookIsUnique(Versions(plan), Puts(map[], book1), Puts(map[], book2));
    MarksAreUnique(plan, marks1, marks2, |plan.days|);
  }

  /** A fresh build starts sound. */
  lemma FreshIsSaved(plan: Plan)
    requires ValidPlan(plan)
    ensures Saved(plan, [], map[], 0)
  {
  }

  /** What becomes of the writes of one run, table by table. */
  datatype Fates = Fates(book: seq<Attempt<Key>>, sessions: seq<Attempt<nat>>, audit: seq<Attempt<int>>)

  /** Any number of runs, whatever becomes of their writes, and then one whose responses all arrive, commit every session. */
  method RecoverAndFinish(builder: Builder, runs: seq<Fates>, ghost start: nat)
    requires builder.Separate() && Saved(builder.plan, builder.book.store, builder.sessions.Table(), start)
    modifies builder.book, builder.sessions, builder.audit
    ensures Saved(builder.plan, builder.book.store, builder.sessions.Table(), |builder.plan.days|)
  {
    hide Saved;
    ghost var n := start;
    var i := 0;
    while i < |runs|
      invariant 0 <= i <= |runs| && Saved(builder.plan, builder.book.store, builder.sessions.Table(), n)
    {
      builder.book.fate, builder.sessions.fate, builder.audit.fate := runs[i].book, runs[i].sessions, runs[i].audit;
      var finish;
      finish, n := builder.Run(n);
      i := i + 1;
    }
    builder.book.fate, builder.sessions.fate, builder.audit.fate := [], [], [];
    var finish;
    finish, n := builder.Run(n);
  }

  /** A build from nothing: however often it is interrupted, once a run's responses all arrive it holds exactly the finished
      book and one marker a session. */
  method BuildFromScratch(plan: Plan, runs: seq<Fates>) returns (book: Writer<Key, Content>, sessions: Writer<nat, Mark>)
    requires ValidPlan(plan)
    ensures IsBook(Versions(plan), book.Table())
    ensures MarksOk(plan, sessions.Table(), |plan.days|)
  {
    hide Versions, VersionsAfter, BookOk, MarksOk, IsBook;
    book := new Writer([]);
    sessions := new Writer([]);
    var audit: Writer<int, Audit> := new Writer([]);
    var builder := new Builder(plan, book, sessions, audit);
    FreshIsSaved(plan);
    RecoverAndFinish(builder, runs, 0);
    FinishedBuild(plan, book.store, sessions.Table());
  }

  /** At any committed point a marker means its closing rows are stored and read back to the state it was hashed from. */
  lemma MarkerMeansRows(plan: Plan, book: seq<BookRow>, marks: map<nat, MarkRow>, n: nat, d: nat)
    requires Saved(plan, book, marks, n) && d < |plan.days| && plan.days[d].session in marks
    ensures var mark := marks[plan.days[d].session].content;
      Seed(mark.closedAt, mark.sequence, Levels(ReadAt(book, mark.closedAt))) == mark.stateHash
  {
    hide VersionsAfter, BookOk, SeedAfter, ReadAt;
    DoneIffMarked(plan, marks, n, d);
    assert MarkedAt(plan, marks, d);
    CommittedReadsBack(plan, book, n, d);
  }
}
