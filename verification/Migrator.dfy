/** The migrating process itself: it may die before any durable effect, and is rerun until it finishes. */
module MigratorProcess {
  import opened Common
  import opened Migration

  class Migrator {
    /** Database catalogue and the journal file: what survives a crash. */
    var tables: map<Name, Table>
    var journal: Option<Journal>
    var nextUuid: nat

    /** How many more durable effects happen before the process dies; none means it is not interrupted. */
    var budget: Option<nat>
    /** Which rows of an interrupted insert reach the table. */
    var torn: map<Row, nat>

    /** What the checks of the environment find one after another: engine, storage policy, free space, quiet writers, part
        placement; afterwards they all pass. */
    var checks: seq<bool>

    const keep: set<string>
    ghost const original: map<Name, Table>
    ghost var log: seq<Command>

    ghost function Now(): World
      reads this
    {
      World(original, keep, tables, journal, nextUuid, log)
    }

    constructor (tables: map<Name, Table>, keep: set<string>, nextUuid: nat)
      requires forall name :: name in TABLES ==> Staging(name) !in tables
      requires forall n :: n in tables ==> tables[n].uuid < nextUuid
      ensures Now() == World(tables, keep, tables, None, nextUuid, [])
      ensures Now().Inv()
    {
      this.tables, this.original, this.keep, this.nextUuid := tables, tables, keep, nextUuid;
      this.journal, this.budget, this.torn, this.checks, this.log := None, None, map[], [], [];
    }

    method Check() returns (ok: bool)
      modifies this`checks
      ensures ok == (old(checks) == [] || old(checks)[0])
      ensures old(checks) == [] ==> checks == []
    {
      ok := true;
      if checks != [] {
        ok, checks := checks[0], checks[1..];
      }
    }

    // ---------- Durable effects ----------

    method Save(state: Journal) returns (alive: bool)
      modifies this`budget, this`journal
      ensures old(budget).None? ==> alive && budget.None?
      ensures Now() == if alive then old(Now()).Saved(state) else old(Now())
    {
      alive, budget := Alive(budget), Remaining(budget);
      if alive {
        journal := Some(state);
      }
    }

    method CreateReplacement(name: string) returns (alive: bool)
      modifies this`budget, this`tables, this`nextUuid, this`log
      ensures old(budget).None? ==> alive && budget.None?
      ensures Now() == if alive then old(Now()).Created(name) else old(Now())
    {
      alive, budget := Alive(budget), Remaining(budget);
      if alive {
        tables := tables[Staging(name) := Table(nextUuid, true, map[])];
        log := log + [CreateTable(name, nextUuid)];
        nextUuid := nextUuid + 1;
      }
    }

    method DropStagedPartition(name: string, part: string) returns (alive: bool)
      requires Staging(name) in tables
      modifies this`budget, this`tables, this`log
      ensures old(budget).None? ==> alive && budget.None?
      ensures Now() == if alive
                       then old(Now()).WithStagedRows(name, DropPartition(name, old(tables[Staging(name)].uuid)),
                                                      OutsidePartition(old(tables[Staging(name)].rows), part))
                       else old(Now())
    {
      alive, budget := Alive(budget), Remaining(budget);
      if alive {
        var staged := tables[Staging(name)];
        tables := tables[Staging(name) := staged.(rows := OutsidePartition(staged.rows, part))];
        log := log + [DropPartition(name, staged.uuid)];
      }
    }

    /** An interrupted insert may leave any part of its rows behind. */
    method InsertStaged(name: string, chosen: Content) returns (alive: bool)
      requires Staging(name) in tables
      modifies this`budget, this`tables, this`log
      ensures old(budget).None? ==> alive && budget.None?
      ensures Now() == old(Now()).WithStagedRows(name, InsertRows(name, old(tables[Staging(name)].uuid)),
                         Appended(old(tables[Staging(name)].rows), if alive then chosen else Torn(chosen, torn)))
    {
      alive, budget := Alive(budget), Remaining(budget);
      var staged := tables[Staging(name)];
      tables := tables[Staging(name) := staged.(rows := Appended(staged.rows, if alive then chosen else Torn(chosen, torn)))];
      log := log + [InsertRows(name, staged.uuid)];
    }

    method ExchangeTables(name: string) returns (alive: bool)
      requires Live(name) in tables && Staging(name) in tables
      modifies this`budget, this`tables, this`log
      ensures old(budget).None? ==> alive && budget.None?
      ensures Now() == if alive then old(Now()).Exchanged(name) else old(Now())
    {
      alive, budget := Alive(budget), Remaining(budget);
      if alive {
        tables := tables[Live(name) := tables[Staging(name)]][Staging(name) := tables[Live(name)]];
        log := log + [Exchange(name)];
      }
    }

    method DropReplacement(name: string) returns (alive: bool)
      requires Staging(name) in tables
      modifies this`budget, this`tables, this`log
      ensures old(budget).None? ==> alive && budget.None?
      ensures Now() == if alive then old(Now()).Dropped(name) else old(Now())
    {
      alive, budget := Alive(budget), Remaining(budget);
      if alive {
        log := log + [DropTable(name, tables[Staging(name)].uuid)];
        tables := tables - {Staging(name)};
      }
    }

    // ---------- One table ----------

    /** Creates or adopts the staging table and journals its identity. */
    method StageTable(name: string, state: Journal) returns (state': Journal, outcome: Outcome)
      requires name in state.items && Live(name) in tables
      modifies this`budget, this`tables, this`nextUuid, this`log, this`journal
      ensures old(budget).None? ==> outcome != Crashed && budget.None?
      ensures name in state'.items && state' == state.(items := state.items[name := state'.items[name]])
      ensures state'.items[name] == state.items[name].(target := state'.items[name].target)
      ensures Live(name) in tables
      ensures outcome.Done? ==> Staging(name) in tables && tables[Live(name)] == old(tables[Live(name)])
      ensures outcome.Done? ==> journal == Some(state') && state'.items[name].target == Some(tables[Staging(name)].uuid)
      ensures NothingDropped(old(log), log)
      ensures old(Now().StagingSound(name, state)) ==> Now().StagingSound(name, state') && !outcome.Raised?
    {
      ghost var good := Now().StagingSound(name, state);
      state', outcome := state, Crashed;
      if Staging(name) !in tables {
        ghost var before := Now();
        var alive := CreateReplacement(name);
        if !alive {
          return;
        }
        if good {
          CreatedKeeps(before, name, state);
        }
      }
      var uuid, item := tables[Staging(name)].uuid, state.items[name];
      if item.target.Some? && item.target.value != uuid {
        outcome := Raised(ReplacementIdentity);
        return;
      }
      state' := state.(items := state.items[name := item.(target := Some(uuid))]);
      ghost var before := Now();
      if good {
        TargetLearned(before, name, state);
      }
      var alive := Save(state');
      if alive {
        outcome := Done;
        if good {
          SavedKeeps(before, state');
        }
      }
    }

    /** Copies every retained partition, reusing those already present with the same content. */
    method CopyAll(name: string, state: Journal) returns (state': Journal, outcome: Outcome)
      requires name in state.items && Live(name) in tables && Staging(name) in tables
      modifies this`budget, this`tables, this`log, this`journal
      ensures old(budget).None? ==> outcome != Crashed && budget.None?
      ensures CopyFrame(old(Now()), Now(), name, state, state')
      ensures old(CopySound(Now(), name, state)) ==> Now().StagingSound(name, state') && !outcome.Raised?
      ensures old(CopySound(Now(), name, state)) && outcome.Done? ==>
        CopySound(Now(), name, state') && tables[Staging(name)].rows == Now().Wanted(name)
    {
      ghost var start, good := Now(), CopySound(Now(), name, state);
      var source := Retained(name, keep, tables[Live(name)].rows);
      var pending := PartitionIds(source);
      state', outcome := state, Done;
      while pending != {}
        invariant pending <= PartitionIds(source)
        invariant outcome.Done? && (old(budget).None? ==> budget.None?)
        invariant CopyFrame(start, Now(), name, state, state')
        invariant good ==> CopySound(Now(), name, state')
        invariant forall p :: p in PartitionIds(source) && p !in pending ==>
          InPartition(tables[Staging(name)].rows, p) == InPartition(source, p)
        decreases |pending|
      {
        var part :| part in pending;
        pending := pending - {part};
        ghost var middle, reached := Now(), state';
        state', outcome := CopyAndRecord(name, part, state');
        CopyFrameTransitive(start, middle, Now(), name, state, reached, state');
        if !outcome.Done? {
          return;
        }
      }
      if good {
        AllPartitionsCopied(Now(), name, state', source);
      }
    }

    method CopyAndRecord(name: string, part: string, state: Journal) returns (state': Journal, outcome: Outcome)
      requires name in state.items && Live(name) in tables && Staging(name) in tables
      modifies this`budget, this`tables, this`log, this`journal
      ensures old(budget).None? ==> outcome != Crashed && budget.None?
      ensures CopyFrame(old(Now()), Now(), name, state, state')
      ensures outcome.Done? ==>
        InPartition(tables[Staging(name)].rows, part) == InPartition(Retained(name, keep, tables[Live(name)].rows), part)
      ensures outcome.Done? ==> forall p :: p != part ==>
        InPartition(tables[Staging(name)].rows, p) == InPartition(old(tables[Staging(name)].rows), p)
      ensures old(CopySound(Now(), name, state)) ==> Now().StagingSound(name, state') && !outcome.Raised?
      ensures old(CopySound(Now(), name, state)) && outcome.Done? ==> CopySound(Now(), name, state')
    {
      ghost var start, good := Now(), CopySound(Now(), name, state);
      state' := state;
      outcome := CopyPartition(name, part, state);
      if !outcome.Done? {
        return;
      }
      var copied := InPartition(Retained(name, keep, tables[Live(name)].rows), part);
      ghost var before := Now();
      state' := WithPartition(state, name, part, copied);
      RecordedFrame(start, before, name, state, part, copied);
      if good {
        PartitionRecorded(before, name, state, part, copied);
      }
      var alive := Save(state');
      if !alive {
        outcome := Crashed;
      }
    }

    /** One partition: reuse an equal copy, otherwise replace it and verify both sides again. */
    method CopyPartition(name: string, part: string, ghost state: Journal) returns (outcome: Outcome)
      requires name in state.items && Live(name) in tables && Staging(name) in tables
      modifies this`budget, this`tables, this`log
      ensures old(budget).None? ==> outcome != Crashed && budget.None?
      ensures CopyFrame(old(Now()), Now(), name, state, state)
      ensures outcome.Done? ==>
        InPartition(tables[Staging(name)].rows, part) == InPartition(Retained(name, keep, tables[Live(name)].rows), part)
      ensures outcome.Done? ==> forall p :: p != part ==>
        InPartition(tables[Staging(name)].rows, p) == InPartition(old(tables[Staging(name)].rows), p)
      ensures !outcome.Raised?
      ensures old(CopySound(Now(), name, state)) ==> CopySound(Now(), name, state)
    {
      hide CopySound, InPartition, OutsidePartition, Appended, Torn, Retained;
      ghost var good := CopySound(Now(), name, state);
      var chosen := InPartition(Retained(name, keep, tables[Live(name)].rows), part);
      var staged := tables[Staging(name)].rows;
      if InPartition(staged, part) == chosen {
        return Done;
      }
      ghost var first := Now();
      if good {
        StagedKeys(first, name, state, part);
      }
      AppendedKeys(OutsidePartition(staged, part), chosen, torn);
      PartitionOfRetained(Retained(name, keep, tables[Live(name)].rows), part);
      var alive := DropStagedPartition(name, part);
      if good {
        CopyRowsKeep(first, name, state, true, OutsidePartition(staged, part));
      }
      if !alive {
        return Crashed;
      }
      ghost var second := Now();
      alive := InsertStaged(name, chosen);
      if good {
        CopyRowsKeep(second, name, state, false, tables[Staging(name)].rows);
      }
      if !alive {
        return Crashed;
      }
      ReplacedPartition(staged, chosen, part);
      if InPartition(tables[Staging(name)].rows, part) != chosen {
        return Raised(RowVerification);
      }
      outcome := Done;
    }

    /** Reconciles the whole retained relation, journals the proof, and exchanges the two tables. */
    method ReconcileAndExchange(name: string, state: Journal) returns (state': Journal, outcome: Outcome)
      requires name in state.items && Live(name) in tables && Staging(name) in tables
      modifies this`checks, this`budget, this`tables, this`log, this`journal
      ensures old(budget).None? ==> outcome != Crashed && budget.None?
      ensures name in state'.items && state' == state.(items := state.items[name := state'.items[name]])
      ensures state'.items[name].source == state.items[name].source
      ensures Live(name) in tables
      ensures NothingDropped(old(log), log)
      ensures old(ReadyToReconcile(Now(), name, state)) ==> Now().Sound(state') && OnlyEnvironment(outcome, old(checks))
      ensures old(ReadyToReconcile(Now(), name, state)) && outcome.Done? ==> Now().Swapped(name)
      ensures old(checks) == [] ==> checks == []
    {
      hide ReadyToReconcile, ReadyToExchange, World.Sound, World.Swapped, TableDigest, Retained;
      ghost var good := ReadyToReconcile(Now(), name, state);
      ghost var start := Now();
      state', outcome := state, Crashed;
      if good {
        ReadyMeans(start, name, state);
      }
      var quiet := Check();
      if !quiet {
        outcome := Raised(Environment);
        return;
      }
      var verified := TableDigest(Retained(name, keep, tables[Live(name)].rows));
      if verified != TableDigest(tables[Staging(name)].rows) {
        outcome := Raised(Reconciliation);
        return;
      }
      state' := state.(items := state.items[name := state.items[name].(verified := Some(Partitioned(verified)))]);
      if good {
        ProofRecorded(start, name, state);
      }
      var alive := Save(state');
      if !alive {
        return;
      }
      ghost var proven := Now();
      var placed := Check();
      if !placed {
        outcome := Raised(Environment);
        return;
      }
      alive := ExchangeTables(name);
      if !alive {
        return;
      }
      if good {
        ExchangedKeeps(proven, name, state');
      }
      ghost var swapped, unmarked := Now(), state';
      state' := state'.(items := state'.items[name := state'.items[name].(exchanged := true)]);
      if good {
        ExchangeNoted(swapped, name, unmarked);
      }
      alive := Save(state');
      if alive {
        outcome := Done;
      }
    }

    /** After the exchange: verify the live table again, drop exactly the source, and mark the entry complete. */
    method Retire(name: string, state: Journal) returns (state': Journal, outcome: Outcome)
      requires name in state.items && Live(name) in tables
      modifies this`budget, this`tables, this`log, this`journal
      ensures old(budget).None? ==> outcome != Crashed && budget.None?
      ensures name in state'.items && state' == state.(items := state.items[name := state'.items[name]])
      ensures outcome.Done? ==> journal == Some(state') && state'.items[name].complete
      ensures log == old(log) || (log == old(log) + [DropTable(name, state.items[name].source)]
                                  && Proven(old(tables[Live(name)]), state.items[name]))
      ensures old(Now().Sound(state) && Now().Swapped(name)) ==> Now().Sound(state') && !outcome.Raised?
    {
      ghost var good := Now().Sound(state) && Now().Swapped(name);
      ghost var start := Now();
      var item := state.items[name];
      state', outcome := state, Crashed;
      if good {
        assert start.ItemOk(name, item);
      }
      if item.target.None? || !item.columns || item.verified.None? {
        outcome := Raised(MissingEvidence);
        return;
      }
      if tables[Live(name)].uuid != item.target.value || !tables[Live(name)].onSsd {
        outcome := Raised(PostExchange);
        return;
      }
      if !Proves(item.verified.value, tables[Live(name)].rows) {
        outcome := Raised(ContentChanged);
        return;
      }
      if Staging(name) in tables {
        if tables[Staging(name)].uuid != item.source {
          outcome := Raised(UnrecognizedTable);
          return;
        }
        var alive := DropReplacement(name);
        if !alive {
          return;
        }
        if good {
          DroppedKeeps(start, name, state);
        }
      }
      ghost var retired := Now();
      state' := state.(items := state.items[name := item.(complete := true)]);
      if good {
        CompletionNoted(retired, name, state);
      }
      var alive := Save(state');
      if alive {
        outcome := Done;
      }
    }

    /** The staging half of one table: create or adopt, copy, reconcile, exchange. */
    method CopyAndExchange(name: string, state: Journal) returns (state': Journal, outcome: Outcome)
      requires name in state.items && Live(name) in tables
      modifies this`checks, this`budget, this`tables, this`nextUuid, this`log, this`journal
      ensures old(budget).None? ==> outcome != Crashed && budget.None?
      ensures name in state'.items && state' == state.(items := state.items[name := state'.items[name]])
      ensures outcome.Done? ==> Live(name) in tables && state'.items[name].source == state.items[name].source
      ensures NothingDropped(old(log), log)
      ensures old(Now().StagingSound(name, state)) ==> Now().Sound(state') && OnlyEnvironment(outcome, old(checks))
      ensures old(Now().StagingSound(name, state)) && outcome.Done? ==> Now().Swapped(name)
      ensures old(checks) == [] ==> checks == []
    {
      hide World.StagingSound, World.Sound, World.Swapped, World.Wanted, CopySound, ReadyToReconcile, CopyFrame, NothingDropped;
      ghost var good, start := Now().StagingSound(name, state), log;
      state', outcome := StageTable(name, state);
      if good {
        StagingIsSound(Now(), name, state');
      }
      if !outcome.Done? {
        return;
      }
      ghost var staged, logged := state', log;
      state' := state'.(items := state'.items[name := state'.items[name].(columns := true)]);
      if good {
        ColumnsNoted(Now(), name, staged);
      }
      ghost var before, reached := Now(), state';
      state', outcome := CopyAll(name, state');
      FrameMeans(before, Now(), name, reached, state');
      DroppedNothing(start, logged, log);
      if good {
        StagingIsSound(Now(), name, state');
      }
      if !outcome.Done? {
        return;
      }
      if good {
        CopiedIsReady(Now(), name, state');
      }
      ghost var copied := log;
      state', outcome := ReconcileAndExchange(name, state');
      DroppedNothing(start, copied, log);
    }

    /** One table from wherever its journal entry left off. */
    method MigrateTable(name: string, state: Journal) returns (state': Journal, outcome: Outcome)
      requires name in state.items
      modifies this`checks, this`budget, this`tables, this`nextUuid, this`log, this`journal
      ensures old(budget).None? ==> outcome != Crashed && budget.None?
      ensures name in state'.items && state' == state.(items := state.items[name := state'.items[name]])
      ensures outcome.Done? ==> state'.items[name].complete
      ensures state.items[name].complete ==> Now() == old(Now()) && state' == state
      ensures outcome.Done? && !state.items[name].complete ==> journal == Some(state')
      ensures OnlySourceDropped(old(log), log, state.items[name].source)
      ensures old(Now().Sound(state)) ==> Now().Sound(state') && OnlyEnvironment(outcome, old(checks))
      ensures old(checks) == [] ==> checks == []
    {
      ghost var good, start := Now().Sound(state), Now();
      state', outcome := state, Done;
      var item := state.items[name];
      if good {
        assert start.ItemOk(name, item);
      }
      if item.complete {
        if Live(name) !in tables || Some(tables[Live(name)].uuid) != item.target || !tables[Live(name)].onSsd {
          outcome := Raised(CompletedMismatch);
        }
        return;
      }
      if Live(name) !in tables {
        outcome := Raised(MissingSource);
        return;
      }
      if Some(tables[Live(name)].uuid) == item.target {
        if good {
          ExchangeNoted(start, name, state);
        }
        state' := state.(items := state.items[name := item.(exchanged := true)]);
      } else if tables[Live(name)].uuid != item.source {
        outcome := Raised(UnexpectedSource);
        return;
      }
      if !state'.items[name].exchanged {
        state', outcome := CopyAndExchange(name, state');
        if !outcome.Done? {
          return;
        }
      }
      state', outcome := Retire(name, state');
    }

    /** Every journaled table in order. */
    method MigrateAll(start: Journal) returns (outcome: Outcome)
      requires journal == Some(start)
      modifies this`checks, this`budget, this`tables, this`nextUuid, this`log, this`journal
      ensures old(budget).None? ==> outcome != Crashed
      ensures old(Now().Sound(start)) ==> Now().Inv() && OnlyEnvironment(outcome, old(checks))
      ensures old(Now().Sound(start)) && outcome.Done? ==> Finished(Now())
      ensures AllComplete(start) ==> Now() == old(Now())
      ensures old(checks) == [] ==> checks == []
    {
      ghost var good, before := Now().Sound(start), Now();
      var state := start;
      outcome := Done;
      for i := 0 to |TABLES|
        invariant outcome.Done? && (old(budget).None? ==> budget.None?) && (old(checks) == [] ==> checks == [])
        invariant journal == Some(state)
        invariant good ==> Now().Sound(state)
        invariant forall j :: 0 <= j < i && TABLES[j] in state.items ==> state.items[TABLES[j]].complete
        invariant AllComplete(start) ==> Now() == before && state == start
      {
        if TABLES[i] in state.items {
          state, outcome := MigrateTable(TABLES[i], state);
          if !outcome.Done? {
            return;
          }
        }
      }
    }

    /** One whole run of the migration. */
    method Migrate() returns (outcome: Outcome)
      modifies this`checks, this`budget, this`tables, this`nextUuid, this`log, this`journal
      ensures old(budget).None? ==> outcome != Crashed
      ensures old(Now().Inv()) ==> Now().Inv() && OnlyEnvironment(outcome, old(checks))
      ensures old(Now().Inv()) && outcome.Done? ==> Finished(Now())
      ensures old(Now().Inv() && Finished(Now())) ==> Now() == old(Now())
      ensures old(checks) == [] ==> checks == []
    {
      ghost var good, start := Now().Inv(), Now();
      var atomic := Check();
      var policy := Check();
      if !atomic || !policy {
        return Raised(Environment);
      }
      var state := FirstJournal(keep, tables);
      if good {
        InvMeansKeep(start);
      }
      hide FirstJournal, World.Sound, World.Inv, World.ItemsOk;
      if journal.Some? {
        state := journal.value;
        if state.keep != keep {
          return Raised(JournalIdentity);
        }
      }
      var capacity := Check();
      if !capacity {
        return Raised(Environment);
      }
      if good {
        FirstSave(start, state);
      }
      var alive := Save(state);
      if !alive {
        return Crashed;
      }
      var quiet := Check();
      if !quiet {
        return Raised(Environment);
      }
      outcome := MigrateAll(state);
    }
  }

  /** A run from a sound state raises nothing of its own: only a failed check of the environment stops it. */
  predicate OnlyEnvironment(outcome: Outcome, checks: seq<bool>) {
    outcome.Raised? ==> outcome.reason == Environment && checks != []
  }

  /** What copying leaves alone, however it ends. */
  ghost predicate CopyFrame(w: World, v: World, name: string, state: Journal, state': Journal) {
    && v.tables.Keys == w.tables.Keys && v.original == w.original && v.keep == w.keep
    && Live(name) in w.tables && v.tables[Live(name)] == w.tables[Live(name)]
    && Staging(name) in w.tables && v.tables[Staging(name)].uuid == w.tables[Staging(name)].uuid
    && NothingDropped(w.log, v.log)
    && name in state.items && name in state'.items
    && state' == state.(items := state.items[name := state.items[name].(partitions := state'.items[name].partitions)])
  }

  lemma CopyFrameTransitive(w: World, v: World, u: World, name: string, x: Journal, y: Journal, z: Journal)
    requires CopyFrame(w, v, name, x, y) && CopyFrame(v, u, name, y, z)
    ensures CopyFrame(w, u, name, x, z)
  {
    assert z.items == x.items[name := x.items[name].(partitions := z.items[name].partitions)];
    forall i | |w.log| <= i < |u.log| ensures !u.log[i].DropTable? {
      if i < |v.log| {
        assert u.log[i] == v.log[i];
      }
    }
  }

  lemma AllPartitionsCopied(w: World, name: string, state: Journal, source: Content)
    requires CopySound(w, name, state) && Live(name) in w.tables && source == Retained(name, w.keep, w.tables[Live(name)].rows)
    requires forall p :: p in PartitionIds(source) ==> InPartition(w.tables[Staging(name)].rows, p) == InPartition(source, p)
    ensures w.tables[Staging(name)].rows == w.Wanted(name)
  {
    assert w.ItemOk(name, state.items[name]);
    CopyCompletes(w.tables[Staging(name)].rows, source);
  }

  ghost predicate NothingDropped(before: seq<Command>, after: seq<Command>) {
    before <= after && forall i :: |before| <= i < |after| ==> !after[i].DropTable?
  }

  lemma TargetLearned(w: World, name: string, state: Journal)
    requires w.StagingSound(name, state) && Staging(name) in w.tables
    requires state.items[name].target.Some? ==> state.items[name].target.value == w.tables[Staging(name)].uuid
    ensures w.StagingSound(name, state.(items := state.items[name := state.items[name].(target := Some(w.tables[Staging(name)].uuid))]))
  {
    assert w.ItemOk(name, state.items[name]) && w.ItemOk(name, w.journal.value.items[name]);
    EntryReplaced(w, name, state, state.items[name].(target := Some(w.tables[Staging(name)].uuid)));
  }

  /** Staging is under way: the journal is the working state and names the staging table. */
  ghost predicate CopySound(w: World, name: string, state: Journal) {
    && w.StagingSound(name, state) && Staging(name) in w.tables
    && w.journal.value.items[name].target.Some?
  }

  lemma CopyRowsKeep(w: World, name: string, state: Journal, dropping: bool, rows: Content)
    requires CopySound(w, name, state)
    requires rows.Keys <= w.Wanted(name).Keys
    ensures CopySound(w.WithStagedRows(name, if dropping then DropPartition(name, w.tables[Staging(name)].uuid)
                                             else InsertRows(name, w.tables[Staging(name)].uuid), rows), name, state)
  {
    StagedRowsKeep(w, name, state, if dropping then DropPartition(name, w.tables[Staging(name)].uuid)
                                   else InsertRows(name, w.tables[Staging(name)].uuid), rows);
  }

  function WithPartition(state: Journal, name: string, part: string, rows: Content): Journal
    requires name in state.items
  {
    var item := state.items[name];
    state.(items := state.items[name := item.(partitions := item.partitions[part := rows])])
  }

  lemma RecordedFrame(w: World, v: World, name: string, state: Journal, part: string, rows: Content)
    requires CopyFrame(w, v, name, state, state)
    ensures CopyFrame(w, v, name, state, WithPartition(state, name, part, rows))
    ensures CopyFrame(w, v.Saved(WithPartition(state, name, part, rows)), name, state, WithPartition(state, name, part, rows))
  {
  }

  /** Recording a verified partition changes nothing the invariant reads. */
  lemma PartitionRecorded(w: World, name: string, state: Journal, part: string, rows: Content)
    requires CopySound(w, name, state)
    ensures CopySound(w.Saved(WithPartition(state, name, part, rows)), name, WithPartition(state, name, part, rows))
    ensures w.StagingSound(name, WithPartition(state, name, part, rows))
  {
    var state' := WithPartition(state, name, part, rows);
    assert w.ItemOk(name, state.items[name]);
    EntryReplaced(w, name, state, state'.items[name]);
    SavedKeeps(w, state');
  }

  /** What copying one partition may leave in the staging table stays within the retained rows. */
  lemma StagedKeys(w: World, name: string, state: Journal, part: string)
    requires CopySound(w, name, state) && Live(name) in w.tables
    ensures OutsidePartition(w.tables[Staging(name)].rows, part).Keys <= w.Wanted(name).Keys
    ensures InPartition(Retained(name, w.keep, w.tables[Live(name)].rows), part).Keys <= w.Wanted(name).Keys
  {
    SoundItem(w, name, state);
  }

  lemma AppendedKeys(c: Content, more: Content, torn: map<Row, nat>)
    ensures Appended(c, more).Keys == c.Keys + more.Keys
    ensures Appended(c, Torn(more, torn)).Keys <= c.Keys + more.Keys
  {
  }

  lemma PartitionOfRetained(c: Content, part: string)
    ensures InPartition(c, part) == InPartition(InPartition(c, part), part)
  {
  }

  /** The copy is complete and its column list recorded. */
  ghost predicate ReadyToReconcile(w: World, name: string, state: Journal) {
    && CopySound(w, name, state) && state.items[name].columns
    && w.tables[Staging(name)].rows == w.Wanted(name)
  }

  lemma StagingIsSound(w: World, name: string, state: Journal)
    requires w.StagingSound(name, state)
    ensures w.Sound(state)
  {
  }

  lemma FrameMeans(w: World, v: World, name: string, state: Journal, state': Journal)
    requires CopyFrame(w, v, name, state, state')
    ensures Live(name) in v.tables && Staging(name) in v.tables && NothingDropped(w.log, v.log)
    ensures name in state.items && name in state'.items && state' == state.(items := state.items[name := state'.items[name]])
    ensures state'.items[name].source == state.items[name].source && state'.items[name].columns == state.items[name].columns
  {
  }

  lemma DroppedNothing(a: seq<Command>, b: seq<Command>, c: seq<Command>)
    requires NothingDropped(a, b) && NothingDropped(b, c)
    ensures NothingDropped(a, c)
  {
    forall i | |a| <= i < |c| ensures !c[i].DropTable? {
      if i < |b| {
        assert c[i] == b[i];
      }
    }
  }

  lemma CopiedIsReady(w: World, name: string, state: Journal)
    requires CopySound(w, name, state) && state.items[name].columns && w.tables[Staging(name)].rows == w.Wanted(name)
    ensures ReadyToReconcile(w, name, state)
  {
  }

  lemma ReadyMeans(w: World, name: string, state: Journal)
    requires ReadyToReconcile(w, name, state) && Live(name) in w.tables
    ensures w.Sound(state) && Live(name) in w.original
    ensures Retained(name, w.keep, w.tables[Live(name)].rows) == w.tables[Staging(name)].rows == w.Wanted(name)
  {
    SoundItem(w, name, state);
  }

  /** The evidence demanded before anything is dropped. */
  predicate Proven(live: Table, item: Item) {
    Some(live.uuid) == item.target && live.onSsd && item.verified.Some? && Proves(item.verified.value, live.rows)
  }

  lemma ProofRecorded(w: World, name: string, state: Journal)
    requires ReadyToReconcile(w, name, state)
    ensures var state' := state.(items := state.items[name := state.items[name].(verified := Some(Partitioned(TableDigest(w.Wanted(name)))))]);
      && w.Sound(state') && w.Saved(state').Sound(state') && ReadyToExchange(w.Saved(state'), name, state')
  {
    var item := state.items[name].(verified := Some(Partitioned(TableDigest(w.Wanted(name)))));
    assert w.ItemOk(name, state.items[name]) && w.ItemOk(name, w.journal.value.items[name]);
    EntryReplaced(w, name, state, item);
    SavedKeeps(w, state.(items := state.items[name := item]));
  }

  lemma ExchangeNoted(w: World, name: string, state: Journal)
    requires w.Sound(state) && name in state.items && w.Swapped(name)
    ensures var state' := state.(items := state.items[name := state.items[name].(exchanged := true)]);
      w.Sound(state') && w.Saved(state').Sound(state') && w.Saved(state').Swapped(name)
  {
    assert w.ItemOk(name, state.items[name]) && w.ItemOk(name, w.journal.value.items[name]);
    var item := state.items[name].(exchanged := true);
    EntryReplaced(w, name, state, item);
    SavedKeeps(w, state.(items := state.items[name := item]));
  }

  lemma CompletionNoted(w: World, name: string, state: Journal)
    requires w.Sound(state) && name in state.items && w.Swapped(name) && Staging(name) !in w.tables
    ensures var state' := state.(items := state.items[name := state.items[name].(complete := true)]);
      w.Sound(state') && w.Saved(state').Sound(state')
  {
    assert w.ItemOk(name, state.items[name]) && w.ItemOk(name, w.journal.value.items[name]);
    var item := state.items[name].(complete := true);
    EntryReplaced(w, name, state, item);
    SavedKeeps(w, state.(items := state.items[name := item]));
  }

  predicate AllComplete(state: Journal) {
    forall name :: name in state.items ==> state.items[name].complete
  }

  /** At most one table was dropped since, and it was the recorded source. */
  ghost predicate OnlySourceDropped(before: seq<Command>, after: seq<Command>, source: nat) {
    before <= after && forall i :: |before| <= i < |after| && after[i].DropTable? ==> after[i].uuid == source
  }

  lemma ColumnsNoted(w: World, name: string, state: Journal)
    requires w.StagingSound(name, state) && Staging(name) in w.tables && w.journal == Some(state) && state.items[name].target.Some?
    ensures CopySound(w, name, state.(items := state.items[name := state.items[name].(columns := true)]))
  {
    assert w.ItemOk(name, state.items[name]);
    EntryReplaced(w, name, state, state.items[name].(columns := true));
  }

  /** The entry every live table in scope starts from. */
  function FirstJournal(keep: set<string>, tables: map<Name, Table>): Journal {
    Journal(keep, map name | name in TABLES && Live(name) in tables ::
              Item(tables[Live(name)].uuid, None, false, map[], None, false, false))
  }

  lemma InvMeansKeep(w: World)
    requires w.Inv()
    ensures w.journal.Some? ==> w.journal.value.keep == w.keep
  {
  }

  /** The first durable write of a run, on a fresh or an existing journal. */
  lemma FirstSave(w: World, state: Journal)
    requires w.Inv()
    requires w.journal.Some? ==> state == w.journal.value
    requires w.journal.None? ==> state == FirstJournal(w.keep, w.tables)
    ensures w.Saved(state).Sound(state) && state.keep == w.keep
  {
    if w.journal.Some? {
      assert w.Saved(state) == w;
    } else {
      var v := w.Saved(state);
      forall name | name in state.items ensures v.ItemOk(name, state.items[name]) {
        assert Staging(name) !in w.original;
      }
      forall c | c in v.log ensures v.CommandOk(c) {
        assert w.CommandOk(c);
      }
      forall name | Live(name) in v.original ensures Exchanges(v.log, name) == if v.Swapped(name) then 1 else 0 {
        assert v.Swapped(name) == w.Swapped(name);
      }
    }
  }

  // ---------- Any number of crashes ----------

  /** A run that dies after some number of effects, how much of an insert it would tear, and what its environment checks
      find. */
  datatype Death = Death(after: nat, torn: map<Row, nat>, checks: seq<bool>)

  /**
   * Any sequence of crashed or stopped runs followed by one uninterrupted run finishes without an error, with every table in
   * scope holding exactly its retained source rows; a further run would change nothing.
   */
  method RecoverAndFinish(m: Migrator, deaths: seq<Death>)
    requires m.Now().Inv()
    modifies m
    ensures m.Now().Inv() && Finished(m.Now()) && m.Now().OthersUntouched()
    ensures forall name :: m.Now().InScope(name) ==>
      Live(name) in m.tables && m.tables[Live(name)].rows == m.Now().Wanted(name) && Exchanges(m.log, name) == 1
    ensures forall name :: name in TABLES && Live(name) in m.original ==>
      && Live(name) in m.tables
      && (forall r :: RowKept(name, m.keep, m.original[Live(name)].rows, m.tables[Live(name)].rows, r))
      && (!ByCheckpointSet(name) ==> m.tables[Live(name)].rows == m.original[Live(name)].rows)
  {
    for i := 0 to |deaths|
      invariant m.Now().Inv()
    {
      m.budget, m.torn, m.checks := Some(deaths[i].after), deaths[i].torn, deaths[i].checks;
      var _ := m.Migrate();
    }
    m.budget, m.checks := None, [];
    var outcome := m.Migrate();
    assert outcome.Done?;
    forall name | m.Now().InScope(name)
      ensures Live(name) in m.tables && m.tables[Live(name)].rows == m.Now().Wanted(name) && Exchanges(m.log, name) == 1
    {
      assert m.Now().ItemOk(name, m.journal.value.items[name]);
    }
    forall name | name in TABLES && Live(name) in m.original
      ensures forall r :: RowKept(name, m.keep, m.original[Live(name)].rows, m.tables[Live(name)].rows, r)
      ensures !ByCheckpointSet(name) ==> m.tables[Live(name)].rows == m.original[Live(name)].rows
    {
      assert m.Now().InScope(name);
      RetainedRows(name, m.keep, m.original[Live(name)].rows);
    }
  }
}
