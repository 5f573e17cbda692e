/** Crash-safe migration of structural tables: journal, copy, verify, exchange, verify again, drop. */
module Migration {
  import opened Common

  /** Tables that may be migrated, in order; the first two retain only the kept checkpoint sets. */
  const TABLES: seq<string> := [
    "qmd_structure_daily_checkpoint_v2",
    "qmd_structure_checkpoint_set_registry_v1",
    "qmd_structure_daily_checkpoint_v1",
    "qmd_structure_state_v2",
    "qmd_structure_events_v2",
    "qmd_structure_focus_registry_v1"
  ]

  // ---------- Contents and digests ----------

  datatype Row = Row(checkpointSet: string, partition: string, payload: string)

  type Count = n: int | n > 0 witness 1

  /** The rows a FINAL read of a table returns, with multiplicity. */
  type Content = map<Row, Count>

  predicate Keeps(name: string, keep: set<string>, r: Row) {
    name in TABLES[..2] ==> r.checkpointSet in keep
  }

  /** Rows selected by the retention predicate. */
  function Retained(name: string, keep: set<string>, c: Content): Content {
    map r | r in c && Keeps(name, keep, r) :: c[r]
  }

  /** The two tables whose rows are retained by checkpoint set; of every other table each row is. */
  predicate ByCheckpointSet(name: string) {
    name == "qmd_structure_daily_checkpoint_v2" || name == "qmd_structure_checkpoint_set_registry_v1"
  }

  /** A row is there as often as it was; with a checkpoint set that is not kept, of a table retained by those, not at all. */
  predicate RowKept(name: string, keep: set<string>, before: Content, after: Content, r: Row) {
    Multiplicity(after, r) == if ByCheckpointSet(name) && r.checkpointSet !in keep then 0 else Multiplicity(before, r)
  }

  lemma RetainedRows(name: string, keep: set<string>, c: Content)
    ensures forall r :: RowKept(name, keep, c, Retained(name, keep, c), r)
    ensures !ByCheckpointSet(name) ==> Retained(name, keep, c) == c
  {
    var two := TABLES[..2];
    assert name in two <==> name == two[0] || name == two[1];
    assert forall r :: Keeps(name, keep, r) <==> (ByCheckpointSet(name) ==> r.checkpointSet in keep);
  }

  function InPartition(c: Content, part: string): Content {
    map r | r in c && r.partition == part :: c[r]
  }

  function OutsidePartition(c: Content, part: string): Content {
    map r | r in c && r.partition != part :: c[r]
  }

  function PartitionIds(c: Content): set<string> {
    set r | r in c :: r.partition
  }

  function Multiplicity(c: Content, r: Row): nat {
    if r in c then c[r] else 0
  }

  /** What appending rows to a table leaves. */
  function Appended(c: Content, more: Content): Content {
    map r | r in c.Keys + more.Keys :: Multiplicity(c, r) + Multiplicity(more, r)
  }

  /** The part of an interrupted insert that reached the table. */
  function Torn(c: Content, torn: map<Row, nat>): Content {
    map r | r in c && r in torn && torn[r] > 0 :: if torn[r] < c[r] then torn[r] else c[r]
  }

  /** An interrupted insert leaves of each row some of its copies, and can leave any number of them. */
  lemma TornIs(c: Content, part: Content, torn: map<Row, nat>, r: Row)
    ensures Multiplicity(Torn(c, torn), r) <= Multiplicity(c, r)
    ensures (forall s :: Multiplicity(part, s) <= Multiplicity(c, s)) ==> Torn(c, part) == part
  {
    if forall s :: Multiplicity(part, s) <= Multiplicity(c, s) {
      forall s: Row ensures s in Torn(c, part) <==> s in part
        ensures s in part ==> s in Torn(c, part) && Torn(c, part)[s] == part[s]
      {
        assert Multiplicity(part, s) <= Multiplicity(c, s);
      }
    }
  }

  /** Partition by partition digest of a whole relation; a digest stands for the rows it covers. */
  function TableDigest(c: Content): map<string, Content> {
    map p | p in PartitionIds(c) :: InPartition(c, p)
  }

  /** Bounded per-partition verification loses nothing: equal digests mean equal relations. */
  lemma TableDigestInjective(a: Content, b: Content)
    ensures TableDigest(a) == TableDigest(b) <==> a == b
  {
    if TableDigest(a) == TableDigest(b) {
      forall p | p in PartitionIds(a) || p in PartitionIds(b)
        ensures InPartition(a, p) == InPartition(b, p)
      {
        assert p in TableDigest(a) && p in TableDigest(b);
      }
      SameRows(a, b);
      SameRows(b, a);
    }
  }

  lemma SameRows(a: Content, b: Content)
    requires forall p :: p in PartitionIds(a) ==> InPartition(a, p) == InPartition(b, p)
    ensures forall r :: r in a ==> r in b && a[r] == b[r]
  {
    forall r | r in a ensures r in b && a[r] == b[r] {
      assert r.partition in PartitionIds(a);
      assert r in InPartition(a, r.partition);
      assert r in InPartition(b, r.partition);
    }
  }

  // ---------- Catalogue, journal, commands ----------

  datatype Name = Live(table: string) | Staging(table: string)

  datatype Table = Table(uuid: nat, onSsd: bool, rows: Content)

  /** The journaled proof of a table's content: digests partition by partition, or one digest of the whole in journals
      written before those. */
  datatype Proof = Partitioned(digest: map<string, Content>) | Whole(rows: Content)

  predicate Proves(p: Proof, c: Content) {
    match p
    case Partitioned(digest) => TableDigest(c) == digest
    case Whole(rows) => c == rows
  }

  /** A proof of either format is a proof of one content only. */
  lemma ProofIsOfOne(p: Proof, a: Content, b: Content)
    requires Proves(p, a) && Proves(p, b)
    ensures a == b
  {
    if p.Partitioned? {
      TableDigestInjective(a, b);
    }
  }

  datatype Item = Item(source: nat, target: Option<nat>, columns: bool, partitions: map<string, Content>,
                       verified: Option<Proof>, exchanged: bool, complete: bool)

  datatype Journal = Journal(keep: set<string>, items: map<string, Item>)

  datatype Command =
    | CreateTable(table: string, uuid: nat)
    | DropPartition(table: string, uuid: nat)
    | InsertRows(table: string, uuid: nat)
    | Exchange(table: string)
    | DropTable(table: string, uuid: nat)

  function Exchanges(log: seq<Command>, table: string): nat {
    if log == [] then 0
    else Exchanges(log[..|log| - 1], table) + (if log[|log| - 1] == Exchange(table) then 1 else 0)
  }

  lemma ExchangesSnoc(log: seq<Command>, c: Command)
    ensures forall name :: Exchanges(log + [c], name) == Exchanges(log, name) + if c == Exchange(name) then 1 else 0
  {
    assert (log + [c])[..|log|] == log;
  }

  datatype Reason =
    | JournalIdentity | CompletedMismatch | MissingSource | UnexpectedSource | ReplacementIdentity
    | RowVerification | Reconciliation | MissingEvidence | PostExchange | ContentChanged | UnrecognizedTable
    | Environment

  datatype Outcome = Done | Crashed | Raised(reason: Reason)

  lemma CopyCompletes(a: Content, b: Content)
    requires a.Keys <= b.Keys
    requires forall p :: p in PartitionIds(b) ==> InPartition(a, p) == InPartition(b, p)
    ensures a == b
  {
    forall r | r in b ensures r in a && a[r] == b[r] {
      assert r.partition in PartitionIds(b);
      assert r in InPartition(b, r.partition);
      assert r in InPartition(a, r.partition);
    }
  }

  /** Dropping a partition and inserting exactly its retained rows replaces that partition and no other. */
  lemma ReplacedPartition(t: Content, chosen: Content, part: string)
    requires chosen == InPartition(chosen, part)
    ensures var t' := Appended(OutsidePartition(t, part), chosen);
      && InPartition(t', part) == chosen
      && (forall p :: p != part ==> InPartition(t', p) == InPartition(t, p))
      && t'.Keys <= t.Keys + chosen.Keys
  {
    var t' := Appended(OutsidePartition(t, part), chosen);
    assert forall r :: r in chosen ==> r.partition == part;
    assert InPartition(t', part) == chosen;
    forall p | p != part ensures InPartition(t', p) == InPartition(t, p) {
    }
  }

  // ---------- The durable world ----------

  /** What survives a crash, with the catalogue before the first run and every command issued since. */
  datatype World = World(original: map<Name, Table>, keep: set<string>, tables: map<Name, Table>,
                         journal: Option<Journal>, nextUuid: nat, log: seq<Command>)
  {
    predicate InScope(name: string) {
      name in TABLES && Live(name) in original
    }

    function Source(name: string): Table
      requires Live(name) in original
    {
      original[Live(name)]
    }

    function Wanted(name: string): Content
      requires Live(name) in original
    {
      Retained(name, keep, Source(name).rows)
    }

    /** The live name no longer holds the original table. */
    predicate Swapped(name: string)
      requires Live(name) in original
    {
      Live(name) in tables && tables[Live(name)] != Source(name)
    }

    predicate StagingOk(name: string, item: Item)
      requires Live(name) in original
    {
      && !item.exchanged && !item.complete
      && (Staging(name) !in tables ==> item.target.None?)
      && (Staging(name) in tables ==>
            var t := tables[Staging(name)];
            && t.onSsd && t.uuid != Source(name).uuid
            && (item.target.None? || item.target.value == t.uuid)
            && t.rows.Keys <= Wanted(name).Keys)
    }

    predicate SwappedOk(name: string, item: Item)
      requires Live(name) in original && Live(name) in tables
    {
      && item.verified.Some? && item.target.Some?
      && tables[Live(name)] == Table(item.target.value, true, Wanted(name))
      && (Staging(name) in tables ==> tables[Staging(name)] == Source(name))
      && (item.complete ==> Staging(name) !in tables)
    }

    /** One journal entry tells the truth about its two names. */
    predicate ItemOk(name: string, item: Item) {
      && Live(name) in original && Live(name) in tables
      && item.source == Source(name).uuid
      && (item.target.Some? ==> item.target.value != item.source)
      && (item.verified.Some? ==> item.target.Some? && item.columns && Proves(item.verified.value, Wanted(name)))
      && if Swapped(name) then SwappedOk(name, item) else StagingOk(name, item)
    }

    ghost predicate ItemsOk(state: Journal) {
      && state.keep == keep
      && (forall name :: name in state.items <==> InScope(name))
      && (forall name :: name in state.items ==> ItemOk(name, state.items[name]))
    }

    /** Partitions are dropped only from the journaled staging table, and tables only when they are the source. */
    predicate CommandOk(c: Command) {
      match c
      case DropPartition(name, uuid) =>
        && Live(name) in original && uuid != Source(name).uuid
        && journal.Some? && name in journal.value.items && journal.value.items[name].target == Some(uuid)
      case DropTable(name, uuid) => Live(name) in original && uuid == Source(name).uuid
      case _ => true
    }

    ghost predicate LogOk() {
      && (forall c :: c in log ==> CommandOk(c))
      && (forall name :: Live(name) in original ==> Exchanges(log, name) == if Swapped(name) then 1 else 0)
    }

    /** No table outside the migrated names and their staging names is touched. */
    ghost predicate OthersUntouched() {
      && (forall name :: Staging(name) in original ==> name !in TABLES)
      && (forall n :: n in original && (n.Live? ==> !InScope(n.table)) ==> n in tables && tables[n] == original[n])
      && (forall n :: n in tables && n !in original ==> n.Staging? && InScope(n.table))
    }

    ghost predicate Inv() {
      && (forall n :: n in original ==> original[n].uuid < nextUuid)
      && OthersUntouched()
      && LogOk()
      && (journal.None? ==> tables == original)
      && (journal.Some? ==> ItemsOk(journal.value))
    }

    /** The working state in memory agrees with the durable world, and forgets no journaled target. */
    ghost predicate Sound(state: Journal) {
      && Inv() && journal.Some? && ItemsOk(state)
      && (forall name :: name in state.items && journal.value.items[name].target.Some? ==>
            state.items[name].target == journal.value.items[name].target)
    }

    /** ... and this entry's source is still live under its own name. */
    ghost predicate StagingSound(name: string, state: Journal) {
      Sound(state) && name in state.items && !Swapped(name)
    }

    // ----- Durable effects -----

    function Issued(c: Command, after: map<Name, Table>): World {
      this.(tables := after, log := log + [c])
    }

    function Saved(state: Journal): World {
      this.(journal := Some(state))
    }

    function Created(name: string): World {
      this.(nextUuid := nextUuid + 1).Issued(CreateTable(name, nextUuid), tables[Staging(name) := Table(nextUuid, true, map[])])
    }

    function WithStagedRows(name: string, c: Command, rows: Content): World
      requires Staging(name) in tables
    {
      Issued(c, tables[Staging(name) := tables[Staging(name)].(rows := rows)])
    }

    function Exchanged(name: string): World
      requires Live(name) in tables && Staging(name) in tables
    {
      Issued(Exchange(name), tables[Live(name) := tables[Staging(name)]][Staging(name) := tables[Live(name)]])
    }

    function Dropped(name: string): World
      requires Staging(name) in tables
    {
      Issued(DropTable(name, tables[Staging(name)].uuid), tables - {Staging(name)})
    }
  }

  lemma SavedKeeps(w: World, state: Journal)
    requires w.Sound(state)
    ensures w.Saved(state).Sound(state)
  {
    var v := w.Saved(state);
    forall name | name in state.items ensures v.ItemOk(name, state.items[name]) {
      assert w.ItemOk(name, state.items[name]);
    }
    forall c | c in v.log ensures v.CommandOk(c) {
      assert w.CommandOk(c);
    }
    assert forall name :: Live(name) in w.original ==> v.Swapped(name) == w.Swapped(name);
    assert v.ItemsOk(state);
  }

  /** Replacing one entry of the working state by a truthful one that keeps the journaled target. */
  lemma EntryReplaced(w: World, name: string, state: Journal, item: Item)
    requires w.Sound(state) && name in state.items && w.ItemOk(name, item)
    requires w.journal.value.items[name].target.Some? ==> item.target == w.journal.value.items[name].target
    ensures w.Sound(state.(items := state.items[name := item]))
  {
  }

  /** The durable worlds differ at most in this table's two names, the log and fresh identities. */
  predicate TouchesOnly(w: World, v: World, name: string) {
    && w.original == v.original && w.keep == v.keep && w.journal == v.journal && w.nextUuid <= v.nextUuid
    && Live(name) in v.tables
    && w.tables - {Live(name), Staging(name)} == v.tables - {Live(name), Staging(name)}
  }

  lemma Elsewhere(w: World, v: World, name: string, n: Name)
    requires TouchesOnly(w, v, name) && n != Live(name) && n != Staging(name)
    ensures n in w.tables <==> n in v.tables
    ensures n in w.tables ==> w.tables[n] == v.tables[n]
  {
    var changed := {Live(name), Staging(name)};
    assert n in w.tables <==> n in w.tables - changed;
    assert n in v.tables <==> n in v.tables - changed;
    if n in w.tables {
      assert (w.tables - changed)[n] == w.tables[n] && (v.tables - changed)[n] == v.tables[n];
    }
  }

  /** Entries of other tables do not notice a change to this table's two names. */
  lemma ItemsFrame(w: World, v: World, name: string, state: Journal)
    requires w.ItemsOk(state) && TouchesOnly(w, v, name)
    requires name in state.items ==> v.ItemOk(name, state.items[name])
    ensures v.ItemsOk(state)
  {
    forall m | m in state.items ensures v.ItemOk(m, state.items[m]) {
      assert w.ItemOk(m, state.items[m]);
      if m != name {
        Elsewhere(w, v, name, Live(m));
        Elsewhere(w, v, name, Staging(m));
      }
    }
  }

  lemma LogFrame(w: World, v: World, name: string, c: Command)
    requires w.LogOk() && TouchesOnly(w, v, name) && Live(name) in w.original && Live(name) in w.tables
    requires v.log == w.log + [c] && v.CommandOk(c)
    requires c.Exchange? ==> c.table == name && !w.Swapped(name)
    requires v.Swapped(name) == (w.Swapped(name) || c.Exchange?)
    ensures v.LogOk()
  {
    ExchangesSnoc(w.log, c);
    forall d | d in v.log ensures v.CommandOk(d) {
      assert d in w.log ==> w.CommandOk(d);
    }
    forall m | Live(m) in v.original
      ensures Exchanges(v.log, m) == if v.Swapped(m) then 1 else 0
    {
      if m != name {
        Elsewhere(w, v, name, Live(m));
        assert v.Swapped(m) == w.Swapped(m);
      }
    }
  }

  lemma OthersFrame(w: World, v: World, name: string)
    requires w.OthersUntouched() && TouchesOnly(w, v, name) && w.InScope(name)
    ensures v.OthersUntouched()
  {
    forall n | n in v.original && (n.Live? ==> !v.InScope(n.table)) ensures n in v.tables && v.tables[n] == v.original[n] {
      assert n in w.tables && w.tables[n] == w.original[n];
      assert Staging(name) !in w.original;
      Elsewhere(w, v, name, n);
    }
    forall n | n in v.tables && n !in v.original ensures n.Staging? && v.InScope(n.table) {
      if n != Live(name) && n != Staging(name) {
        Elsewhere(w, v, name, n);
      }
    }
  }

  /** One command on one table keeps the whole invariant when it keeps that table's entries and the log's rules. */
  lemma CommandKeeps(w: World, v: World, name: string, state: Journal, c: Command)
    requires w.Sound(state) && name in state.items && TouchesOnly(w, v, name)
    requires v.log == w.log + [c] && v.CommandOk(c)
    requires c.Exchange? ==> c.table == name && !w.Swapped(name)
    requires v.Swapped(name) == (w.Swapped(name) || c.Exchange?)
    requires v.ItemOk(name, state.items[name]) && v.ItemOk(name, w.journal.value.items[name])
    ensures v.Sound(state)
  {
    assert w.ItemOk(name, state.items[name]);
    ItemsFrame(w, v, name, state);
    ItemsFrame(w, v, name, w.journal.value);
    LogFrame(w, v, name, c);
    OthersFrame(w, v, name);
  }

  /** What soundness says of one entry: the working one and the journaled one are truthful. */
  lemma SoundItem(w: World, name: string, state: Journal)
    requires w.Sound(state) && name in state.items
    ensures w.journal.Some? && name in w.journal.value.items
    ensures w.ItemOk(name, state.items[name]) && w.ItemOk(name, w.journal.value.items[name])
  {
  }

  lemma CreatedItem(w: World, name: string, state: Journal, item: Item)
    requires w.StagingSound(name, state) && w.ItemOk(name, item) && Staging(name) !in w.tables
    ensures w.Created(name).ItemOk(name, item) && !w.Created(name).Swapped(name)
  {
  }

  lemma CreatedKeeps(w: World, name: string, state: Journal)
    requires w.StagingSound(name, state) && Staging(name) !in w.tables
    ensures w.Created(name).StagingSound(name, state)
  {
    SoundItem(w, name, state);
    hide World.Sound;
    CreatedItem(w, name, state, state.items[name]);
    CreatedItem(w, name, state, w.journal.value.items[name]);
    CommandKeeps(w, w.Created(name), name, state, CreateTable(name, w.nextUuid));
  }

  lemma StagedItem(w: World, name: string, c: Command, rows: Content, item: Item)
    requires w.ItemOk(name, item) && !w.Swapped(name) && Staging(name) in w.tables && rows.Keys <= w.Wanted(name).Keys
    ensures w.WithStagedRows(name, c, rows).ItemOk(name, item) && !w.WithStagedRows(name, c, rows).Swapped(name)
  {
  }

  lemma StagedRowsKeep(w: World, name: string, state: Journal, c: Command, rows: Content)
    requires w.StagingSound(name, state) && Staging(name) in w.tables
    requires rows.Keys <= w.Wanted(name).Keys
    requires c == DropPartition(name, w.tables[Staging(name)].uuid) || c == InsertRows(name, w.tables[Staging(name)].uuid)
    requires c.DropPartition? ==> w.journal.value.items[name].target.Some?
    ensures w.WithStagedRows(name, c, rows).StagingSound(name, state)
  {
    SoundItem(w, name, state);
    hide World.Sound;
    StagedItem(w, name, c, rows, state.items[name]);
    StagedItem(w, name, c, rows, w.journal.value.items[name]);
    CommandKeeps(w, w.WithStagedRows(name, c, rows), name, state, c);
  }

  /** Both the working entry and the journaled one are ready for the exchange. */
  ghost predicate ReadyToExchange(w: World, name: string, state: Journal) {
    && w.StagingSound(name, state) && Staging(name) in w.tables
    && w.tables[Staging(name)].rows == w.Wanted(name)
    && state.items[name].verified.Some? && w.journal.value.items[name].verified.Some?
  }

  lemma ExchangedItem(w: World, name: string, item: Item)
    requires w.ItemOk(name, item) && !w.Swapped(name) && Staging(name) in w.tables
    requires w.tables[Staging(name)].rows == w.Wanted(name) && item.verified.Some?
    ensures w.Exchanged(name).ItemOk(name, item) && w.Exchanged(name).Swapped(name)
  {
  }

  lemma ExchangedKeeps(w: World, name: string, state: Journal)
    requires ReadyToExchange(w, name, state)
    ensures w.Exchanged(name).Sound(state) && w.Exchanged(name).Swapped(name)
  {
    SoundItem(w, name, state);
    hide World.Sound;
    ExchangedItem(w, name, state.items[name]);
    ExchangedItem(w, name, w.journal.value.items[name]);
    CommandKeeps(w, w.Exchanged(name), name, state, Exchange(name));
  }

  lemma DroppedItem(w: World, name: string, item: Item)
    requires w.ItemOk(name, item) && w.Swapped(name) && Staging(name) in w.tables
    ensures w.Dropped(name).ItemOk(name, item) && w.Dropped(name).Swapped(name)
  {
  }

  lemma DroppedKeeps(w: World, name: string, state: Journal)
    requires w.Sound(state) && name in state.items && w.Swapped(name) && Staging(name) in w.tables
    ensures w.Dropped(name).Sound(state) && w.Dropped(name).Swapped(name)
  {
    SoundItem(w, name, state);
    hide World.Sound;
    DroppedItem(w, name, state.items[name]);
    DroppedItem(w, name, w.journal.value.items[name]);
    CommandKeeps(w, w.Dropped(name), name, state, DropTable(name, w.tables[Staging(name)].uuid));
  }

  // ---------- What the invariant promises ----------

  /** The retained rows of a table can be read back from somewhere. */
  predicate Survives(w: World, name: string)
    requires Live(name) in w.original
  {
    || (Live(name) in w.tables && w.tables[Live(name)] == w.Source(name))
    || (Staging(name) in w.tables && w.tables[Staging(name)] == w.Source(name))
    || (&& w.journal.Some? && name in w.journal.value.items
        && var item := w.journal.value.items[name];
        && item.target.Some? && item.verified.Some? && Proves(item.verified.value, w.Wanted(name))
        && Live(name) in w.tables && w.tables[Live(name)] == Table(item.target.value, true, w.Wanted(name)))
  }

  /** A table's own name holds every row to retain as often as the original did. */
  ghost predicate Readable(w: World, name: string)
    requires Live(name) in w.original
  {
    && Live(name) in w.tables
    && forall r: Row :: (ByCheckpointSet(name) ==> r.checkpointSet in w.keep) ==>
         Multiplicity(w.tables[Live(name)].rows, r) == Multiplicity(w.original[Live(name)].rows, r)
  }

  predicate Finished(w: World) {
    w.journal.Some? && forall name :: name in w.journal.value.items ==> w.journal.value.items[name].complete
  }

  /**
   * Main result for every durable state: nothing outside the migrated names changes, each table's retained rows
   * survive, it was exchanged at most once, partitions were dropped only from its journaled staging table, and
   * only its source was ever dropped.
   */
  lemma InvMeansNoLoss(w: World, name: string)
    requires w.Inv() && w.InScope(name)
    ensures Survives(w, name)
    ensures Exchanges(w.log, name) <= 1
    ensures Exchanges(w.log, name) == 0 ==> w.tables[Live(name)] == w.Source(name)
    ensures forall uuid :: DropTable(name, uuid) in w.log ==> uuid == w.Source(name).uuid
    ensures forall uuid :: DropPartition(name, uuid) in w.log ==> uuid != w.Source(name).uuid
    ensures Finished(w) ==> w.tables[Live(name)].rows == w.Wanted(name) && Staging(name) !in w.tables
    ensures Readable(w, name)
    ensures Finished(w) ==>
      && (forall r :: RowKept(name, w.keep, w.original[Live(name)].rows, w.tables[Live(name)].rows, r))
      && (!ByCheckpointSet(name) ==> w.tables[Live(name)].rows == w.original[Live(name)].rows)
  {
    RetainedRows(name, w.keep, w.original[Live(name)].rows);
    if w.journal.Some? {
      assert name in w.journal.value.items;
      assert w.ItemOk(name, w.journal.value.items[name]);
    }
    forall uuid | DropTable(name, uuid) in w.log ensures uuid == w.Source(name).uuid {
      assert w.CommandOk(DropTable(name, uuid));
    }
    forall uuid | DropPartition(name, uuid) in w.log ensures uuid != w.Source(name).uuid {
      assert w.CommandOk(DropPartition(name, uuid));
    }
  }
}
