/** Write-once build certificates: bars never without their inputs, indicators never without bars, seeds never without indicators. */
module MarketLedger {
  import opened Common
  import opened PriorState

  datatype Stage = Broker | Bars | Technical

  /** A published unit's place. */
  datatype Slot = Slot(day: int, stage: Stage)

  /** Row count, distinct keys and content hash of what one attempt stored. */
  datatype Evidence = Evidence(n: nat, unique: nat, hash: nat)

  datatype Ledger = Ledger(units: map<Slot, Unit>, seeds: map<int, Seed>, outputs: map<(Slot, nat), Evidence>, attempts: nat)
  {
    predicate Stored(slot: Slot) {
      slot in units ==>
        && units[slot].attempt < attempts && (slot, units[slot].attempt) in outputs
        && var e := outputs[(slot, units[slot].attempt)];
          e.n == units[slot].rows && e.hash == units[slot].hash && e.n == e.unique
    }

    ghost predicate Day(d: int) {
      && (Slot(d, Bars) in units ==>
            && Slot(d, Broker) in units
            && units[Slot(d, Broker)].attempt == units[Slot(d, Bars)].attempt
            && units[Slot(d, Broker)].source == units[Slot(d, Bars)].source)
      && (Slot(d, Technical) in units ==>
            && Slot(d, Bars) in units && units[Slot(d, Technical)].source.DependencyDigest?
            && units[Slot(d, Technical)].source.bars == units[Slot(d, Bars)])
      && (d in seeds ==>
            && Slot(d, Technical) in units && seeds[d].attempt == units[Slot(d, Technical)].attempt
            && units[Slot(d, Technical)].source == DependencyDigest(units[Slot(d, Bars)], seeds[d].priorHash))
    }

    /** What every reachable ledger satisfies. */
    ghost predicate Sound() {
      && (forall slot :: slot in units ==> Stored(slot))
      && (forall d: int :: Day(d))
      && (forall slot, a: nat :: (slot, a) in outputs ==> a < attempts)
    }

    /** Published units and seeds are there for good. */
    ghost predicate KeptBy(later: Ledger) {
      && (forall slot :: slot in units ==> slot in later.units && later.units[slot] == units[slot])
      && (forall d :: d in seeds ==> d in later.seeds && later.seeds[d] == seeds[d])
    }

    /** Inputs published, bars not. */
    predicate HalfPublished(d: int) {
      Slot(d, Broker) in units && Slot(d, Bars) !in units
    }

    function WithUnit(slot: Slot, u: Unit): Ledger {
      this.(units := units[slot := u])
    }

    function WithOutput(slot: Slot, attempt: nat, e: Evidence): Ledger {
      this.(outputs := outputs[(slot, attempt) := e])
    }

    function WithAttempt(): Ledger {
      this.(attempts := attempts + 1)
    }
  }

  /** An output of an attempt nothing was published from disturbs nothing. */
  lemma OutputSound(l: Ledger, slot: Slot, attempt: nat, e: Evidence)
    requires l.Sound() && attempt < l.attempts && (slot in l.units ==> l.units[slot].attempt != attempt)
    ensures l.WithOutput(slot, attempt, e).Sound() && l.KeptBy(l.WithOutput(slot, attempt, e))
  {
    var m := l.WithOutput(slot, attempt, e);
    forall s | s in m.units ensures m.Stored(s) {
      assert l.Stored(s);
    }
    forall d: int ensures m.Day(d) {
      assert l.Day(d);
    }
  }

  lemma AttemptSound(l: Ledger)
    requires l.Sound()
    ensures l.WithAttempt().Sound() && l.KeptBy(l.WithAttempt())
  {
    var m := l.WithAttempt();
    forall s | s in m.units ensures m.Stored(s) {
      assert l.Stored(s);
    }
    forall d: int ensures m.Day(d) {
      assert l.Day(d);
    }
  }

  lemma UnitSound(l: Ledger, slot: Slot, u: Unit)
    requires l.Sound() && slot !in l.units && l.WithUnit(slot, u).Stored(slot)
    requires slot.stage == Bars ==>
      Slot(slot.day, Broker) in l.units && l.units[Slot(slot.day, Broker)].attempt == u.attempt
      && l.units[Slot(slot.day, Broker)].source == u.source
    requires slot.stage == Technical ==>
      Slot(slot.day, Bars) in l.units && u.source.DependencyDigest? && u.source.bars == l.units[Slot(slot.day, Bars)]
    ensures l.WithUnit(slot, u).Sound() && l.KeptBy(l.WithUnit(slot, u))
  {
    var m := l.WithUnit(slot, u);
    forall s | s in m.units ensures m.Stored(s) {
      assert s != slot ==> l.Stored(s);
    }
    forall d: int ensures m.Day(d) {
      assert l.Day(d);
    }
  }

  lemma SeedSound(l: Ledger, d: int, seed: Seed)
    requires l.Sound() && d !in l.seeds && Slot(d, Technical) in l.units
    requires seed.attempt == l.units[Slot(d, Technical)].attempt
    requires l.units[Slot(d, Technical)].source.DependencyDigest? && l.units[Slot(d, Technical)].source.prior == seed.priorHash
    ensures l.(seeds := l.seeds[d := seed]).Sound() && l.KeptBy(l.(seeds := l.seeds[d := seed]))
  {
    var m := l.(seeds := l.seeds[d := seed]);
    forall s | s in m.units ensures m.Stored(s) {
      assert l.Stored(s);
    }
    forall e: int ensures m.Day(e) {
      assert l.Day(e);
    }
  }

  // ---------- What a build reads and computes ----------

  datatype BuildError =
    | DependencyChanged | BrokenOutput | MissingBroker | DuplicateKeys | InvalidOutput | SourceChanged | ConflictingUnit
    | MissingCertifiedBars | PriorFailed(error: Error) | AttemptsDiffer | SeedWithoutIndicators | ConflictingSeed

  datatype Finish = Died | Done | Skipped | Failed(error: BuildError)

  /** What a build computes of one session, and whether its own validations pass. */
  datatype Work = Work(broker: Evidence, bars: Evidence, technical: Evidence, sourceAfter: nat,
                       barsValid: bool, technicalValid: bool)

  /** One session to build; `torn` is what a dying store leaves. */
  datatype Session = Session(day: int, evidence: nat, work: Work, torn: Evidence, requested: bool, predecessor: Option<int>)

  /** What a build reads besides its own ledger: its name, the sessions other builds certified, what the stored rows of an
      attempt say of a session's closing values, and the splits. */
  datatype Context = Context(build: nat, others: History, frames: (int, nat, nat) -> Frames, splits: seq<Split>)

  /** A session of this build has a candidate once its indicators and a seed of the same attempt are published. */
  predicate Joined(l: Ledger, d: int) {
    d in l.seeds && Slot(d, Technical) in l.units && l.seeds[d].attempt == l.units[Slot(d, Technical)].attempt
  }

  function OwnLink(x: Context, l: Ledger, d: int): Link
    requires Joined(l, d)
  {
    var u := l.units[Slot(d, Technical)];
    var bars := if Slot(d, Bars) in l.units then Some(l.units[Slot(d, Bars)]) else None;
    Link(Some(Candidate(x.build, u.attempt, u.source)), l.Stored(Slot(d, Technical)), Some(l.seeds[d]), bars,
         l.Stored(Slot(d, Bars)), x.frames(d, u.attempt, if bars.Some? then bars.value.attempt else 0), u.rows)
  }

  /** The sessions a lookup sees: this build's own before any other's. */
  function View(x: Context, l: Ledger): History {
    map d | d in l.seeds.Keys + x.others.Keys && (Joined(l, d) || d in x.others) ::
      if Joined(l, d) then OwnLink(x, l, d) else x.others[d]
  }

  function PriorOf(x: Context, l: Ledger, s: Session): Answer {
    Prior(View(x, l), Asof(s.day, x.splits), s.predecessor, [])
  }

  /** The indicator rows of the predecessor's candidate, if it has one. */
  function PredecessorRows(x: Context, l: Ledger, predecessor: Option<int>): Option<nat> {
    if predecessor.Some? && predecessor.value in View(x, l) && View(x, l)[predecessor.value].candidate.Some? then
      Some(View(x, l)[predecessor.value].rows)
    else None
  }

  function SeedOf(attempt: nat, predecessor: Option<int>, prior: Option<Found>): Seed {
    Seed(attempt, if prior.Some? then 1 else 0, predecessor, if prior.Some? then Some(prior.value.build) else None,
         if prior.Some? then Some(prior.value.hash) else None)
  }

  function Dependency(bars: Unit, prior: Option<Found>): Digest {
    DependencyDigest(bars, if prior.Some? then Some(prior.value.hash) else None)
  }

  /** The dependency a published unit may be resumed under: the current one, or the one its own seed recorded when only a
      quote-only predecessor's bookkeeping moved. */
  function ResumeHash(technical: Option<Unit>, seed: Option<Seed>, predecessor: Option<int>, prior: Option<Found>,
                      predecessorRows: Option<nat>, bars: Unit, current: Digest): (r: Option<Digest>)
    ensures r.Some? && technical.Some? ==> r.value == technical.value.source
    ensures r.Some? && r.value != current ==>
      && technical.Some? && seed.Some? && prior.Some? && predecessorRows == Some(0)
      && seed.value.attempt == technical.value.attempt && seed.value.priorBuild == Some(prior.value.build)
  {
    if technical.None? || technical.value.source == current then Some(current)
    else if predecessor.None? || prior.None? || seed.None? || seed.value.attempt != technical.value.attempt then None
    else if seed.value.mode != 1 || seed.value.predecessor != predecessor || seed.value.priorBuild != Some(prior.value.build)
            || seed.value.priorHash.None? then None
    else if predecessorRows != Some(0) then None
    else if DependencyDigest(bars, seed.value.priorHash) != technical.value.source then None
    else Some(DependencyDigest(bars, seed.value.priorHash))
  }

  /** A session is resumed exactly when nothing is published yet, when what is published depends on just this, or when it was
      published under a seed of its own attempt, carried from the same predecessor and build, and only the bookkeeping of that
      quote-only predecessor has moved since. */
  lemma ResumesIff(technical: Option<Unit>, seed: Option<Seed>, predecessor: Option<int>, prior: Option<Found>,
                   predecessorRows: Option<nat>, bars: Unit, current: Digest)
    ensures ResumeHash(technical, seed, predecessor, prior, predecessorRows, bars, current).Some? <==>
      || technical.None? || technical.value.source == current
      || (&& predecessor.Some? && prior.Some? && predecessorRows == Some(0)
          && seed.Some? && seed.value.attempt == technical.value.attempt && seed.value.mode == 1
          && seed.value.predecessor == predecessor && seed.value.priorBuild == Some(prior.value.build)
          && seed.value.priorHash.Some? && technical.value.source == DependencyDigest(bars, seed.value.priorHash))
  {
  }

  // ---------- What an undisturbed build makes of a ledger ----------

  predicate GoodKeys(e: Evidence) {
    e.n == e.unique
  }

  /** A session's inputs and bars can be computed. */
  predicate GoodWork(s: Session) {
    GoodKeys(s.work.broker) && s.work.barsValid && s.work.sourceAfter == s.evidence
  }

  /** Its bars are published from this source, or nothing of it is and they can be computed. */
  predicate BarsReady(l: Ledger, s: Session) {
    if Slot(s.day, Bars) in l.units then l.units[Slot(s.day, Bars)].source == SourceDigest(s.evidence)
    else !l.HalfPublished(s.day) && GoodWork(s) && GoodKeys(s.work.bars)
  }

  function UnitFrom(attempt: nat, source: Digest, e: Evidence): Unit {
    Unit(attempt, source, e.n, e.hash)
  }

  function BarsDone(l: Ledger, s: Session): Ledger {
    if Slot(s.day, Bars) in l.units then l
    else
      var broker, bars, source := Slot(s.day, Broker), Slot(s.day, Bars), SourceDigest(s.evidence);
      l.WithAttempt().WithOutput(broker, l.attempts, s.work.broker).WithOutput(bars, l.attempts, s.work.bars)
       .WithUnit(broker, UnitFrom(l.attempts, source, s.work.broker)).WithUnit(bars, UnitFrom(l.attempts, source, s.work.bars))
  }

  function UnitAt(l: Ledger, slot: Slot): Option<Unit> {
    if slot in l.units then Some(l.units[slot]) else None
  }

  function Resumed(x: Context, l: Ledger, s: Session, prior: Option<Found>): Option<Digest>
    requires Slot(s.day, Bars) in l.units
  {
    var bars := l.units[Slot(s.day, Bars)];
    ResumeHash(UnitAt(l, Slot(s.day, Technical)), if s.day in l.seeds then Some(l.seeds[s.day]) else None, s.predecessor, prior,
               PredecessorRows(x, l, s.predecessor), bars, Dependency(bars, prior))
  }

  /** Its bars are there, the state carried into it is found, and its indicators are resumable or can be computed. */
  predicate TechnicalReady(x: Context, l: Ledger, s: Session) {
    && Slot(s.day, Bars) in l.units
    && PriorOf(x, l, s).Ok?
    && Resumed(x, l, s, PriorOf(x, l, s).found).Some?
    && (Slot(s.day, Technical) in l.units || (s.work.technicalValid && GoodKeys(s.work.technical)))
  }

  function TechnicalDone(x: Context, l: Ledger, s: Session): Ledger
    requires TechnicalReady(x, l, s)
  {
    var slot, found := Slot(s.day, Technical), PriorOf(x, l, s).found;
    if slot in l.units && s.day in l.seeds then l
    else if slot in l.units then l.(seeds := l.seeds[s.day := SeedOf(l.units[slot].attempt, s.predecessor, found)])
    else
      var unit := UnitFrom(l.attempts, Dependency(l.units[Slot(s.day, Bars)], found), s.work.technical);
      var m := l.WithAttempt().WithOutput(slot, l.attempts, s.work.technical).WithUnit(slot, unit);
      m.(seeds := m.seeds[s.day := SeedOf(l.attempts, s.predecessor, found)])
  }

  /** Whether an undisturbed build gets through these sessions' bars, one after another. */
  predicate AllBarsReady(l: Ledger, sessions: seq<Session>)
    decreases |sessions|
  {
    sessions == [] || (BarsReady(l, sessions[0]) && AllBarsReady(BarsDone(l, sessions[0]), sessions[1..]))
  }

  function AllBarsDone(l: Ledger, sessions: seq<Session>): Ledger
    decreases |sessions|
  {
    if sessions == [] then l else AllBarsDone(BarsDone(l, sessions[0]), sessions[1..])
  }

  function TechnicalStep(x: Context, l: Ledger, s: Session): Ledger
    requires s.requested ==> TechnicalReady(x, l, s)
  {
    if s.requested then TechnicalDone(x, l, s) else l
  }

  predicate AllTechnicalReady(x: Context, l: Ledger, sessions: seq<Session>)
    decreases |sessions|
  {
    sessions == []
    || ((sessions[0].requested ==> TechnicalReady(x, l, sessions[0]))
        && AllTechnicalReady(x, TechnicalStep(x, l, sessions[0]), sessions[1..]))
  }

  predicate Ready(x: Context, l: Ledger, sessions: seq<Session>) {
    AllBarsReady(l, sessions) && AllTechnicalReady(x, AllBarsDone(l, sessions), sessions)
  }

  /** At least this many more durable effects happen. */
  predicate Lasts(budget: Option<nat>, n: nat) {
    budget.None? || budget.value >= n
  }

  // ---------- The builder ----------

  class Builder {
    const x: Context
    var units: map<Slot, Unit>
    var seeds: map<int, Seed>
    var outputs: map<(Slot, nat), Evidence>
    var attempts: nat

    /** How many more durable effects happen before the process dies; none means it is not interrupted. */
    var budget: Option<nat>

    function Now(): Ledger
      reads this
    {
      Ledger(units, seeds, outputs, attempts)
    }

    constructor (x: Context)
      ensures Now() == Ledger(map[], map[], map[], 0) && Now().Sound() && this.x == x && budget.None?
    {
      this.x := x;
      units, seeds, outputs, attempts, budget := map[], map[], map[], 0, None;
    }

    method NewAttempt() returns (attempt: nat)
      requires Now().Sound()
      modifies this`attempts
      ensures attempt == old(attempts) && Now() == old(Now()).WithAttempt() && Now().Sound() && old(Now()).KeptBy(Now())
    {
      AttemptSound(Now());
      attempt := attempts;
      attempts := attempts + 1;
    }

    /** Stores an attempt's rows; dying half-way leaves some other content under the same attempt. */
    method Store(slot: Slot, attempt: nat, e: Evidence, torn: Evidence) returns (alive: bool)
      requires Now().Sound() && attempt < attempts && (slot in units ==> units[slot].attempt != attempt)
      modifies this`budget, this`outputs
      ensures Now().Sound() && old(Now()).KeptBy(Now())
      ensures Now() == old(Now()).WithOutput(slot, attempt, if alive then e else torn)
      ensures alive == Alive(old(budget)) && budget == Remaining(old(budget))
    {
      alive, budget := Alive(budget), Remaining(budget);
      OutputSound(Now(), slot, attempt, if alive then e else torn);
      outputs := outputs[(slot, attempt) := if alive then e else torn];
    }

    /** Publishes once: a place already taken by anything else is a conflict and stays as it is. */
    method Publish(slot: Slot, u: Unit) returns (alive: bool, error: Option<BuildError>)
      modifies this`budget, this`units
      ensures alive == Alive(old(budget)) && budget == Remaining(old(budget))
      ensures Now() == if alive && slot !in old(units) then old(Now()).WithUnit(slot, u) else old(Now())
      ensures alive ==> (error.None? <==> slot in units && units[slot] == u)
      ensures alive && error.Some? ==> error.value == ConflictingUnit && slot in old(units)
    {
      error := None;
      alive, budget := Alive(budget), Remaining(budget);
      if alive {
        if slot !in units {
          units := units[slot := u];
        }
        if units[slot] != u {
          error := Some(ConflictingUnit);
        }
      }
    }

    method PutSeed(d: int, seed: Seed) returns (alive: bool, error: Option<BuildError>)
      modifies this`budget, this`seeds
      ensures alive == Alive(old(budget)) && budget == Remaining(old(budget))
      ensures Now() == if alive && d !in old(seeds) then old(Now()).(seeds := old(seeds)[d := seed]) else old(Now())
      ensures alive ==> (error.None? <==> d in seeds && seeds[d] == seed)
      ensures alive && error.Some? ==> error.value == ConflictingSeed && d in old(seeds)
    {
      error := None;
      alive, budget := Alive(budget), Remaining(budget);
      if alive {
        if d !in seeds {
          seeds := seeds[d := seed];
        }
        if seeds[d] != seed {
          error := Some(ConflictingSeed);
        }
      }
    }

    /** Looks a unit up, refusing another dependency or damaged output. */
    method Completed(slot: Slot, source: Digest) returns (found: bool, error: Option<BuildError>)
      requires Now().Sound()
      ensures found <==> slot in units && units[slot].source == source
      ensures error == if slot in units && units[slot].source != source then Some(DependencyChanged) else None
    {
      found, error := false, None;
      if slot in units {
        var u := units[slot];
        if u.source != source {
          return false, Some(DependencyChanged);
        }
        assert Now().Stored(slot);
        var e := outputs[(slot, u.attempt)];
        if e.n != u.rows || e.hash != u.hash || e.n != e.unique {
          return false, Some(BrokenOutput);
        }
        found := true;
      }
    }

    /** A session's inputs and bars, published in that order under one attempt. A session that has its inputs but not its
        bars is refused for good; it comes to that exactly when the process dies between the two publications or the bars
        turn out to have duplicate keys after the inputs were published. */
    method BuildBars(s: Session) returns (finish: Finish)
      requires Now().Sound()
      modifies this`budget, this`units, this`outputs, this`attempts
      ensures Now().Sound() && old(Now()).KeptBy(Now()) && seeds == old(seeds)
      ensures finish == Skipped || finish == Done ==>
        Slot(s.day, Bars) in units && units[Slot(s.day, Bars)].source == SourceDigest(s.evidence)
      ensures finish != Failed(BrokenOutput) && finish != Failed(MissingBroker)
      ensures old(budget).None? ==> finish != Died && budget.None?
      ensures old(budget).None? ==> (finish == Done || finish == Skipped <==> BarsReady(old(Now()), s))
      ensures old(budget).None? && BarsReady(old(Now()), s) ==> Now() == BarsDone(old(Now()), s)
      ensures Slot(s.day, Bars) !in old(units) ==>
        (finish == Done <==> BarsReady(old(Now()), s) && Lasts(old(budget), 4))
      ensures old(Now()).HalfPublished(s.day) ==> (finish.Failed? || finish.Died?) && Now().HalfPublished(s.day)
      ensures Slot(s.day, Bars) !in old(units) && !old(Now()).HalfPublished(s.day) ==>
        (Now().HalfPublished(s.day) <==>
         GoodWork(s) && Lasts(old(budget), 3) && (!GoodKeys(s.work.bars) || old(budget) == Some(3)))
      ensures old(budget).None? && Slot(s.day, Bars) !in old(units) && !old(Now()).HalfPublished(s.day)
              && GoodWork(s) && !GoodKeys(s.work.bars) ==>
        finish == Failed(DuplicateKeys)
    {
      var source := SourceDigest(s.evidence);
      var found, error := Completed(Slot(s.day, Bars), source);
      if error.Some? {
        return Failed(error.value);
      }
      if found {
        assert Now().Day(s.day);
        found, error := Completed(Slot(s.day, Broker), source);
        return if found then Skipped else Failed(MissingBroker);
      }
      var attempt := NewAttempt();
      FreshAttempt(old(Now()), Slot(s.day, Broker), attempt);
      FreshAttempt(old(Now()), Slot(s.day, Bars), attempt);
      var refused := StoreBars(s, attempt);
      if refused.Some? {
        return refused.value;
      }
      finish := PublishBars(s.day, attempt, source, s.work);
    }

    /** Stores both outputs of an attempt and validates them; nothing is published yet. */
    method StoreBars(s: Session, attempt: nat) returns (refused: Option<Finish>)
      requires Now().Sound() && attempt < attempts
      requires Slot(s.day, Broker) in units ==> units[Slot(s.day, Broker)].attempt != attempt
      requires Slot(s.day, Bars) in units ==> units[Slot(s.day, Bars)].attempt != attempt
      modifies this`budget, this`outputs
      ensures Now().Sound() && old(Now()).KeptBy(Now())
      ensures refused.None? <==> GoodWork(s) && Lasts(old(budget), 2)
      ensures refused.None? ==>
        && Now() == old(Now()).WithOutput(Slot(s.day, Broker), attempt, s.work.broker)
                              .WithOutput(Slot(s.day, Bars), attempt, s.work.bars)
        && budget == Remaining(Remaining(old(budget)))
      ensures refused.Some? ==>
        refused.value == Died || (refused.value.Failed? && refused.value.error in {DuplicateKeys, InvalidOutput, SourceChanged})
      ensures old(budget).None? ==> refused != Some(Died) && budget.None?
    {
      hide Ledger.Sound, Ledger.KeptBy;
      var alive := Store(Slot(s.day, Broker), attempt, s.work.broker, s.torn);
      if !alive {
        return Some(Died);
      }
      if !GoodKeys(s.work.broker) {
        return Some(Failed(DuplicateKeys));
      }
      ghost var before := Now();
      alive := Store(Slot(s.day, Bars), attempt, s.work.bars, s.torn);
      KeptTwice(old(Now()), before, Now());
      if !alive {
        return Some(Died);
      }
      if !s.work.barsValid {
        return Some(Failed(InvalidOutput));
      }
      refused := if s.work.sourceAfter != s.evidence then Some(Failed(SourceChanged)) else None;
    }

    method PublishBars(day: int, attempt: nat, source: Digest, work: Work) returns (finish: Finish)
      requires Now().Sound() && attempt < attempts && Slot(day, Bars) !in units
      requires Slot(day, Broker) in units ==> units[Slot(day, Broker)].attempt != attempt
      requires (Slot(day, Broker), attempt) in outputs && outputs[(Slot(day, Broker), attempt)] == work.broker
      requires (Slot(day, Bars), attempt) in outputs && outputs[(Slot(day, Bars), attempt)] == work.bars
      requires GoodKeys(work.broker)
      modifies this`budget, this`units
      ensures Now().Sound() && old(Now()).KeptBy(Now())
      ensures old(budget).None? ==> budget.None?
      ensures var m := old(Now()).WithUnit(Slot(day, Broker), UnitFrom(attempt, source, work.broker));
        if !Alive(old(budget)) then finish == Died && Now() == old(Now())
        else if Slot(day, Broker) in old(units) then finish == Failed(ConflictingUnit) && Now() == old(Now())
        else if !GoodKeys(work.bars) then finish == Failed(DuplicateKeys) && Now() == m
        else if !Lasts(old(budget), 2) then finish == Died && Now() == m
        else finish == Done && Now() == m.WithUnit(Slot(day, Bars), UnitFrom(attempt, source, work.bars))
    {
      var broker := UnitFrom(attempt, source, work.broker);
      ghost var before := Now();
      var alive, error := Publish(Slot(day, Broker), broker);
      if alive && Slot(day, Broker) !in old(units) {
        UnitSound(before, Slot(day, Broker), broker);
      }
      if !alive {
        return Died;
      }
      if error.Some? {
        return Failed(error.value);
      }
      if !GoodKeys(work.bars) {
        return Failed(DuplicateKeys);
      }
      var bars := UnitFrom(attempt, source, work.bars);
      before := Now();
      alive, error := Publish(Slot(day, Bars), bars);
      if alive {
        UnitSound(before, Slot(day, Bars), bars);
      }
      if !alive {
        return Died;
      }
      finish := if error.Some? then Failed(ConflictingUnit) else Done;
    }

    /** A session's indicators from its certified bars and the state this ledger and the others carry into it, then the
        seed that records how. */
    method BuildTechnical(s: Session) returns (finish: Finish)
      requires Now().Sound()
      modifies this`budget, this`units, this`seeds, this`outputs, this`attempts
      ensures Now().Sound() && old(Now()).KeptBy(Now())
      ensures finish == Done || finish == Skipped ==> Slot(s.day, Technical) in units && s.day in seeds
      ensures finish == Done && s.day !in old(seeds) ==>
        var prior := PriorOf(x, old(Now()), s);
        prior.Ok? && seeds[s.day] == SeedOf(seeds[s.day].attempt, s.predecessor, prior.found)
      ensures old(budget).None? ==> finish != Died && budget.None?
      ensures old(budget).None? ==> (finish == Done || finish == Skipped <==> TechnicalReady(x, old(Now()), s))
      ensures old(budget).None? && TechnicalReady(x, old(Now()), s) ==> Now() == TechnicalDone(x, old(Now()), s)
      ensures finish.Failed? ==>
        finish.error in {MissingCertifiedBars, DependencyChanged, DuplicateKeys, InvalidOutput} || finish.error.PriorFailed?
      ensures finish == Failed(MissingCertifiedBars) <==> Slot(s.day, Bars) !in old(units)
    {
      hide View, Prior, ResumeHash;
      if Slot(s.day, Bars) !in units {
        return Failed(MissingCertifiedBars);
      }
      var bars := units[Slot(s.day, Bars)];
      var prior := PriorOf(x, Now(), s);
      if prior.Err? {
        return Failed(PriorFailed(prior.error));
      }
      var current := Dependency(bars, prior.found);
      var resumed := Resumed(x, Now(), s, prior.found);
      assert Now().Day(s.day);
      if resumed.None? {
        return Failed(DependencyChanged);
      }
      ResumedIs(x, Now(), s, prior.found);
      var found, error := Completed(Slot(s.day, Technical), resumed.value);
      if found && s.day in seeds {
        return Skipped;
      }
      finish := StartTechnical(s, found, prior.found, current);
    }

    /** Publishes indicators unless a dead run already did, and then their seed. */
    method StartTechnical(s: Session, published: bool, prior: Option<Found>, current: Digest) returns (finish: Finish)
      requires Now().Sound() && s.day !in seeds && Slot(s.day, Bars) in units
      requires current == Dependency(units[Slot(s.day, Bars)], prior)
      requires published <==> Slot(s.day, Technical) in units
      requires published ==> units[Slot(s.day, Technical)].source == current
      modifies this`budget, this`units, this`seeds, this`outputs, this`attempts
      ensures Now().Sound() && old(Now()).KeptBy(Now())
      ensures finish == Done || finish == Died || finish == Failed(DuplicateKeys) || finish == Failed(InvalidOutput)
      ensures finish == Done ==>
        Slot(s.day, Technical) in units && s.day in seeds && seeds[s.day] == SeedOf(seeds[s.day].attempt, s.predecessor, prior)
      ensures old(budget).None? ==> finish != Died && budget.None?
      ensures old(budget).None? ==>
        (finish == Done <==> published || (s.work.technicalValid && GoodKeys(s.work.technical)))
      ensures old(budget).None? && finish == Done ==>
        var l, slot := old(Now()), Slot(s.day, Technical);
        var attempt := if published then l.units[slot].attempt else l.attempts;
        var m := if published then l
                 else l.WithAttempt().WithOutput(slot, attempt, s.work.technical)
                       .WithUnit(slot, UnitFrom(attempt, current, s.work.technical));
        Now() == m.(seeds := m.seeds[s.day := SeedOf(attempt, s.predecessor, prior)])
    {
      var attempt;
      if published {
        attempt := units[Slot(s.day, Technical)].attempt;
      } else {
        attempt := NewAttempt();
        FreshAttempt(old(Now()), Slot(s.day, Technical), attempt);
        var alive := Store(Slot(s.day, Technical), attempt, s.work.technical, s.torn);
        if !alive {
          return Died;
        }
        if !s.work.technicalValid {
          return Failed(InvalidOutput);
        }
        if !GoodKeys(s.work.technical) {
          return Failed(DuplicateKeys);
        }
        var unit := UnitFrom(attempt, current, s.work.technical);
        ghost var before := Now();
        UnitSound(before, Slot(s.day, Technical), unit);
        var error;
        alive, error := Publish(Slot(s.day, Technical), unit);
        if !alive {
          return Died;
        }
      }
      ghost var before := Now();
      var seed := SeedOf(attempt, s.predecessor, prior);
      SeedSound(before, s.day, seed);
      var alive, error := PutSeed(s.day, seed);
      if !alive {
        return Died;
      }
      return Done;
    }

    method BuildAllBars(sessions: seq<Session>) returns (finish: Finish)
      requires Now().Sound()
      modifies this
      ensures Now().Sound() && old(Now()).KeptBy(Now())
      ensures finish == Done ==> forall j :: 0 <= j < |sessions| ==> Slot(sessions[j].day, Bars) in units
      ensures old(budget).None? ==> finish != Died && budget.None?
      ensures old(budget).None? ==> (finish == Done <==> AllBarsReady(old(Now()), sessions))
      ensures old(budget).None? && finish == Done ==> Now() == AllBarsDone(old(Now()), sessions)
    {
      hide BarsReady, BarsDone, Ledger.Sound;
      var i := 0;
      while i < |sessions|
        invariant 0 <= i <= |sessions| && Now().Sound() && old(Now()).KeptBy(Now())
        invariant old(budget).None? ==> budget.None?
        invariant forall j :: 0 <= j < i ==> Slot(sessions[j].day, Bars) in units
        invariant old(budget).None? ==>
          && (AllBarsReady(old(Now()), sessions) <==> AllBarsReady(Now(), sessions[i..]))
          && AllBarsDone(old(Now()), sessions) == AllBarsDone(Now(), sessions[i..])
      {
        assert sessions[i..][0] == sessions[i] && sessions[i..][1..] == sessions[i + 1..];
        finish := BuildBars(sessions[i]);
        if finish != Done && finish != Skipped {
          return;
        }
        i := i + 1;
      }
      return Done;
    }

    method BuildAllTechnical(sessions: seq<Session>) returns (finish: Finish)
      requires Now().Sound()
      modifies this
      ensures Now().Sound() && old(Now()).KeptBy(Now())
      ensures finish == Done ==> forall j :: 0 <= j < |sessions| && sessions[j].requested ==>
        Slot(sessions[j].day, Technical) in units && sessions[j].day in seeds
      ensures old(budget).None? ==> finish != Died && budget.None?
      ensures old(budget).None? ==> (finish == Done <==> AllTechnicalReady(x, old(Now()), sessions))
    {
      hide TechnicalReady, TechnicalDone, PriorOf;
      var i := 0;
      while i < |sessions|
        invariant 0 <= i <= |sessions| && Now().Sound() && old(Now()).KeptBy(Now())
        invariant old(budget).None? ==> budget.None?
        invariant forall j :: 0 <= j < i && sessions[j].requested ==>
          Slot(sessions[j].day, Technical) in units && sessions[j].day in seeds
        invariant old(budget).None? ==>
          (AllTechnicalReady(x, old(Now()), sessions) <==> AllTechnicalReady(x, Now(), sessions[i..]))
      {
        assert sessions[i..][0] == sessions[i] && sessions[i..][1..] == sessions[i + 1..];
        if sessions[i].requested {
          finish := BuildTechnical(sessions[i]);
          if finish != Done && finish != Skipped {
            return;
          }
        }
        i := i + 1;
      }
      return Done;
    }

    /** One ticker: bars for every session in order, then indicators for the requested ones. */
    method BuildTicker(sessions: seq<Session>) returns (finish: Finish)
      requires Now().Sound()
      modifies this
      ensures Now().Sound() && old(Now()).KeptBy(Now())
      ensures finish == Done ==> forall i :: 0 <= i < |sessions| ==> Built(Now(), sessions[i])
      ensures old(budget).None? ==> finish != Died && budget.None?
      ensures old(budget).None? ==> (finish == Done <==> Ready(x, old(Now()), sessions))
    {
      finish := BuildAllBars(sessions);
      if finish != Done {
        return;
      }
      finish := BuildAllTechnical(sessions);
    }
  }

  predicate Built(l: Ledger, s: Session) {
    && Slot(s.day, Bars) in l.units
    && (s.requested ==> Slot(s.day, Technical) in l.units && s.day in l.seeds)
  }

  /** A resumable published unit is resumed under its own hash, which is the current one when its seed is missing. */
  lemma ResumedIs(x: Context, l: Ledger, s: Session, prior: Option<Found>)
    requires Slot(s.day, Bars) in l.units && Resumed(x, l, s, prior).Some?
    ensures Slot(s.day, Technical) in l.units ==> Resumed(x, l, s, prior).value == l.units[Slot(s.day, Technical)].source
    ensures s.day !in l.seeds ==> Resumed(x, l, s, prior).value == Dependency(l.units[Slot(s.day, Bars)], prior)
  {
  }

  lemma KeptTwice(a: Ledger, b: Ledger, c: Ledger)
    requires a.KeptBy(b) && b.KeptBy(c)
    ensures a.KeptBy(c)
  {
  }

  /** No published unit and no stored output belongs to an attempt not yet made. */
  lemma FreshAttempt(l: Ledger, slot: Slot, attempt: nat)
    requires l.Sound() && attempt == l.attempts
    ensures slot in l.units ==> l.units[slot].attempt != attempt
  {
    assert slot in l.units ==> l.Stored(slot);
  }

  // ---------- When an undisturbed build gets through ----------

  /** Nothing of a session is published. */
  predicate Untouched(l: Ledger, d: int) {
    Slot(d, Broker) !in l.units && Slot(d, Bars) !in l.units && Slot(d, Technical) !in l.units && d !in l.seeds
  }

  predicate Sane(s: Session) {
    GoodWork(s) && GoodKeys(s.work.bars) && s.work.technicalValid && GoodKeys(s.work.technical)
  }

  predicate Chronological(sessions: seq<Session>) {
    forall i, j :: 0 <= i < j < |sessions| ==> sessions[i].day < sessions[j].day
  }

  /** A predecessor that is none, has a seed in this ledger, or is priced in some other build's if it is there at all. */
  predicate Carries(x: Context, seeds: set<int>, predecessor: Option<int>) {
    predecessor.Some? && predecessor.value !in seeds && predecessor.value in x.others ==>
      var link := x.others[predecessor.value];
      link.candidate.None? || (Certified(link) && link.frames.AllFrames? && link.frames.finite)
  }

  /** Every requested session's predecessor carries, counting the sessions requested before it. */
  predicate AllCarry(x: Context, seeds: set<int>, sessions: seq<Session>)
    decreases |sessions|
  {
    sessions == []
    || ((sessions[0].requested ==> Carries(x, seeds, sessions[0].predecessor))
        && AllCarry(x, if sessions[0].requested then seeds + {sessions[0].day} else seeds, sessions[1..]))
  }

  ghost predicate PricesRead(x: Context) {
    forall d, a, b :: PriceRead(x, d, a, b)
  }

  predicate PriceRead(x: Context, d: int, a: nat, b: nat) {
    x.frames(d, a, b).AllFrames? && x.frames(d, a, b).finite
  }

  lemma BarsDoneSound(l: Ledger, s: Session)
    requires l.Sound() && Untouched(l, s.day) && Sane(s)
    ensures BarsReady(l, s) && BarsDone(l, s).Sound()
  {
    var broker, bars, source := Slot(s.day, Broker), Slot(s.day, Bars), SourceDigest(s.evidence);
    var l1 := l.WithAttempt();
    AttemptSound(l);
    var l2 := l1.WithOutput(broker, l.attempts, s.work.broker);
    OutputSound(l1, broker, l.attempts, s.work.broker);
    var l3 := l2.WithOutput(bars, l.attempts, s.work.bars);
    OutputSound(l2, bars, l.attempts, s.work.bars);
    var l4 := l3.WithUnit(broker, UnitFrom(l.attempts, source, s.work.broker));
    UnitSound(l3, broker, UnitFrom(l.attempts, source, s.work.broker));
    UnitSound(l4, bars, UnitFrom(l.attempts, source, s.work.bars));
  }

  /** Untouched sessions get all their bars, and nothing else changes. */
  lemma {:induction false} BarsPhase(l: Ledger, sessions: seq<Session>)
    requires l.Sound() && Chronological(sessions)
    requires forall i :: 0 <= i < |sessions| ==> Untouched(l, sessions[i].day) && Sane(sessions[i])
    ensures AllBarsReady(l, sessions)
    ensures var m := AllBarsDone(l, sessions);
      && m.Sound() && m.seeds == l.seeds
      && (forall slot :: slot in l.units ==> slot in m.units)
      && (forall slot :: slot in m.units && slot.stage == Technical ==> slot in l.units)
      && (forall i :: 0 <= i < |sessions| ==> Slot(sessions[i].day, Bars) in m.units)
    decreases |sessions|
  {
    hide Ledger.Sound, Sane;
    if sessions != [] {
      var s, rest := sessions[0], sessions[1..];
      BarsDoneSound(l, s);
      var m := BarsDone(l, s);
      forall i | 0 <= i < |rest| ensures Untouched(m, rest[i].day) && Sane(rest[i]) {
        assert rest[i] == sessions[i + 1];
        assert Untouched(l, rest[i].day);
      }
      BarsPhase(m, rest);
      forall i | 0 <= i < |sessions| ensures Slot(sessions[i].day, Bars) in AllBarsDone(l, sessions).units {
        assert i > 0 ==> sessions[i] == rest[i - 1];
      }
    }
  }

  /** In a sound ledger a session with a seed is found at once when its prices can be read. */
  lemma CarriedIsFound(x: Context, l: Ledger, s: Session)
    requires l.Sound() && PricesRead(x) && Carries(x, l.seeds.Keys, s.predecessor)
    ensures PriorOf(x, l, s).Ok?
  {
    if s.predecessor.Some? && s.predecessor.value in l.seeds {
      var d := s.predecessor.value;
      assert l.Day(d) && l.Stored(Slot(d, Technical)) && l.Stored(Slot(d, Bars));
      assert PriceRead(x, d, l.units[Slot(d, Technical)].attempt, l.units[Slot(d, Bars)].attempt);
      assert View(x, l)[d] == OwnLink(x, l, d);
    } else if s.predecessor.Some? {
      assert !Joined(l, s.predecessor.value);
    }
  }

  lemma TechnicalDoneSound(x: Context, l: Ledger, s: Session)
    requires l.Sound() && Slot(s.day, Bars) in l.units && Slot(s.day, Technical) !in l.units && s.day !in l.seeds && Sane(s)
    requires PriorOf(x, l, s).Ok?
    ensures TechnicalReady(x, l, s) && TechnicalDone(x, l, s).Sound()
  {
    hide View, Prior;
    var slot, found := Slot(s.day, Technical), PriorOf(x, l, s).found;
    var unit := UnitFrom(l.attempts, Dependency(l.units[Slot(s.day, Bars)], found), s.work.technical);
    var l1 := l.WithAttempt();
    AttemptSound(l);
    var l2 := l1.WithOutput(slot, l.attempts, s.work.technical);
    OutputSound(l1, slot, l.attempts, s.work.technical);
    UnitSound(l2, slot, unit);
    SeedSound(l2.WithUnit(slot, unit), s.day, SeedOf(l.attempts, s.predecessor, found));
  }

  /** A session just built can be built on. When it bears no price, a later lookup passes through it to the state it was itself
      built from, under the build and the hash that its seed names, or finds nothing if it was built from nothing. */
  lemma BuiltCarries(x: Context, l: Ledger, s: Session, now: Asof)
    requires l.Sound() && Slot(s.day, Technical) !in l.units && s.day !in l.seeds && Sane(s) && TechnicalReady(x, l, s)
    ensures var found, h := PriorOf(x, l, s).found, View(x, TechnicalDone(x, l, s));
      && s.day in h && Certified(h[s.day])
      && (h[s.day].frames.NoFrames? ==>
            if found.None? then Prior(h, now, Some(s.day), []) == Ok(None)
            else
              && s.predecessor.Some? && Names(h, s.day, found.value.build)
              && h[s.day].seed.value.priorHash == Some(found.value.hash)
              && (s.predecessor.value < s.day ==> QuoteOnly(h, s.day, s.predecessor.value)))
  {
    TechnicalDoneSound(x, l, s);
    var m := TechnicalDone(x, l, s);
    assert s.day in m.seeds && m.seeds[s.day] == SeedOf(l.attempts, s.predecessor, PriorOf(x, l, s).found);
    assert m.Day(s.day) && m.Stored(Slot(s.day, Technical)) && m.Stored(Slot(s.day, Bars));
    assert View(x, m)[s.day] == OwnLink(x, m, s.day);
  }

  lemma {:induction false} TechnicalPhase(x: Context, l: Ledger, sessions: seq<Session>)
    requires l.Sound() && Chronological(sessions) && PricesRead(x) && AllCarry(x, l.seeds.Keys, sessions)
    requires forall i :: 0 <= i < |sessions| ==>
      && Sane(sessions[i]) && Slot(sessions[i].day, Bars) in l.units
      && Slot(sessions[i].day, Technical) !in l.units && sessions[i].day !in l.seeds
    ensures AllTechnicalReady(x, l, sessions)
    decreases |sessions|
  {
    hide Ledger.Sound, Sane, PriorOf, PricesRead, Carries, Resumed;
    if sessions != [] {
      var s, rest := sessions[0], sessions[1..];
      if s.requested {
        CarriedIsFound(x, l, s);
        TechnicalDoneSound(x, l, s);
        assert TechnicalDone(x, l, s).seeds.Keys == l.seeds.Keys + {s.day};
      }
      var m := TechnicalStep(x, l, s);
      forall i | 0 <= i < |rest|
        ensures Sane(rest[i]) && Slot(rest[i].day, Bars) in m.units
                && Slot(rest[i].day, Technical) !in m.units && rest[i].day !in m.seeds
      {
        assert rest[i] == sessions[i + 1];
      }
      TechnicalPhase(x, m, rest);
    }
  }

  /** An undisturbed build of untouched sessions, in time order, with sane outputs and unchanged sources, whose predecessors
      are earlier requested sessions, seeded ones, priced ones of other builds, or none, gets through to the end. */
  lemma UntouchedIsReady(x: Context, l: Ledger, sessions: seq<Session>)
    requires l.Sound() && Chronological(sessions) && PricesRead(x) && AllCarry(x, l.seeds.Keys, sessions)
    requires forall i :: 0 <= i < |sessions| ==> Untouched(l, sessions[i].day) && Sane(sessions[i])
    ensures Ready(x, l, sessions)
  {
    hide Ledger.Sound, Sane, PricesRead;
    BarsPhase(l, sessions);
    TechnicalPhase(x, AllBarsDone(l, sessions), sessions);
  }

  /** A crash that leaves a session with its inputs and without its bars: the fourth effect of its build never happens.
      Every later run, whatever it computes, is refused and leaves it so. */
  method CrashBetweenPublications(x: Context, s: Session, again: Session) returns (builder: Builder, finish: Finish)
    requires GoodWork(s) && GoodKeys(s.work.bars) && again.day == s.day
    ensures finish.Failed? && builder.Now().Sound() && builder.Now().HalfPublished(s.day)
  {
    builder := new Builder(x);
    builder.budget := Some(3);
    finish := builder.BuildBars(s);
    assert builder.Now().HalfPublished(s.day);
    builder.budget := None;
    finish := builder.BuildBars(again);
  }
}
