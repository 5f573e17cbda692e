/** One day's flag migration: staged evidence, a mutation that outlives its submitter, verification, evidence dropped last. */
module ReportingDay {
  import opened Common
  import opened ReportingFlags
  import opened ReportingSource

  datatype Status = Started | Staged | Mutating | Complete

  /** What survives a crash; `drops` records the coverage status at each drop of evidence. */
  datatype World = World(original: map<Key, Event>, source: seq<RawTrade>, day: Day,
                         target: map<Key, Event>, status: Option<Status>, raw: bool, mapping: Option<seq<Entry>>,
                         mutation: Option<set<Key>>, drops: seq<Option<Status>>)
  {
    /** The day's trades, which no step adds to or removes from. */
    function Scope(): set<Key> {
      ScopeOf(original, day)
    }

    /** The table a full reconciliation by rank builds. */
    function Matching(): seq<Entry> {
      Table(original, source, day)
    }

    function Select(): map<Key, MapRow> {
      MapOf(Matching())
    }

    /** Both sides list the same trades. */
    ghost predicate Clean() {
      SameDay(original, source, day)
    }

    function Goal(k: Key): Event
      requires k in original
    {
      Rewritten(original[k], Select(), k)
    }

    ghost predicate TargetSound() {
      && target.Keys == original.Keys
      && forall k :: k in original ==>
           target[k] == original[k] || (mutation.Some? && k in Scope() && target[k] == Goal(k))
    }

    ghost predicate MutationSound() {
      mutation.Some? ==>
        && (status == Some(Mutating) || status == Some(Complete))
        && mutation.value <= Scope()
        && forall k :: k in Scope() && k !in mutation.value ==> k in target && target[k] == Goal(k)
    }

    /** Staged evidence is the full, clean reconciliation; it stays until the day is complete. */
    ghost predicate EvidenceSound() {
      && (status == Some(Staged) || status == Some(Mutating) ==> mapping == Some(Matching()) && raw && Clean())
      && (status.None? ==> mapping.None? && !raw)
    }

    ghost predicate CompleteSound() {
      status == Some(Complete) ==> mutation == Some({}) && Clean() && Verified(target, Select(), day)
    }

    /** Evidence was only ever dropped while staging was being rebuilt or after completion. */
    ghost predicate DropsSound() {
      forall i :: 0 <= i < |drops| ==> drops[i] == Some(Started) || drops[i] == Some(Complete)
    }

    /** Staging under way: nothing canonical has changed yet. */
    ghost predicate Restaging() {
      target == original && mutation.None? && status == Some(Started) && DropsSound()
    }

    ghost predicate Sound() {
      TargetSound() && MutationSound() && EvidenceSound() && CompleteSound() && DropsSound()
    }
  }

  /** A clean selection is a full reconciliation of the original rows. */
  lemma CleanReconciles(w: World)
    requires w.Clean()
    ensures Reconciled(w.original, w.Select(), w.day) && KnownClasses(w.Select())
  {
    AcceptedReconciles(w.original, w.source, w.day);
  }

  /** With nothing left to rewrite the target is what one whole mutation of the original makes it. */
  lemma FinishedMutation(w: World)
    requires w.TargetSound() && w.MutationSound() && w.mutation == Some({})
    ensures w.target == Mutate(w.original, w.Select(), w.day)
  {
    forall k | k in w.original ensures w.target[k] == Mutate(w.original, w.Select(), w.day)[k] {
      if k in w.Scope() {
        assert w.target[k] == w.Goal(k);
      }
    }
  }

  /** Submitting keeps soundness: nothing is rewritten yet. */
  lemma SubmittedSound(w: World)
    requires w.Sound() && w.status == Some(Mutating) && w.mutation.None?
    ensures w.(mutation := Some(w.Scope())).Sound()
  {
  }

  function Advanced(w: World, part: set<Key>): World
    requires w.mutation.Some? && w.target.Keys == w.original.Keys
  {
    w.(mutation := Some(w.mutation.value - part),
       target := map k | k in w.target :: if k in part && k in w.mutation.value then Rewritten(w.target[k], w.Select(), k)
                                          else w.target[k])
  }

  /** Rewriting any part of what is left keeps soundness, whether or not some of it was already rewritten. */
  lemma AdvancedSound(w: World, part: set<Key>)
    requires w.Sound() && w.mutation.Some? && w.status == Some(Mutating)
    ensures Advanced(w, part).Sound()
  {
    hide Updated, Wanted;
    var v := Advanced(w, part);
    assert v.Select() == w.Select() && v.Scope() == w.Scope();
    forall k | k in w.original
      ensures v.target[k] == w.original[k] || (k in w.Scope() && v.target[k] == w.Goal(k))
      ensures k in w.Scope() && k !in v.mutation.value ==> v.target[k] == w.Goal(k)
    {
      WantedIsClass(w.Select(), k);
      UpdatedBits(w.original[k].meta, Wanted(w.Select(), k));
    }
    assert forall k :: k in w.original ==> v.Goal(k) == w.Goal(k);
  }

  /** A finished mutation verifies: every source flag is a known class. */
  lemma FinishedVerifies(w: World)
    requires w.Sound() && w.mutation == Some({}) && w.Clean()
    ensures Verified(w.target, w.Select(), w.day)
  {
    FinishedMutation(w);
    CleanReconciles(w);
    MutationVerifiesIff(w.original, w.Select(), w.day);
  }

  /** Once complete, every trade of the day carries the byte of the source trade of its ticker and rank, which is the same
      trade apart from its flags, and nothing else about the table changed. */
  lemma CompleteMeans(w: World, k: Key)
    requires w.Sound() && w.status == Some(Complete) && k in w.original
    ensures k in w.target
    ensures k in w.Scope() ==>
      var S, r := OfTicker(w.source, k.ticker), Rank(w.original, w.day, k);
      && r < |S| && w.target[k] == w.original[k].(meta := S[r].meta)
      && S[r].at == w.original[k].at && S[r].evidence == w.original[k].evidence && S[r].meta % 64 == w.original[k].meta % 64
    ensures k !in w.Scope() ==> w.target[k] == w.original[k]
  {
    FinishedMutation(w);
    CleanReconciles(w);
    hide Table, OfTicker, TradesOf, MapOf;
    AcceptedReconciles(w.original, w.source, w.day);
    if k in w.Scope() {
      assert k in w.Select();
      assert SameTrades(TradesOf(w.original, w.day, k.ticker), OfTicker(w.source, k.ticker));
      assert Agrees(TradesOf(w.original, w.day, k.ticker)[Rank(w.original, w.day, k)],
                    OfTicker(w.source, k.ticker)[Rank(w.original, w.day, k)]);
      ByteParts(w.original[k].meta);
      ByteParts(OfTicker(w.source, k.ticker)[Rank(w.original, w.day, k)].meta);
    }
  }

  // ---------- The process ----------

  datatype Finish = Died | Skipped | StagedOnly | Finished | Failed(error: Error)

  datatype Error = SourceDiffers | AmbiguousOrder | NoTrades | NotReconciled | MutationFailed | VerificationFailed

  /** What one poll of a running mutation finds. */
  datatype Poll = Progress(part: set<Key>) | Failure

  class DayMigration {
    var target: map<Key, Event>
    var status: Option<Status>
    var raw: bool
    var mapping: Option<seq<Entry>>
    var mutation: Option<set<Key>>

    /** How many more durable effects happen before the process dies; none means it is not interrupted. */
    var budget: Option<nat>
    /** What the server reports poll by poll; afterwards the mutation is finished. */
    var polls: seq<Poll>

    const day: Day
    const source: seq<RawTrade>
    const certified: nat
    ghost const original: map<Key, Event>
    ghost var drops: seq<Option<Status>>

    ghost function Now(): World
      reads this
    {
      World(original, source, day, target, status, raw, mapping, mutation, drops)
    }

    constructor (target: map<Key, Event>, source: seq<RawTrade>, certified: nat, day: Day)
      ensures this.certified == certified
      ensures Now() == World(target, source, day, target, None, false, None, None, []) && Now().Sound()
    {
      this.target, this.original, this.source, this.certified, this.day := target, target, source, certified, day;
      status, raw, mapping, mutation, drops := None, false, None, None, [];
      budget, polls := None, [];
    }

    method Record(s: Status) returns (alive: bool)
      modifies this`budget, this`status
      ensures old(budget).None? ==> alive && budget.None?
      ensures Now() == if alive then old(Now()).(status := Some(s)) else old(Now())
    {
      alive, budget := Alive(budget), Remaining(budget);
      if alive {
        status := Some(s);
      }
    }

    method DropMap() returns (alive: bool)
      modifies this`budget, this`mapping, this`drops
      ensures old(budget).None? ==> alive && budget.None?
      ensures Now() == if alive then old(Now()).(mapping := None, drops := old(drops) + [old(status)]) else old(Now())
    {
      alive, budget := Alive(budget), Remaining(budget);
      if alive {
        mapping := None;
        drops := drops + [status];
      }
    }

    method DropRaw() returns (alive: bool)
      modifies this`budget, this`raw, this`drops
      ensures old(budget).None? ==> alive && budget.None?
      ensures Now() == if alive then old(Now()).(raw := false, drops := old(drops) + [old(status)]) else old(Now())
    {
      alive, budget := Alive(budget), Remaining(budget);
      if alive {
        raw := false;
        drops := drops + [status];
      }
    }

    method CreateRaw() returns (alive: bool)
      modifies this`budget, this`raw
      ensures old(budget).None? ==> alive && budget.None?
      ensures Now() == if alive then old(Now()).(raw := true) else old(Now())
    {
      alive, budget := Alive(budget), Remaining(budget);
      if alive {
        raw := true;
      }
    }

    method InsertMap(from: nat, until: nat) returns (alive: bool)
      modifies this`budget, this`mapping
      ensures old(budget).None? ==> alive && budget.None?
      ensures Now() == if alive
                       then old(Now()).(mapping := Some(Appended(old(mapping), Entries(target, source, day, from, until))))
                       else old(Now())
    {
      alive, budget := Alive(budget), Remaining(budget);
      if alive {
        mapping := Some(Appended(mapping, Entries(target, source, day, from, until)));
      }
    }

    method Submit() returns (alive: bool)
      requires mutation.None? && mapping.Some?
      modifies this`budget, this`mutation
      ensures old(budget).None? ==> alive && budget.None?
      ensures Now() == if alive then old(Now()).(mutation := Some(ScopeOf(old(target), day))) else old(Now())
    {
      alive, budget := Alive(budget), Remaining(budget);
      if alive {
        mutation := Some(ScopeOf(target, day));
      }
    }

    /** Matches one batch of tickers after another. */
    method MatchTickers(batch: nat) returns (alive: bool)
      requires Now().Restaging() && mapping.None? && batch > 0
      modifies this`budget, this`mapping
      ensures Now() == old(Now()).(mapping := mapping)
      ensures old(budget).None? ==> alive && budget.None?
      ensures alive ==> mapping == if source == [] then None else Some(Now().Matching())
    {
      hide Entries;
      var tickers := TickerBound(source);
      var offset: nat := 0;
      while offset < tickers
        invariant Now() == old(Now()).(mapping := mapping)
        invariant old(budget).None? ==> budget.None?
        invariant offset <= tickers
        invariant mapping == if offset == 0 then None else Some(Entries(original, source, day, 0, offset))
        decreases tickers - offset
      {
        var next := if offset + batch <= tickers then offset + batch else tickers;
        EntriesConcat(original, source, day, 0, offset, next);
        NoEntries(original, source, day);
        alive := InsertMap(offset, next);
        if !alive {
          return;
        }
        offset := next;
      }
      alive := true;
    }

    /** Rebuilds staging: a partial map is dropped, a missing source copy is made and checked, ticker batches are matched,
        and the table is accepted or refused. */
    method Stage(batch: nat) returns (alive: bool, error: Option<Error>)
      requires Now().Sound() && (status.None? || status == Some(Started)) && mutation.None? && batch > 0
      modifies this`budget, this`status, this`mapping, this`raw, this`drops
      ensures Now().Sound() && target == old(target) && mutation.None?
      ensures old(budget).None? ==> alive && budget.None?
      ensures alive && error.None? ==> status == Some(Staged)
      ensures alive && error.Some? ==> status == Some(Started) && StagingRefused(error.value, Now(), certified)
      ensures alive ==> (error.None? <==> Stageable(Now(), certified))
    {
      hide Entries, Table, MapOf, SameDay, MatchesCertificate, Unambiguous, ScopeOf, TickerBound;
      error := None;
      OriginalTarget(Now());
      alive := Record(Started);
      if !alive {
        return;
      }
      RestagingSound(Now());
      alive := DropMap();
      RestagingSound(Now());
      if !alive {
        return;
      }
      if !raw {
        alive := CreateRaw();
        RestagingSound(Now());
        if !alive {
          return;
        }
      }
      if !MatchesCertificate(source, certified, day) {
        error := Some(SourceDiffers);
        return;
      }
      if !Unambiguous(source) {
        error := Some(AmbiguousOrder);
        return;
      }
      alive := MatchTickers(batch);
      RestagingSound(Now());
      if !alive {
        return;
      }
      if mapping.None? {
        error := Some(NoTrades);
        return;
      }
      AcceptedIff(original, source, day);
      if !Accepted(target, source, day, mapping.value) {
        error := Some(NotReconciled);
        return;
      }
      alive := Record(Staged);
      if alive {
        StagedSound(Now());
      }
    }

    /** Waits for a submitted mutation; it may have been submitted by an earlier, dead process. */
    method Await() returns (ok: bool)
      requires Now().Sound() && status == Some(Mutating) && mutation.Some?
      modifies this`polls, this`mutation, this`target
      ensures Now() == old(Now()).(mutation := mutation, target := target)
      ensures Now().Sound() && (ok ==> mutation == Some({}))
      ensures !ok ==> Failure in old(polls)
    {
      hide Updated, Wanted, InScope, MapOf, Table, SameDay, ScopeOf;
      while mutation != Some({})
        invariant Now() == old(Now()).(mutation := mutation, target := target)
        invariant Now().Sound() && mutation.Some? && |polls| <= |old(polls)| && polls == old(polls)[|old(polls)| - |polls|..]
        decreases |polls|, mutation != Some({})
      {
        ghost var before := Now();
        if polls == [] {
          AdvancedSound(Now(), mutation.value);
          assert mutation.value - mutation.value == {};
          Apply(mutation.value);
          return true;
        }
        var poll := polls[0];
        polls := polls[1..];
        if poll == Failure {
          return false;
        }
        AdvancedSound(Now(), poll.part);
        Apply(poll.part);
      }
      ok := true;
    }

    /** The server rewrites part of what is left. */
    method Apply(part: set<Key>)
      requires mutation.Some? && status == Some(Mutating) && Now().Sound() && mapping.Some?
      modifies this`mutation, this`target
      ensures Now() == Advanced(old(Now()), part)
    {
      var rows, rest := MapOf(mapping.value), mutation.value;
      target := map k | k in target :: if k in part && k in rest then Rewritten(target[k], rows, k) else target[k];
      mutation := Some(rest - part);
    }

    /** Compares the day's trades with the mapped ones. */
    method Verify() returns (ok: bool)
      requires mapping.Some?
      ensures ok <==> Verified(target, MapOf(mapping.value), day)
    {
      var rows := MapOf(mapping.value);
      if exists k :: k in target && InScope(target[k], day) && (k !in rows || target[k].meta != rows[k].expected) {
        return false;
      }
      if exists k :: k in rows && !(k in target && InScope(target[k], day)) {
        return false;
      }
      return true;
    }

    /** One run of a day: stage unless staged, submit unless submitted, wait, verify, record complete, drop evidence. */
    method ProcessDay(stageOnly: bool, batch: nat) returns (finish: Finish)
      requires Now().Sound() && batch > 0
      modifies this
      ensures Now().Sound() && Now().original == old(Now().original) && Now().source == old(Now().source)
      ensures finish == Skipped <==> old(status) == Some(Complete)
      ensures finish == Finished ==> status == Some(Complete) && !raw && mapping.None?
      ensures finish == StagedOnly ==> stageOnly && (status == Some(Staged) || status == Some(Mutating))
      ensures finish.Died? ==> old(budget).Some?
      ensures finish.Failed? ==> Refused(finish.error, Now(), old(polls), certified)
      ensures old(budget).None? && Failure !in old(polls) && !stageOnly && old(status) != Some(Complete) ==>
        (finish == Finished <==> old(status) == Some(Staged) || old(status) == Some(Mutating) || Stageable(Now(), certified))
    {
      if status == Some(Complete) {
        return Skipped;
      }
      var alive, error;
      assert status.None? || status.value.Started? || status.value.Staged? || status.value.Mutating?;
      if status != Some(Staged) && status != Some(Mutating) {
        alive, error := Stage(batch);
        if !alive {
          return Died;
        }
        if error.Some? {
          return Failed(error.value);
        }
      }
      if stageOnly {
        return StagedOnly;
      }
      finish := MutateAndVerify();
    }

    /** Records the intent, then submits; a mutation already submitted is left alone. */
    method EnsureSubmitted() returns (alive: bool)
      requires Now().Sound() && (status == Some(Staged) || status == Some(Mutating))
      modifies this`budget, this`status, this`mutation
      ensures Now() == old(Now()).(status := status, mutation := mutation)
      ensures Now().Sound() && (status == Some(Staged) || status == Some(Mutating))
      ensures old(budget).None? ==> alive && budget.None?
      ensures alive ==> status == Some(Mutating) && mutation.Some?
    {
      hide Rewritten, MapOf, Table, SameDay, ScopeOf, Verified;
      alive := true;
      if mutation.None? {
        OriginalTarget(Now());
        alive := Record(Mutating);
        if !alive {
          return;
        }
        MutatingSound(Now());
        alive := Submit();
        if alive {
          SubmittedSound(Now().(mutation := None));
        }
      } else {
        MutationStatus(Now());
      }
    }

    /** Records completion, and only then drops the evidence. */
    method CompleteDay() returns (alive: bool)
      requires Now().Sound() && status == Some(Mutating) && mutation == Some({}) && Verified(target, Now().Select(), day)
      modifies this`budget, this`status, this`raw, this`mapping, this`drops
      ensures Now() == old(Now()).(status := status, raw := raw, mapping := mapping, drops := drops)
      ensures Now().Sound()
      ensures old(budget).None? ==> alive && budget.None?
      ensures alive ==> status == Some(Complete) && !raw && mapping.None?
    {
      hide Rewritten, MapOf, Table, SameDay, ScopeOf, Verified;
      alive := Record(Complete);
      if !alive {
        return;
      }
      CompletedSound(Now());
      alive := DropRaw();
      DroppedSound(Now());
      if !alive {
        return;
      }
      alive := DropMap();
      DroppedSound(Now());
    }

    method MutateAndVerify() returns (finish: Finish)
      requires Now().Sound() && (status == Some(Staged) || status == Some(Mutating))
      modifies this`budget, this`polls, this`status, this`mutation, this`target, this`raw, this`mapping, this`drops
      ensures Now().Sound() && Now().original == old(Now().original) && Now().source == old(Now().source)
      ensures Now().day == old(Now().day)
      ensures finish == Finished || finish == Died || finish == Failed(MutationFailed) || finish == Failed(VerificationFailed)
      ensures finish == Finished ==> status == Some(Complete) && !raw && mapping.None?
      ensures finish == Died ==> old(budget).Some?
      ensures finish == Failed(MutationFailed) ==> Failure in old(polls)
      ensures finish != Failed(VerificationFailed)
    {
      hide Rewritten, MapOf, Table, SameDay, ScopeOf, Verified, KnownClasses;
      var alive := EnsureSubmitted();
      if !alive {
        return Died;
      }
      var ok := Await();
      if !ok {
        return Failed(MutationFailed);
      }
      MutationStatus(Now());
      FinishedVerifies(Now());
      ok := Verify();
      if !ok {
        return Failed(VerificationFailed);
      }
      alive := CompleteDay();
      finish := if alive then Finished else Died;
    }
  }

  ghost predicate Refused(error: Error, w: World, polls: seq<Poll>, certified: nat) {
    match error
    case MutationFailed => Failure in polls
    case _ => StagingRefused(error, w, certified)
  }

  lemma MutatingSound(w: World)
    requires w.(status := Some(Staged)).Sound() || w.Sound()
    requires w.status == Some(Mutating) && w.mutation.None?
    ensures w.Sound()
  {
  }

  lemma MutationStatus(w: World)
    requires w.Sound() && w.mutation.Some?
    ensures w.status == Some(Mutating) || w.status == Some(Complete)
    ensures w.status == Some(Mutating) ==> w.Clean() && w.mapping == Some(w.Matching())
  {
  }

  lemma CompletedSound(w: World)
    requires w.status == Some(Complete) && w.(status := Some(Mutating)).Sound() && w.mutation == Some({})
    requires Verified(w.target, w.Select(), w.day)
    ensures w.Sound()
  {
  }

  /** After completion evidence may go; the tables stay verified. */
  lemma DroppedSound(w: World)
    requires w.status == Some(Complete) && w.TargetSound() && w.MutationSound() && w.CompleteSound() && w.DropsSound()
    ensures w.Sound()
  {
  }

  /** What each refusal to stage means; verification is never the cause of one. */
  ghost predicate StagingRefused(error: Error, w: World, certified: nat) {
    match error
    case SourceDiffers => !MatchesCertificate(w.source, certified, w.day)
    case AmbiguousOrder => !Unambiguous(w.source)
    case NoTrades => w.source == []
    case NotReconciled => !w.Clean()
    case _ => false
  }

  /** The days that can be staged: the source copy is as certified, in one order, not empty, and lists the day's trades. */
  ghost predicate Stageable(w: World, certified: nat) {
    MatchesCertificate(w.source, certified, w.day) && Unambiguous(w.source) && w.source != [] && w.Clean()
  }

  function Appended(held: Option<seq<Entry>>, more: seq<Entry>): seq<Entry> {
    (if held.Some? then held.value else []) + more
  }

  lemma NoEntries(target: map<Key, Event>, source: seq<RawTrade>, day: Day)
    ensures Entries(target, source, day, 0, 0) == []
  {
  }

  lemma RestagingSound(w: World)
    requires w.Restaging()
    ensures w.Sound()
  {
  }

  lemma StagedSound(w: World)
    requires w.(status := Some(Started)).Restaging() && w.status == Some(Staged)
    requires w.raw && w.mapping == Some(w.Matching()) && w.Clean()
    ensures w.Sound()
  {
  }

  lemma OriginalTarget(w: World)
    requires w.Sound() && w.mutation.None?
    ensures w.target == w.original
  {
  }
}
