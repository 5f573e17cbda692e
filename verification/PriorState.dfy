/** The indicator state carried into a session: the nearest priced predecessor's, across certified quote-only sessions. */
module PriorState {
  import opened Common

  type State = seq<real>

  /** A published unit and the digest of what it was built from. */
  datatype Unit = Unit(attempt: nat, source: Digest, rows: nat, hash: nat)

  datatype Digest = SourceDigest(evidence: nat) | DependencyDigest(bars: Unit, prior: Option<PriorHash>)

  datatype Candidate = Candidate(build: nat, attempt: nat, source: Digest)

  /** How a session's indicators were started: mode 0 from nothing, mode 1 from an earlier state. */
  datatype Seed = Seed(attempt: nat, mode: nat, predecessor: Option<int>, priorBuild: Option<nat>, priorHash: Option<PriorHash>)

  /** What a carried state is bound to; digests stand for what they digest. */
  datatype PriorHash =
    | Priced(build: nat, day: int, attempt: nat, source: Digest, bars: Unit, state: State)
    | Carried(day: int, build: nat, candidate: Candidate, seed: Seed, prior: PriorHash)

  datatype Frames = NoFrames | SomeFrames | AllFrames(state: State, finite: bool)

  /** What the ledgers and the stored rows say of one earlier session; its values are those of its own day. */
  datatype Link = Link(candidate: Option<Candidate>, technicalCertified: bool, seed: Option<Seed>, bars: Option<Unit>,
                       barsCertified: bool, frames: Frames, rows: nat)

  type History = map<int, Link>

  datatype Error =
    | CyclicOrExcessive | MissingTechnical | MissingSeed | MissingBars | InvalidSeed | InvalidPredecessor
    | NoEarlierPrice | IncompleteFrames | NonFinite

  datatype Found = Found(state: State, hash: PriorHash, build: nat)

  datatype Answer = Ok(found: Option<Found>) | Err(error: Error)

  const LIMIT: nat := 50

  /** A split's execution date and price ratio. */
  datatype Split = Split(day: int, ratio: real)

  /** The product of the splits executed after one date and by another. */
  function Ratio(splits: seq<Split>, from: int, to: int): real {
    if splits == [] then 1.0
    else (if from < splits[0].day <= to then splits[0].ratio else 1.0) * Ratio(splits[1..], from, to)
  }

  function Restated(state: State, ratio: real): (r: State)
    ensures |r| == |state| && forall i :: 0 <= i < |r| ==> r[i] == state[i] * ratio
  {
    seq(|state|, i requires 0 <= i < |state| => state[i] * ratio)
  }

  /** Restating is multiplying by the ratio of the one split in the span, and by one when there is none. */
  lemma {:induction false} RatioIs(splits: seq<Split>, from: int, to: int, k: nat)
    requires k < |splits| ==> from < splits[k].day <= to && forall i :: 0 <= i < |splits| && i != k ==> !(from < splits[i].day <= to)
    requires k >= |splits| ==> forall i :: 0 <= i < |splits| ==> !(from < splits[i].day <= to)
    ensures Ratio(splits, from, to) == if k < |splits| then splits[k].ratio else 1.0
    decreases |splits|
  {
    if splits != [] {
      var rest := splits[1..];
      assert forall i :: 0 <= i < |rest| ==> rest[i] == splits[i + 1];
      RatioIs(rest, from, to, if k == 0 || k >= |splits| then |rest| else k - 1);
    }
  }

  /** Restating over two spans in turn is restating over both at once. */
  lemma {:induction false} RatioConcat(splits: seq<Split>, from: int, middle: int, to: int)
    requires from <= middle <= to
    ensures Ratio(splits, from, to) == Ratio(splits, from, middle) * Ratio(splits, middle, to)
    decreases |splits|
  {
    if splits != [] {
      RatioConcat(splits[1..], from, middle, to);
      var a, b := Ratio(splits[1..], from, middle), Ratio(splits[1..], middle, to);
      var x := if from < splits[0].day <= middle then splits[0].ratio else 1.0;
      var y := if middle < splits[0].day <= to then splits[0].ratio else 1.0;
      assert (x * a) * (y * b) == (x * y) * (a * b);
    }
  }

  /** A session that carries a state into it: its date and the splits known. */
  datatype Asof = Asof(day: int, splits: seq<Split>) {
    /** A state of an earlier day in this session's prices. */
    function Carried(state: State, from: int): (r: State)
      ensures |r| == |state| && forall i :: 0 <= i < |r| ==> r[i] == state[i] * Ratio(splits, from, day)
    {
      Restated(state, Ratio(splits, from, day))
    }
  }

  /** A session's candidate is fully certified: technical unit, seed of the same attempt, and bars. */
  predicate Certified(link: Link) {
    && link.candidate.Some? && link.technicalCertified
    && link.seed.Some? && link.seed.value.attempt == link.candidate.value.attempt
    && link.bars.Some? && link.barsCertified
  }

  function Check(link: Link): Option<Error>
    requires link.candidate.Some?
  {
    if !link.technicalCertified then Some(MissingTechnical)
    else if link.seed.None? || link.seed.value.attempt != link.candidate.value.attempt then Some(MissingSeed)
    else if link.bars.None? || !link.barsCertified then Some(MissingBars)
    else None
  }

  /** The recursion as it runs, with its visited list and its depth limit. */
  function Prior(h: History, now: Asof, predecessor: Option<int>, visited: seq<int>): Answer
    decreases LIMIT - |visited|
  {
    if predecessor.None? then Ok(None)
    else if predecessor.value in visited || |visited| >= LIMIT then Err(CyclicOrExcessive)
    else if predecessor.value !in h || h[predecessor.value].candidate.None? then Ok(None)
    else
      var day, link := predecessor.value, h[predecessor.value];
      var failed := Check(link);
      if failed.Some? then Err(failed.value)
      else
        var c, seed := link.candidate.value, link.seed.value;
        match link.frames
        case SomeFrames => Err(IncompleteFrames)
        case AllFrames(state, finite) =>
          if !finite then Err(NonFinite)
          else
            var carried := now.Carried(state, day);
            Ok(Some(Found(carried, Priced(c.build, day, c.attempt, c.source, link.bars.value, carried), c.build)))
        case NoFrames =>
          if seed.mode > 1 then Err(InvalidSeed)
          else if seed.mode == 0 then
            if seed.priorBuild.Some? || seed.priorHash.Some? then Err(InvalidSeed) else Ok(None)
          else if seed.predecessor.None? || seed.predecessor.value >= day || seed.priorBuild.None? || seed.priorHash.None? then
            Err(InvalidPredecessor)
          else
            var earlier := Prior(h, now, seed.predecessor, visited + [day]);
            match earlier
            case Err(error) => Err(error)
            case Ok(found) =>
              if found.None? || Some(found.value.build) != seed.priorBuild then Err(NoEarlierPrice)
              else Ok(Some(Found(found.value.state, Carried(day, c.build, c, seed, found.value.hash), found.value.build)))
  }

  // ---------- What an answer means ----------

  /** A certified session without prices whose own seed was carried from an earlier date. */
  predicate QuoteOnly(h: History, day: int, earlier: int) {
    && day in h && Certified(h[day]) && h[day].frames.NoFrames?
    && h[day].seed.value.mode == 1 && h[day].seed.value.predecessor == Some(earlier) && earlier < day
    && h[day].seed.value.priorHash.Some?
  }

  predicate PriceBearing(h: History, day: int, state: State) {
    day in h && Certified(h[day]) && h[day].frames == AllFrames(state, true)
  }

  /** A session's seed names the build its state came from. */
  predicate Names(h: History, day: int, build: nat) {
    day in h && h[day].seed.Some? && h[day].seed.value.priorBuild == Some(build)
  }

  /** Strictly earlier and earlier quote-only sessions, ending at a priced one whose values, restated for every split since,
      are the state found. */
  predicate Chain(h: History, now: Asof, days: seq<int>, found: Found) {
    && days != []
    && (forall i :: 0 <= i < |days| - 1 ==> QuoteOnly(h, days[i], days[i + 1]))
    && days[|days| - 1] in h && h[days[|days| - 1]].frames.AllFrames?
    && PriceBearing(h, days[|days| - 1], h[days[|days| - 1]].frames.state)
    && found.state == now.Carried(h[days[|days| - 1]].frames.state, days[|days| - 1])
    && found.build == h[days[|days| - 1]].candidate.value.build
    && (forall i :: 0 <= i < |days| - 1 ==> Names(h, days[i], found.build))
  }

  lemma ChainCons(h: History, now: Asof, day: int, rest: seq<int>, found: Found)
    requires Chain(h, now, rest, found) && QuoteOnly(h, day, rest[0]) && Names(h, day, found.build)
    ensures Chain(h, now, [day] + rest, found)
  {
    var days := [day] + rest;
    forall i | 0 <= i < |days| - 1 ensures QuoteOnly(h, days[i], days[i + 1]) && Names(h, days[i], found.build) {
      if i > 0 {
        assert days[i] == rest[i - 1] && days[i + 1] == rest[i];
      }
    }
  }

  /** A found state is the first priced session's along strictly earlier dates, reached only across certified quote-only
      sessions, in at most fifty steps; and every seed on the way named its build. */
  lemma {:induction false} FoundIsNearest(h: History, now: Asof, predecessor: Option<int>, visited: seq<int>)
    requires Prior(h, now, predecessor, visited).Ok? && Prior(h, now, predecessor, visited).found.Some?
    ensures exists days :: (Chain(h, now, days, Prior(h, now, predecessor, visited).found.value)
                            && predecessor == Some(days[0]) && |visited| + |days| <= LIMIT)
    decreases LIMIT - |visited|
  {
    var day := predecessor.value;
    var link, found := h[day], Prior(h, now, predecessor, visited).found.value;
    if link.frames.NoFrames? {
      var earlier := link.seed.value.predecessor;
      FoundIsNearest(h, now, earlier, visited + [day]);
      var inner := Prior(h, now, earlier, visited + [day]).found.value;
      var days :| Chain(h, now, days, inner) && earlier == Some(days[0]) && |visited + [day]| + |days| <= LIMIT;
      assert Chain(h, now, days, found);
      ChainCons(h, now, day, days, found);
      assert ([day] + days)[0] == day;
    } else {
      assert Chain(h, now, [day], found) && [day][0] == day;
    }
  }

  /** Conversely the state at the end of any such chain short enough is found. */
  lemma {:induction false} ChainIsFound(h: History, now: Asof, days: seq<int>, found: Found, visited: seq<int>)
    requires Chain(h, now, days, found) && |visited| + |days| <= LIMIT && AllLater(visited, days[0])
    ensures var answer := Prior(h, now, Some(days[0]), visited);
      answer.Ok? && answer.found.Some? && answer.found.value.state == found.state && answer.found.value.build == found.build
    decreases |days|
  {
    var day := days[0];
    assert day !in visited;
    if |days| > 1 {
      var rest := days[1..];
      assert QuoteOnly(h, days[0], days[1]) && Names(h, days[0], found.build);
      assert Chain(h, now, rest, found) by {
        forall i | 0 <= i < |rest| - 1 ensures QuoteOnly(h, rest[i], rest[i + 1]) && Names(h, rest[i], found.build) {
          assert QuoteOnly(h, days[i + 1], days[i + 2]) && Names(h, days[i + 1], found.build);
        }
      }
      ChainIsFound(h, now, rest, found, visited + [day]);
    }
  }

  /** A lookup finds a state exactly when such a chain of at most fifty sessions starts at the predecessor ... */
  lemma FoundIff(h: History, now: Asof, predecessor: int, state: State, build: nat)
    ensures (exists hash :: Prior(h, now, Some(predecessor), []) == Ok(Some(Found(state, hash, build)))) <==>
      exists days, hash ::
        Chain(h, now, days, Found(state, hash, build)) && days[0] == predecessor && |days| <= LIMIT
  {
    if hash :| Prior(h, now, Some(predecessor), []) == Ok(Some(Found(state, hash, build))) {
      FoundIsNearest(h, now, Some(predecessor), []);
    }
    if days, hash :| Chain(h, now, days, Found(state, hash, build)) && days[0] == predecessor && |days| <= LIMIT {
      ChainIsFound(h, now, days, Found(state, hash, build), []);
      var found := Prior(h, now, Some(predecessor), []).found.value;
      assert Prior(h, now, Some(predecessor), []) == Ok(Some(Found(state, found.hash, build)));
    }
  }

  /** ... and starts from nothing exactly when there is no predecessor, no candidate for it, or a certified quote-only one that
      itself started from nothing. Anything else is refused. */
  lemma NothingIff(h: History, now: Asof, predecessor: Option<int>)
    ensures Prior(h, now, predecessor, []) == Ok(None) <==>
      || predecessor.None? || predecessor.value !in h || h[predecessor.value].candidate.None?
      || (var link := h[predecessor.value];
          && Certified(link) && link.frames.NoFrames?
          && link.seed.value.mode == 0 && link.seed.value.priorBuild.None? && link.seed.value.priorHash.None?)
  {
  }

  /** Dates strictly fall along a chain, so no priced session lies on it before its last. */
  lemma {:induction false} ChainDescends(h: History, now: Asof, days: seq<int>, found: Found, i: nat, j: nat)
    requires Chain(h, now, days, found) && i < j < |days|
    ensures days[j] < days[i] && (forall state :: !PriceBearing(h, days[i], state))
    decreases j - i
  {
    assert QuoteOnly(h, days[i], days[i + 1]);
    if i + 1 < j {
      ChainDescends(h, now, days, found, i + 1, j);
    }
  }

  predicate AllLater(visited: seq<int>, day: int) {
    forall i :: 0 <= i < |visited| ==> visited[i] > day
  }

  /** Dates strictly fall, so a session is never met twice: a refusal from the top means a chain of more than fifty. */
  lemma {:induction false} NeverCyclic(h: History, now: Asof, predecessor: Option<int>, visited: seq<int>)
    requires predecessor.Some? ==> AllLater(visited, predecessor.value)
    requires Prior(h, now, predecessor, visited) == Err(CyclicOrExcessive)
    ensures exists days :: QuoteChain(h, days) && predecessor == Some(days[0]) && |visited| + |days| >= LIMIT + 1
    decreases LIMIT - |visited|
  {
    var day := predecessor.value;
    assert day !in visited;
    if |visited| >= LIMIT {
      assert QuoteChain(h, [day]) && [day][0] == day;
    } else {
      var earlier := h[day].seed.value.predecessor;
      NeverCyclic(h, now, earlier, visited + [day]);
      var days :| QuoteChain(h, days) && earlier == Some(days[0]) && |visited + [day]| + |days| >= LIMIT + 1;
      var longer := [day] + days;
      forall i | 0 <= i < |longer| - 1 ensures QuoteOnly(h, longer[i], longer[i + 1]) {
        if i > 0 {
          assert longer[i] == days[i - 1] && longer[i + 1] == days[i];
        }
      }
      assert QuoteChain(h, longer) && longer[0] == day;
    }
  }

  predicate QuoteChain(h: History, days: seq<int>) {
    days != [] && forall i :: 0 <= i < |days| - 1 ==> QuoteOnly(h, days[i], days[i + 1])
  }

  // ---------- The hash binds the state ----------

  function LeafState(hash: PriorHash): State {
    match hash
    case Priced(_, _, _, _, _, state) => state
    case Carried(_, _, _, _, prior) => LeafState(prior)
  }

  function LeafBuild(hash: PriorHash): nat {
    match hash
    case Priced(build, _, _, _, _, _) => build
    case Carried(_, _, _, _, prior) => LeafBuild(prior)
  }

  lemma {:induction false} HashNamesState(h: History, now: Asof, predecessor: Option<int>, visited: seq<int>)
    requires Prior(h, now, predecessor, visited).Ok? && Prior(h, now, predecessor, visited).found.Some?
    ensures var f := Prior(h, now, predecessor, visited).found.value; LeafState(f.hash) == f.state && LeafBuild(f.hash) == f.build
    decreases LIMIT - |visited|
  {
    var link := h[predecessor.value];
    if link.frames.NoFrames? {
      HashNamesState(h, now, link.seed.value.predecessor, visited + [predecessor.value]);
    }
  }

  /** Two lookups, even in different ledgers, that agree on the hash agree on the state and its build. */
  lemma HashBindsState(h1: History, n1: Asof, p1: Option<int>, v1: seq<int>, h2: History, n2: Asof, p2: Option<int>, v2: seq<int>)
    requires Prior(h1, n1, p1, v1).Ok? && Prior(h1, n1, p1, v1).found.Some?
    requires Prior(h2, n2, p2, v2).Ok? && Prior(h2, n2, p2, v2).found.Some?
    requires Prior(h1, n1, p1, v1).found.value.hash == Prior(h2, n2, p2, v2).found.value.hash
    ensures Prior(h1, n1, p1, v1).found.value.state == Prior(h2, n2, p2, v2).found.value.state
    ensures Prior(h1, n1, p1, v1).found.value.build == Prior(h2, n2, p2, v2).found.value.build
  {
    HashNamesState(h1, n1, p1, v1);
    HashNamesState(h2, n2, p2, v2);
  }
}
