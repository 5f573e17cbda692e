/** Exactness of the observation eliminator on the whole state, prominence score included. */
module CompressionScore {
  import opened Common
  import opened Lifecycle
  import opened Compression

  // ---------- Runs outside the band ----------

  /** No observation is a contact and none would move the four lifecycle fields. */
  ghost predicate Idle(b: Band, s: State, events: seq<Event>) {
    forall e :: e in events ==> !Contact(b, e) && SameLife(Step(b, s, e), s)
  }

  function Ratio(b: Band, role: int, range: real, e: Event): real {
    Excursion(b, role, e) / Scale(range)
  }

  /** Running best of the excursion ratios, from a floor. */
  function Peak(b: Band, role: int, range: real, events: seq<Event>, floor: real): real {
    if events == [] then floor
    else Peak(b, role, range, events[1..], Max(floor, Ratio(b, role, range, events[0])))
  }

  lemma {:induction false} PeakIsMaximum(b: Band, role: int, range: real, events: seq<Event>, floor: real)
    ensures var p := Peak(b, role, range, events, floor);
      && p >= floor
      && (forall e :: e in events ==> p >= Ratio(b, role, range, e))
      && (p == floor || exists e :: e in events && p == Ratio(b, role, range, e))
  {
    if events != [] {
      var floor' := Max(floor, Ratio(b, role, range, events[0]));
      PeakIsMaximum(b, role, range, events[1..], floor');
      assert forall e :: e in events ==> e == events[0] || e in events[1..];
      var p := Peak(b, role, range, events, floor);
      if p != floor' {
        var e :| e in events[1..] && p == Ratio(b, role, range, e);
        assert e in events;
      }
    }
  }

  /** An open encounter whose best has risen; an idle score is unchanged. */
  function Raised(s: State, best: real): State {
    if s.score.phase == 0 then s
    else s.(score := s.score.(best := best, phase := if best >= 1.0 then 2 else s.score.phase))
  }

  lemma OutsideStep(b: Band, s: State, e: Event)
    requires Inv(s) && s.score.side == s.role && SameLife(Step(b, s, e), s) && !Contact(b, e)
    ensures Step(b, s, e)
      == if s.phase <= 1 then Raised(s, Max(s.score.best, Ratio(b, s.role, s.score.range, e))) else s
  {
  }

  lemma IdleSurvives(b: Band, s: State, t: State, events: seq<Event>)
    requires Idle(b, s, events) && SameLife(t, s)
    ensures Idle(b, t, events)
  {
    forall f | f in events ensures SameLife(Step(b, t, f), t) {
      StepRespectsSameLife(b, t, s, f);
    }
  }

  /** Outside the band an idle level only lifts the running best, and only while it is active. */
  lemma {:induction false} OutsideFold(b: Band, s: State, events: seq<Event>)
    requires Inv(s) && s.score.side == s.role && Idle(b, s, events)
    ensures Fold(b, events, s)
      == if s.phase <= 1 then Raised(s, Peak(b, s.role, s.score.range, events, s.score.best)) else s
    decreases |events|
  {
    if events != [] {
      var e, rest := events[0], events[1..];
      assert e in events;
      OutsideStep(b, s, e);
      StepKeepsInv(b, s, e);
      IdleSurvives(b, s, Step(b, s, e), rest);
      OutsideFold(b, Step(b, s, e), rest);
      if s.phase <= 1 {
        PeakIsMaximum(b, s.role, s.score.range, rest, Max(s.score.best, Ratio(b, s.role, s.score.range, e)));
      }
    }
  }

  /** After one observation outside the band, the level is active and settled, or it never becomes active in the run. */
  lemma OutsideSettles(b: Band, s: State, x: Event, y: Event, z: Event)
    requires b.Valid() && Inv(s) && !Contact(b, x)
    requires Code(b, x) == Code(b, y) == Code(b, z)
    ensures Step(b, s, x).phase == 0 ==> Settled(b, Step(b, s, x), Code(b, x))
    ensures Step(b, s, x).phase != 0 ==>
      Settled(b, AfterThree(b, s, x, y, z), Code(b, x)) && AfterThree(b, s, x, y, z).phase >= 2
  {
    var s1, s3 := Step(b, s, x), AfterThree(b, s, x, y, z);
    CodeFixesFlags(b, x, y);
    CodeFixesFlags(b, x, z);
    forall e: Event | Code(b, e) == Code(b, x)
      ensures s1.phase == 0 ==> SameLife(Step(b, s1, e), s1)
      ensures s1.phase != 0 ==> SameLife(Step(b, s3, e), s3) && s3.phase >= 2
    {
      CodeFixesFlags(b, x, e);
    }
  }

  /** The first observation's own excursion is already in the running best. */
  lemma FirstIsCounted(b: Band, s: State, e: Event)
    requires b.Valid() && Inv(s) && !Contact(b, e)
    requires Step(b, s, e).phase == 0 && Step(b, s, e).score.phase != 0
    ensures Step(b, s, e).score.best >= Ratio(b, Step(b, s, e).role, Step(b, s, e).score.range, e)
  {
  }

  lemma ExcursionMonotone(b: Band, role: int, range: real, e: Event, f: Event)
    requires if role > 0 then e.price <= f.price else e.price >= f.price
    ensures Ratio(b, role, range, e) <= Ratio(b, role, range, f)
  {
    RatioMonotone(Excursion(b, role, e), Excursion(b, role, f), Scale(range));
  }

  lemma RatioMonotone(x: real, y: real, k: real)
    requires x <= y && k > 0.0
    ensures x / k <= y / k
  {
  }

  /** The kept extremum makes the kept running best equal to the full one. */
  lemma KeptPeak(b: Band, role: int, range: real, g: seq<Event>, floor: real)
    requires |g| > 1
    requires floor >= Ratio(b, role, range, g[0])
    ensures Peak(b, role, range, KeptFrom(g, 1), floor) == Peak(b, role, range, g[1..], floor)
  {
    var kept, all := KeptFrom(g, 1), g[1..];
    var m := if role > 0 then FirstMax(g) else FirstMin(g);
    KeptFromMembers(g, 1);
    PeakIsMaximum(b, role, range, kept, floor);
    PeakIsMaximum(b, role, range, all, floor);
    assert m == 0 || g[m] in kept by {
      assert Kept(g, m);
    }
    forall e | e in all
      ensures Ratio(b, role, range, e) <= Peak(b, role, range, kept, floor)
    {
      ExcursionMonotone(b, role, range, e, g[m]);
    }
  }

  lemma OutsideRunExact(b: Band, g: seq<Event>, s: State)
    requires b.Valid() && Inv(s) && OneRun(b, g) && |g| > 3 && !Contact(b, g[0])
    ensures Fold(b, Keep(g), s) == Fold(b, g, s)
  {
    var code := Code(b, g[0]);
    forall e | e in g ensures Code(b, e) == code && !Contact(b, e) {
      CodeFixesFlags(b, g[0], e);
    }
    OutsideSettles(b, s, g[0], g[1], g[2]);
    var s1 := Step(b, s, g[0]);
    StepKeepsInv(b, s, g[0]);
    if s1.phase == 0 {
      KeepPrefix(g, 1);
      KeptFromMembers(g, 1);
      assert g[..1] == [g[0]] && Keep(g)[1..] == KeptFrom(g, 1);
      OutsideFold(b, s1, g[1..]);
      OutsideFold(b, s1, KeptFrom(g, 1));
      if s1.score.phase != 0 {
        FirstIsCounted(b, s, g[0]);
        KeptPeak(b, s1.role, s1.score.range, g, s1.score.best);
      }
    } else {
      var s2 := Step(b, s1, g[1]);
      StepKeepsInv(b, s1, g[1]);
      StepKeepsInv(b, s2, g[2]);
      KeepLong(g);
      assert g == g[..3] + g[3..];
      FoldConcat(b, g[..3], g[3..], s);
      FoldConcat(b, g[..3], KeptFrom(g, 3), s);
      FoldThree(b, g[..3], s);
      OutsideFold(b, AfterThree(b, s, g[0], g[1], g[2]), g[3..]);
      OutsideFold(b, AfterThree(b, s, g[0], g[1], g[2]), KeptFrom(g, 3));
    }
  }

  // ---------- Runs inside the band ----------

  /** The range that would be frozen by an encounter opening in these contacts; zero when none is available. */
  function Anchor(events: seq<Event>): real {
    if events == [] then 0.0
    else if events[0].range > 0.0 then events[0].range
    else Anchor(events[1..])
  }

  predicate AllContact(b: Band, events: seq<Event>) {
    forall e :: e in events ==> Contact(b, e)
  }

  /** What a nonempty stretch of contacts does to a reachable state depends only on its anchor. */
  function AfterContacts(s: State, anchor: real): State {
    if s.phase >= 2 then s.(phase := 3, count := 0)
    else
      var a := if s.score.phase == 2 then Finish(s.score) else s.score;
      var started := if a.phase == 0 && anchor > 0.0 then a.(range := anchor, phase := 1) else a;
      s.(phase := 0, count := 0, score := started.(side := s.role))
  }

  lemma {:induction false} ContactFold(b: Band, events: seq<Event>, s: State)
    requires b.Valid() && Inv(s)
    requires events != [] && AllContact(b, events)
    ensures Fold(b, events, s) == AfterContacts(s, Anchor(events))
    decreases |events|
  {
    var e := events[0];
    assert e in events && Contact(b, e);
    var t := Step(b, s, e);
    assert Excursion(b, s.role, e) == 0.0;
    assert t == AfterContacts(s, if e.range > 0.0 then e.range else 0.0);
    if |events| == 1 {
      assert events[1..] == [];
    } else {
      StepKeepsInv(b, s, e);
      assert forall f :: f in events[1..] ==> f in events;
      ContactFold(b, events[1..], t);
    }
  }

  lemma KeepOfContacts(b: Band, g: seq<Event>)
    requires g != [] && AllContact(b, g)
    ensures Keep(g) != [] && AllContact(b, Keep(g))
  {
    KeptFromMembers(g, 0);
    KeepPrefix(g, 1);
  }

  /** On one run of contacts: exact on every reachable seed if and only if the kept observations keep the anchor. */
  lemma ContactRunExactIff(b: Band, g: seq<Event>)
    requires b.Valid() && g != [] && AllContact(b, g)
    ensures (forall s: State :: Inv(s) ==> Fold(b, Keep(g), s) == Fold(b, g, s)) <==> Anchor(Keep(g)) == Anchor(g)
  {
    KeepOfContacts(b, g);
    forall s: State | Inv(s)
      ensures Fold(b, Keep(g), s) == AfterContacts(s, Anchor(Keep(g)))
      ensures Fold(b, g, s) == AfterContacts(s, Anchor(g))
    {
      ContactFold(b, g, s);
      ContactFold(b, Keep(g), s);
    }
    var born := BirthSeed(1, 0);
    assert Inv(born);
    AnchorNonnegative(g);
    AnchorNonnegative(Keep(g));
    if Anchor(Keep(g)) != Anchor(g) {
      assert Fold(b, Keep(g), born) != Fold(b, g, born);
    }
  }

  lemma {:induction false} AnchorNonnegative(events: seq<Event>)
    ensures Anchor(events) >= 0.0
  {
    if events != [] {
      AnchorNonnegative(events[1..]);
    }
  }

  // ---------- Whole sequences ----------

  /** Every run of contacts keeps the range its encounter would freeze. */
  predicate RangesAnchored(b: Band, events: seq<Event>)
    decreases |events|
  {
    events == [] ||
    var n := RunLength(b, events);
    (Contact(b, events[0]) ==> Anchor(Keep(events[..n])) == Anchor(events[..n])) && RangesAnchored(b, events[n..])
  }

  /** Every run, taken on its own, is eliminated exactly from every reachable seed. */
  ghost predicate RunwiseExact(b: Band, events: seq<Event>)
    decreases |events|
  {
    events == [] ||
    var n := RunLength(b, events);
    (forall s: State :: Inv(s) ==> Fold(b, Keep(events[..n]), s) == Fold(b, events[..n], s)) && RunwiseExact(b, events[n..])
  }

  lemma RunExactIff(b: Band, g: seq<Event>)
    requires b.Valid() && g != [] && OneRun(b, g)
    ensures (forall s: State :: Inv(s) ==> Fold(b, Keep(g), s) == Fold(b, g, s))
      <==> (Contact(b, g[0]) ==> Anchor(Keep(g)) == Anchor(g))
  {
    if Contact(b, g[0]) {
      forall e | e in g ensures Contact(b, e) {
        CodeFixesFlags(b, g[0], e);
      }
      ContactRunExactIff(b, g);
    } else if |g| <= 3 {
      KeepShort(g);
    } else {
      forall s: State | Inv(s) ensures Fold(b, Keep(g), s) == Fold(b, g, s) {
        OutsideRunExact(b, g, s);
      }
    }
  }

  /** Run by run, the eliminator is exact if and only if every contact run keeps its anchor. */
  lemma {:induction false} RunwiseExactIff(b: Band, events: seq<Event>)
    requires b.Valid()
    ensures RunwiseExact(b, events) <==> RangesAnchored(b, events)
    decreases |events|
  {
    if events != [] {
      var n := RunLength(b, events);
      RunExactIff(b, events[..n]);
      RunwiseExactIff(b, events[n..]);
    }
  }

  /** Main result: with anchored ranges, compression preserves the entire state from every reachable seed. */
  lemma {:induction false} CompressExact(b: Band, events: seq<Event>, s: State)
    requires b.Valid() && Inv(s) && RangesAnchored(b, events)
    ensures Fold(b, Compress(b, events), s) == Fold(b, events, s)
    decreases |events|
  {
    if events != [] {
      var n := RunLength(b, events);
      var run, rest := events[..n], events[n..];
      assert events == run + rest;
      FoldConcat(b, run, rest, s);
      FoldConcat(b, Keep(run), Compress(b, rest), s);
      RunExactIff(b, run);
      ReachableInv(b, run, s);
      CompressExact(b, rest, Fold(b, run, s));
    }
  }

  // ---------- From one seed ----------

  /** A level that will open an encounter at its next contact. */
  predicate Opens(s: State) {
    s.phase <= 1 && s.score.phase != 1
  }

  /** Every run of contacts the level would open an encounter in keeps the range it would freeze. */
  predicate OpeningsAnchored(b: Band, events: seq<Event>, s: State)
    decreases |events|
  {
    events == [] ||
    var n := RunLength(b, events);
    && (Contact(b, events[0]) && Opens(s) ==> Anchor(Keep(events[..n])) == Anchor(events[..n]))
    && OpeningsAnchored(b, events[n..], Fold(b, events[..n], s))
  }

  /** The reduced observations reach the same state at the end of every run. */
  predicate ExactAtEveryRun(b: Band, events: seq<Event>, s: State)
    decreases |events|
  {
    events == [] ||
    var n := RunLength(b, events);
    Fold(b, Keep(events[..n]), s) == Fold(b, events[..n], s) && ExactAtEveryRun(b, events[n..], Fold(b, events[..n], s))
  }

  /** One run from one reachable seed: exact if and only if it keeps the range of the encounter it opens, if it opens one. */
  lemma RunFromSeedIff(b: Band, g: seq<Event>, s: State)
    requires b.Valid() && Inv(s) && g != [] && OneRun(b, g)
    ensures Fold(b, Keep(g), s) == Fold(b, g, s)
      <==> (Contact(b, g[0]) && Opens(s) ==> Anchor(Keep(g)) == Anchor(g))
  {
    if Contact(b, g[0]) {
      forall e | e in g ensures Contact(b, e) {
        CodeFixesFlags(b, g[0], e);
      }
      KeepOfContacts(b, g);
      ContactFold(b, g, s);
      ContactFold(b, Keep(g), s);
      AnchorNonnegative(g);
      AnchorNonnegative(Keep(g));
    } else {
      RunExactIff(b, g);
    }
  }

  /** From one reachable seed: exact at the end of every run if and only if every opening keeps its range. */
  lemma {:induction false} ExactAtEveryRunIff(b: Band, events: seq<Event>, s: State)
    requires b.Valid() && Inv(s)
    ensures ExactAtEveryRun(b, events, s) <==> OpeningsAnchored(b, events, s)
    decreases |events|
  {
    if events != [] {
      var n := RunLength(b, events);
      RunFromSeedIff(b, events[..n], s);
      ReachableInv(b, events[..n], s);
      ExactAtEveryRunIff(b, events[n..], Fold(b, events[..n], s));
    }
  }

  /** ... and then exact on the whole sequence. */
  lemma {:induction false} OpeningsAnchoredExact(b: Band, events: seq<Event>, s: State)
    requires b.Valid() && Inv(s) && OpeningsAnchored(b, events, s)
    ensures Fold(b, Compress(b, events), s) == Fold(b, events, s)
    decreases |events|
  {
    if events != [] {
      var n := RunLength(b, events);
      var run, rest := events[..n], events[n..];
      assert events == run + rest;
      FoldConcat(b, run, rest, s);
      FoldConcat(b, Keep(run), Compress(b, rest), s);
      RunFromSeedIff(b, run, s);
      ReachableInv(b, run, s);
      OpeningsAnchoredExact(b, rest, Fold(b, run, s));
    }
  }

  /** Once a completed minute exists every range is positive, and then nothing can be lost. */
  lemma {:induction false} PositiveRangesAreAnchored(b: Band, events: seq<Event>)
    requires forall e :: e in events ==> e.range > 0.0
    ensures RangesAnchored(b, events)
    decreases |events|
  {
    if events != [] {
      var n := RunLength(b, events);
      var run := events[..n];
      assert events[0] in events;
      KeepPrefix(run, 1);
      assert Keep(run)[0] == run[0];
      PositiveRangesAreAnchored(b, events[n..]);
    }
  }

  /** Five contacts at one price, 10, 20, 30, 61 and 121 seconds into a session: the first two completed minutes become
      available at 60 and 120. Times are in microseconds. */
  function FirstMinutes(open: nat, p: real): (g: seq<Event>)
    ensures |g| == 5
  {
    [Event(open + 10_000_000, p, 0.0), Event(open + 20_000_000, p, 0.0), Event(open + 30_000_000, p, 0.0),
     Event(open + 61_000_000, p, 1.0), Event(open + 121_000_000, p, 2.0)]
  }

  lemma FirstMinutesCompressed(b: Band, open: nat, p: real)
    requires b.Valid() && b.lower <= p <= b.upper
    ensures var g := FirstMinutes(open, p); Compress(b, g) == [g[0], g[1], g[2], g[4]]
  {
    var g := FirstMinutes(open, p);
    var n := RunLength(b, g);
    assert forall i :: 0 <= i < 5 ==> Code(b, g[i]) == 0;
    assert n == 5 && g[..5] == g && g[5..] == [];
    assert Compress(b, g) == Keep(g) + Compress(b, []);
    FlatKeep(g);
  }

  /** A run of five equal prices keeps its first three and its last. */
  lemma FlatKeep(g: seq<Event>)
    requires |g| == 5 && forall i :: 0 <= i < 5 ==> g[i].price == g[0].price
    ensures Keep(g) == [g[0], g[1], g[2], g[4]]
  {
    KeepPrefix(g, 3);
    assert FirstMax(g) == 0 && FirstMin(g) == 0;
    assert !Kept(g, 3) && Kept(g, 4);
    LastTwo(g);
  }

  lemma LastTwo(g: seq<Event>)
    requires |g| == 5 && !Kept(g, 3)
    ensures KeptFrom(g, 3) == [g[4]]
  {
    assert KeptFrom(g, 5) == [];
    assert KeptFrom(g, 4) == [g[4]] + KeptFrom(g, 5);
    assert KeptFrom(g, 3) == KeptFrom(g, 4);
  }

  lemma AnchorSkips(events: seq<Event>, k: nat)
    requires k < |events| && events[k].range > 0.0
    requires forall i :: 0 <= i < k ==> events[i].range <= 0.0
    ensures Anchor(events) == events[k].range
  {
    if k > 0 {
      AnchorSkips(events[1..], k - 1);
    }
  }

  /** The exactness claim fails in the first minutes: the dropped fourth contact carries the range to be frozen. */
  lemma LostAnchor(b: Band, open: nat, p: real, born: nat)
    requires b.Valid() && b.lower <= p <= b.upper
    ensures Fold(b, FirstMinutes(open, p), BirthSeed(1, born)).score.range == 1.0
    ensures Fold(b, Compress(b, FirstMinutes(open, p)), BirthSeed(1, born)).score.range == 2.0
  {
    var g := FirstMinutes(open, p);
    var kept := Compress(b, g);
    FirstMinutesCompressed(b, open, p);
    AnchorSkips(g, 3);
    AnchorSkips(kept, 3);
    ContactFold(b, g, BirthSeed(1, born));
    ContactFold(b, kept, BirthSeed(1, born));
  }
}
