/** The interval index: closing states run-length encoded, then cut where splits take effect. */
module IntervalIndex {
  import opened Common

  /** Largest 64-bit timestamp, standing for "still open". */
  const FOREVER: nat := 0xFFFF_FFFF_FFFF_FFFF

  /** What a session's closing row carries for one level. */
  datatype Closing = Closing(side: int, phase: nat, prominence: real, confirmed: nat)

  /** A closing state and the time it takes effect. */
  datatype Close = Close(at: nat, state: Closing)

  /** A price multiplier and its effective time. */
  datatype Split = Split(at: nat, ratio: real)

  /** One row of the index, half open; no end means still valid. */
  datatype Row = Row(price: real, state: Closing, from: nat, to: Option<nat>) {
    predicate ValidAt(t: nat) {
      from <= t && (to.Some? ==> t < to.value)
    }
  }

  predicate Chronological(history: seq<Close>) {
    && (forall i, j :: 0 <= i < j < |history| ==> history[i].at < history[j].at)
    && (forall i :: 0 <= i < |history| ==> history[i].at < FOREVER)
  }

  predicate SplitsOrdered(splits: seq<Split>) {
    forall i, j :: 0 <= i < j < |splits| ==> splits[i].at < splits[j].at
  }

  // ---------- What the index must say ----------

  /** The state of the latest close at or before t. */
  function StateAt(history: seq<Close>, t: nat): Closing
    requires history != [] && history[0].at <= t
  {
    var n := |history| - 1;
    if history[n].at <= t then history[n].state else StateAt(history[..n], t)
  }

  /** The product of every split effective by t. */
  function FactorAt(splits: seq<Split>, t: nat): real {
    if splits == [] then 1.0
    else (if t >= splits[0].at then splits[0].ratio else 1.0) * FactorAt(splits[1..], t)
  }

  /** The state at a time is that of the close no later one has replaced by then. */
  lemma {:induction false} StateIsLatest(history: seq<Close>, t: nat, k: nat)
    requires Chronological(history) && k < |history| && history[k].at <= t && (k + 1 < |history| ==> t < history[k + 1].at)
    ensures StateAt(history, t) == history[k].state
    decreases |history|
  {
    var n := |history| - 1;
    if k < n {
      assert t < history[k + 1].at <= history[n].at;
      StateIsLatest(history[..n], t, k);
    }
  }

  /** The factor is one before every split and is multiplied by its ratio when a split takes effect; between splits it does
      not move. */
  lemma {:induction false} FactorSteps(splits: seq<Split>, before: nat, t: nat, k: nat)
    requires SplitsOrdered(splits) && before < t
    requires k < |splits| ==> before < splits[k].at <= t && forall i :: 0 <= i < |splits| && i != k ==> !(before < splits[i].at <= t)
    requires k >= |splits| ==> forall i :: 0 <= i < |splits| ==> !(before < splits[i].at <= t)
    ensures FactorAt(splits, t) == FactorAt(splits, before) * (if k < |splits| then splits[k].ratio else 1.0)
    ensures (forall i :: 0 <= i < |splits| ==> t < splits[i].at) ==> FactorAt(splits, t) == 1.0
    decreases |splits|
  {
    if splits != [] {
      var rest := splits[1..];
      assert forall i :: 0 <= i < |rest| ==> rest[i] == splits[i + 1];
      FactorSteps(rest, before, t, if k == 0 || k >= |splits| then |rest| else k - 1);
    }
  }

  // ---------- How it is built ----------

  /** Keeps a close only when its state differs from the preceding one. */
  function EpisodesFrom(history: seq<Close>, previous: Option<Closing>): seq<Close> {
    if history == [] then []
    else (if previous == Some(history[0].state) then [] else [history[0]])
         + EpisodesFrom(history[1..], Some(history[0].state))
  }

  function Episodes(history: seq<Close>): seq<Close> {
    EpisodesFrom(history, None)
  }

  /** Split times strictly inside an episode. */
  function Cuts(splits: seq<Split>, from: nat, to: nat): seq<nat> {
    if splits == [] then []
    else (if from < splits[0].at < to then [splits[0].at] else []) + Cuts(splits[1..], from, to)
  }

  /** One row for each consecutive pair of boundaries, the last one ending with the episode. */
  function Pieces(price: real, splits: seq<Split>, state: Closing, boundaries: seq<nat>, to: nat): seq<Row> {
    if boundaries == [] then []
    else
      var ending := if |boundaries| > 1 then boundaries[1] else to;
      [Row(price * FactorAt(splits, boundaries[0]), state, boundaries[0], if ending == FOREVER then None else Some(ending))]
      + Pieces(price, splits, state, boundaries[1..], to)
  }

  function BookOf(price: real, splits: seq<Split>, episodes: seq<Close>): seq<Row> {
    if episodes == [] then []
    else
      var to := if |episodes| > 1 then episodes[1].at else FOREVER;
      Pieces(price, splits, episodes[0].state, [episodes[0].at] + Cuts(splits, episodes[0].at, to), to)
      + BookOf(price, splits, episodes[1..])
  }

  function Book(price: real, splits: seq<Split>, history: seq<Close>): seq<Row> {
    BookOf(price, splits, Episodes(history))
  }

  // ---------- Tilings ----------

  /** Consecutive nonempty intervals from `from` up to `to`, with no gap and no overlap. */
  predicate Tiles(rows: seq<Row>, from: nat, to: nat) {
    if rows == [] then from == to
    else
      && rows[0].from == from
      && var ending := if rows[0].to.Some? then rows[0].to.value else FOREVER;
      && from < ending <= to
      && (rows[0].to.None? ==> ending == to)
      && Tiles(rows[1..], ending, to)
  }

  lemma {:induction false} TilesConcat(xs: seq<Row>, ys: seq<Row>, from: nat, mid: nat, to: nat)
    requires Tiles(xs, from, mid) && Tiles(ys, mid, to) && mid <= to
    requires forall i :: 0 <= i < |xs| && xs[i].to.None? ==> mid == to
    ensures Tiles(xs + ys, from, to)
  {
    if xs == [] {
      assert xs + ys == ys;
    } else {
      assert (xs + ys)[1..] == xs[1..] + ys;
      TilesConcat(xs[1..], ys, if xs[0].to.Some? then xs[0].to.value else FOREVER, mid, to);
    }
  }

  /** Exactly one tile holds each instant of the tiled span. */
  lemma {:induction false} TilesCoverOnce(rows: seq<Row>, from: nat, t: nat)
    requires Tiles(rows, from, FOREVER) && from <= t < FOREVER
    ensures exists k :: 0 <= k < |rows| && rows[k].ValidAt(t) && forall j :: 0 <= j < |rows| && j != k ==> !rows[j].ValidAt(t)
  {
    var rest := rows[1..];
    var ending := if rows[0].to.Some? then rows[0].to.value else FOREVER;
    TilesStartAtOrAfter(rest, ending, FOREVER);
    if t < ending {
      assert rows[0].ValidAt(t);
      forall j | 0 <= j < |rows| && j != 0 ensures !rows[j].ValidAt(t) {
        assert rows[j] == rest[j - 1];
      }
    } else {
      TilesCoverOnce(rest, ending, t);
      var k :| 0 <= k < |rest| && rest[k].ValidAt(t) && forall j :: 0 <= j < |rest| && j != k ==> !rest[j].ValidAt(t);
      assert rows[k + 1] == rest[k];
      forall j | 0 <= j < |rows| && j != k + 1 ensures !rows[j].ValidAt(t) {
        if j > 0 {
          assert rows[j] == rest[j - 1];
        }
      }
    }
  }

  lemma {:induction false} TilesStartAtOrAfter(rows: seq<Row>, from: nat, to: nat)
    requires Tiles(rows, from, to)
    ensures forall j :: 0 <= j < |rows| ==> rows[j].from >= from
  {
    if rows != [] {
      TilesStartAtOrAfter(rows[1..], if rows[0].to.Some? then rows[0].to.value else FOREVER, to);
    }
  }

  // ---------- Episodes ----------

  lemma TailIsLater(history: seq<Close>)
    requires history != [] && Chronological(history)
    ensures Chronological(history[1..]) && history[0].at < FOREVER && forall e :: e in history[1..] ==> history[0].at < e.at
  {
    var rest := history[1..];
    forall e | e in rest ensures history[0].at < e.at {
      var i :| 0 <= i < |rest| && rest[i] == e;
      assert history[i + 1] == e;
    }
  }

  lemma HeadIsEarlier(head: Close, rest: seq<Close>)
    requires Chronological(rest) && head.at < FOREVER && forall e :: e in rest ==> head.at < e.at
    ensures Chronological([head] + rest)
  {
  }

  lemma RestIsLater(history: seq<Close>, t: nat)
    requires Chronological(history) && (history != [] ==> t < history[0].at)
    ensures forall i :: 0 <= i < |history| ==> t < history[i].at
  {
    forall i | 0 <= i < |history| ensures t < history[i].at {
      assert history[0].at <= history[i].at;
    }
  }

  lemma {:induction false} EpisodeIsClose(history: seq<Close>, previous: Option<Closing>, e: Close)
    requires e in EpisodesFrom(history, previous)
    ensures e in history
  {
    var head, rest := history[0], history[1..];
    assert history == [head] + rest;
    if e != head {
      assert e in EpisodesFrom(rest, Some(head.state));
      EpisodeIsClose(rest, Some(head.state), e);
    }
  }

  /** Episodes are closes of the history in their order, the first close among them. */
  lemma {:induction false} EpisodesAreCloses(history: seq<Close>, previous: Option<Closing>)
    requires Chronological(history)
    ensures var eps := EpisodesFrom(history, previous);
      && Chronological(eps)
      && (previous == None && history != [] ==> eps != [] && eps[0] == history[0])
  {
    hide Chronological;
    if history == [] {
      assert EpisodesFrom(history, previous) == history;
    } else {
      var head, rest := history[0], history[1..];
      TailIsLater(history);
      EpisodesAreCloses(rest, Some(head.state));
      var tail := EpisodesFrom(rest, Some(head.state));
      forall e | e in tail ensures head.at < e.at {
        EpisodeIsClose(rest, Some(head.state), e);
      }
      HeadIsEarlier(head, tail);
      if previous == Some(head.state) {
        assert EpisodesFrom(history, previous) == tail;
      } else {
        assert EpisodesFrom(history, previous) == [head] + tail;
      }
    }
  }

  /** The state of the latest close at or before t, or a default when there is none yet. */
  function StateOr(history: seq<Close>, t: nat, default: Option<Closing>): Option<Closing> {
    if history != [] && history[0].at <= t then Some(StateAt(history, t)) else default
  }

  lemma StateOrCons(head: Close, rest: seq<Close>, t: nat, default: Option<Closing>)
    requires Chronological(rest)
    ensures StateOr([head] + rest, t, default) == if head.at <= t then StateOr(rest, t, Some(head.state)) else default
  {
    hide Chronological, StateAt;
    if head.at <= t {
      if rest != [] && rest[0].at <= t {
        StateAtPrepend(head, rest, t);
      } else {
        RestIsLater(rest, t);
        StateAtHead(head, rest, t);
      }
    }
  }

  /** Run-length encoding loses nothing: the latest episode carries the latest close's state. */
  lemma {:induction false} EpisodesKeepState(history: seq<Close>, previous: Option<Closing>, t: nat)
    requires Chronological(history)
    ensures StateOr(EpisodesFrom(history, previous), t, previous) == StateOr(history, t, previous)
  {
    hide Chronological, StateAt;
    if history != [] {
      var head, rest := history[0], history[1..];
      var tail := EpisodesFrom(rest, Some(head.state));
      TailIsLater(history);
      assert history == [head] + rest;
      StateOrCons(head, rest, t, previous);
      EpisodesAreCloses(rest, Some(head.state));
      EpisodesKeepState(rest, Some(head.state), t);
      if previous != Some(head.state) {
        assert EpisodesFrom(history, previous) == [head] + tail;
        StateOrCons(head, tail, t, previous);
      } else {
        assert EpisodesFrom(history, previous) == tail;
        NothingBeforeHead(history, rest, previous, t);
      }
    }
  }

  lemma NothingBeforeHead(history: seq<Close>, rest: seq<Close>, previous: Option<Closing>, t: nat)
    requires Chronological(history) && history != [] && rest == history[1..]
    ensures t < history[0].at ==> StateOr(rest, t, previous) == previous
  {
    hide StateAt;
    assert rest != [] ==> history[0].at < history[1].at == rest[0].at;
  }

  lemma {:induction false} StateAtPrepend(head: Close, rest: seq<Close>, t: nat)
    requires rest != [] && rest[0].at <= t && head.at <= t
    ensures StateAt([head] + rest, t) == StateAt(rest, t)
  {
    var n := |rest| - 1;
    if rest[n].at > t {
      assert ([head] + rest)[..n + 1] == [head] + rest[..n];
      StateAtPrepend(head, rest[..n], t);
    }
  }

  lemma {:induction false} StateAtHead(head: Close, rest: seq<Close>, t: nat)
    requires head.at <= t && forall i :: 0 <= i < |rest| ==> t < rest[i].at
    ensures StateAt([head] + rest, t) == head.state
  {
    if rest != [] {
      var n := |rest| - 1;
      assert ([head] + rest)[..n + 1] == [head] + rest[..n];
      StateAtHead(head, rest[..n], t);
    }
  }

  // ---------- Pieces ----------

  /** Between two times with no split taking effect in between, the factor does not move. */
  lemma {:induction false} FactorIsConstant(splits: seq<Split>, from: nat, t: nat)
    requires from <= t && forall i :: 0 <= i < |splits| ==> splits[i].at <= from || t < splits[i].at
    ensures FactorAt(splits, from) == FactorAt(splits, t)
  {
    if splits != [] {
      FactorIsConstant(splits[1..], from, t);
    }
  }

  ghost predicate InnerSplits(splits: seq<Split>, from: nat, to: nat, cuts: seq<nat>) {
    && (forall i, j :: 0 <= i < j < |cuts| ==> cuts[i] < cuts[j])
    && (forall i :: 0 <= i < |cuts| ==> from < cuts[i] < to && SplitTime(splits, cuts[i]))
    && (forall i :: 0 <= i < |splits| && from < splits[i].at < to ==> splits[i].at in cuts)
  }

  predicate SplitTime(splits: seq<Split>, at: nat) {
    exists i :: 0 <= i < |splits| && splits[i].at == at
  }

  lemma CutPrepended(splits: seq<Split>, from: nat, to: nat, tail: seq<nat>)
    requires SplitsOrdered(splits) && splits != [] && InnerSplits(splits[1..], from, to, tail)
    ensures InnerSplits(splits, from, to, (if from < splits[0].at < to then [splits[0].at] else []) + tail)
  {
    forall j | 0 <= j < |tail| ensures splits[0].at < tail[j] && SplitTime(splits, tail[j]) {
      var i :| 0 <= i < |splits[1..]| && splits[1..][i].at == tail[j];
      assert splits[i + 1].at == tail[j];
    }
    forall i | 0 < i < |splits| && from < splits[i].at < to ensures splits[i].at in tail {
      assert splits[i] == splits[1..][i - 1];
    }
  }

  /** The cuts are exactly the split times strictly inside the episode, in order. */
  lemma {:induction false} CutsAreTheInnerSplits(splits: seq<Split>, from: nat, to: nat)
    requires SplitsOrdered(splits)
    ensures InnerSplits(splits, from, to, Cuts(splits, from, to))
  {
    if splits != [] {
      CutsAreTheInnerSplits(splits[1..], from, to);
      CutPrepended(splits, from, to, Cuts(splits[1..], from, to));
    }
  }

  /** Boundaries that leave no split inside any piece. */
  predicate Separates(boundaries: seq<nat>, splits: seq<Split>, to: nat) {
    && (forall i, j :: 0 <= i < j < |boundaries| ==> boundaries[i] < boundaries[j])
    && (forall i :: 0 <= i < |boundaries| ==> boundaries[i] < to)
    && (forall i :: 0 <= i < |splits| && boundaries != [] && boundaries[0] < splits[i].at < to ==> splits[i].at in boundaries)
  }

  /** A row tells the truth throughout its interval. */
  ghost predicate Honest(row: Row, price: real, splits: seq<Split>, state: Closing) {
    row.state == state && forall t: nat :: row.ValidAt(t) && t < FOREVER ==> row.price == price * FactorAt(splits, t)
  }

  lemma NextBoundaryIsFirst(boundaries: seq<nat>, splits: seq<Split>, to: nat, i: nat)
    requires boundaries != [] && Separates(boundaries, splits, to) && i < |splits|
    ensures splits[i].at <= boundaries[0] || splits[i].at >= if |boundaries| > 1 then boundaries[1] else to
  {
    if boundaries[0] < splits[i].at < to {
      var k :| 0 <= k < |boundaries| && boundaries[k] == splits[i].at;
      assert k >= 1;
    }
  }

  /** A row lies inside a span. */
  predicate Within(row: Row, from: nat, to: nat) {
    from <= row.from && (row.to.Some? ==> row.to.value <= to)
  }

  lemma PieceIsHonest(price: real, splits: seq<Split>, state: Closing, boundaries: seq<nat>, to: nat)
    requires boundaries != [] && Separates(boundaries, splits, to) && to <= FOREVER
    ensures Honest(Pieces(price, splits, state, boundaries, to)[0], price, splits, state)
  {
    hide Separates, FactorAt;
    var row := Pieces(price, splits, state, boundaries, to)[0];
    forall t: nat | row.ValidAt(t) && t < FOREVER ensures row.price == price * FactorAt(splits, t) {
      forall i | 0 <= i < |splits| ensures splits[i].at <= boundaries[0] || t < splits[i].at {
        NextBoundaryIsFirst(boundaries, splits, to, i);
      }
      FactorIsConstant(splits, boundaries[0], t);
    }
  }

  /** Dropping the first boundary leaves the later pieces separated. */
  lemma BoundariesAreInside(boundaries: seq<nat>, splits: seq<Split>, to: nat)
    requires boundaries != [] && Separates(boundaries, splits, to)
    ensures boundaries[0] < to && (|boundaries| > 1 ==> boundaries[0] < boundaries[1] < to)
    ensures Separates(boundaries[1..], splits, to)
  {
    var rest := boundaries[1..];
    assert boundaries == [boundaries[0]] + rest;
    forall i | 0 <= i < |splits| && rest != [] && rest[0] < splits[i].at < to ensures splits[i].at in rest {
      assert boundaries[0] < boundaries[1] == rest[0];
      assert splits[i].at in boundaries;
    }
  }

  lemma {:induction false} PiecesTile(price: real, splits: seq<Split>, state: Closing, boundaries: seq<nat>, to: nat)
    requires boundaries != [] && Separates(boundaries, splits, to) && to <= FOREVER
    ensures var rows := Pieces(price, splits, state, boundaries, to);
      && Tiles(rows, boundaries[0], to)
      && (forall i :: 0 <= i < |rows| ==> Honest(rows[i], price, splits, state))
      && (forall i :: 0 <= i < |rows| && rows[i].to.None? ==> to == FOREVER)
      && (forall i :: 0 <= i < |rows| ==> Within(rows[i], boundaries[0], to))
  {
    hide Separates, FactorAt;
    var rest := boundaries[1..];
    var row := Pieces(price, splits, state, boundaries, to)[0];
    PieceIsHonest(price, splits, state, boundaries, to);
    BoundariesAreInside(boundaries, splits, to);
    if rest == [] {
      assert Pieces(price, splits, state, boundaries, to) == [row];
    } else {
      PiecesTile(price, splits, state, rest, to);
      var tail := Pieces(price, splits, state, rest, to);
      assert Pieces(price, splits, state, boundaries, to) == [row] + tail;
      assert ([row] + tail)[1..] == tail;
    }
  }

  // ---------- The book agrees with daily history ----------

  /** Throughout its interval a row carries the latest closing state and every split effective by then. */
  ghost predicate Agrees(row: Row, price: real, splits: seq<Split>, history: seq<Close>) {
    forall t: nat :: row.ValidAt(t) && t < FOREVER ==>
      history != [] && history[0].at <= t && row.state == StateAt(history, t) && row.price == price * FactorAt(splits, t)
  }

  lemma PieceAgrees(row: Row, price: real, splits: seq<Split>, eps: seq<Close>, to: nat)
    requires Chronological(eps) && eps != [] && Honest(row, price, splits, eps[0].state)
    requires to == if |eps| > 1 then eps[1].at else FOREVER
    requires Within(row, eps[0].at, to) && (row.to.None? ==> to == FOREVER)
    ensures Agrees(row, price, splits, eps)
  {
    forall t: nat | row.ValidAt(t) && t < FOREVER
      ensures row.state == StateAt(eps, t)
    {
      assert eps == [eps[0]] + eps[1..];
      StateAtHead(eps[0], eps[1..], t);
    }
  }

  lemma AgreesWithMore(row: Row, price: real, splits: seq<Split>, eps: seq<Close>)
    requires Chronological(eps) && eps != [] && Agrees(row, price, splits, eps[1..])
    ensures Agrees(row, price, splits, eps)
  {
    forall t: nat | row.ValidAt(t) && t < FOREVER
      ensures eps[0].at <= t && row.state == StateAt(eps, t)
    {
      assert eps == [eps[0]] + eps[1..];
      StateAtPrepend(eps[0], eps[1..], t);
    }
  }

  function EpisodeEnd(eps: seq<Close>): nat
    requires eps != []
  {
    if |eps| > 1 then eps[1].at else FOREVER
  }

  /** The rows of the first episode. */
  function FirstPieces(price: real, splits: seq<Split>, eps: seq<Close>): seq<Row>
    requires eps != []
  {
    Pieces(price, splits, eps[0].state, [eps[0].at] + Cuts(splits, eps[0].at, EpisodeEnd(eps)), EpisodeEnd(eps))
  }

  lemma CutsSeparate(splits: seq<Split>, from: nat, to: nat)
    requires SplitsOrdered(splits) && from < to
    ensures Separates([from] + Cuts(splits, from, to), splits, to)
  {
    hide Cuts, SplitsOrdered, SplitTime;
    var cuts := Cuts(splits, from, to);
    var boundaries := [from] + cuts;
    CutsAreTheInnerSplits(splits, from, to);
    forall i, j | 0 <= i < j < |boundaries| ensures boundaries[i] < boundaries[j] {
      assert boundaries[j] == cuts[j - 1];
    }
    forall i | 0 <= i < |splits| && from < splits[i].at < to ensures splits[i].at in boundaries {
      assert splits[i].at in cuts;
    }
  }

  lemma FirstPiecesTile(price: real, splits: seq<Split>, eps: seq<Close>)
    requires Chronological(eps) && SplitsOrdered(splits) && eps != []
    ensures var rows := FirstPieces(price, splits, eps);
      && Tiles(rows, eps[0].at, EpisodeEnd(eps))
      && (forall i :: 0 <= i < |rows| && rows[i].to.None? ==> EpisodeEnd(eps) == FOREVER)
      && (forall i :: 0 <= i < |rows| ==> Agrees(rows[i], price, splits, eps))
  {
    var from, to := eps[0].at, EpisodeEnd(eps);
    var boundaries := [from] + Cuts(splits, from, to);
    CutsSeparate(splits, from, to);
    PiecesTile(price, splits, eps[0].state, boundaries, to);
    var rows := FirstPieces(price, splits, eps);
    forall i | 0 <= i < |rows| ensures Agrees(rows[i], price, splits, eps) {
      PieceAgrees(rows[i], price, splits, eps, to);
    }
  }

  lemma {:induction false} BookTiles(price: real, splits: seq<Split>, eps: seq<Close>)
    requires Chronological(eps) && SplitsOrdered(splits) && eps != []
    ensures var rows := BookOf(price, splits, eps);
      && Tiles(rows, eps[0].at, FOREVER)
      && (forall i :: 0 <= i < |rows| ==> Agrees(rows[i], price, splits, eps))
  {
    var pieces, rest := FirstPieces(price, splits, eps), BookOf(price, splits, eps[1..]);
    FirstPiecesTile(price, splits, eps);
    if |eps| > 1 {
      BookTiles(price, splits, eps[1..]);
      forall i | 0 <= i < |rest| ensures Agrees(rest[i], price, splits, eps) {
        AgreesWithMore(rest[i], price, splits, eps);
      }
    } else {
      assert eps[1..] == [];
    }
    TilesConcat(pieces, rest, eps[0].at, EpisodeEnd(eps), FOREVER);
  }

  /**
   * Main result: at every instant from the first close on, exactly one row is valid, and it carries the state
   * of the latest close at or before then with price scaled by all splits effective by then; before the first
   * close no row is valid, and no interval is empty.
   */
  lemma BookAgreesWithHistory(price: real, splits: seq<Split>, history: seq<Close>, t: nat)
    requires Chronological(history) && SplitsOrdered(splits) && history != [] && t < FOREVER
    ensures var rows := Book(price, splits, history);
      && (forall i :: 0 <= i < |rows| && rows[i].to.Some? ==> rows[i].from < rows[i].to.value)
      && (t < history[0].at ==> forall i :: 0 <= i < |rows| ==> !rows[i].ValidAt(t))
      && (history[0].at <= t ==>
          exists k :: 0 <= k < |rows| && rows[k].ValidAt(t)
            && rows[k].state == StateAt(history, t)
            && rows[k].price == price * FactorAt(splits, t)
            && forall j :: 0 <= j < |rows| && j != k ==> !rows[j].ValidAt(t))
  {
    hide Chronological, SplitsOrdered, StateAt, FactorAt, Tiles, BookOf, EpisodesFrom;
    var eps, rows := Episodes(history), Book(price, splits, history);
    EpisodesAreCloses(history, None);
    BookTiles(price, splits, eps);
    TilesStartAtOrAfter(rows, eps[0].at, FOREVER);
    TilesNonempty(rows, eps[0].at, FOREVER);
    if history[0].at <= t {
      TilesCoverOnce(rows, eps[0].at, t);
      EpisodesKeepState(history, None, t);
      var k :| 0 <= k < |rows| && rows[k].ValidAt(t) && forall j :: 0 <= j < |rows| && j != k ==> !rows[j].ValidAt(t);
      assert Agrees(rows[k], price, splits, eps);
    }
  }

  predicate NoneEndsForever(rows: seq<Row>) {
    forall i :: 0 <= i < |rows| ==> rows[i].to != Some(FOREVER)
  }

  lemma {:induction false} PiecesEnd(price: real, splits: seq<Split>, state: Closing, boundaries: seq<nat>, to: nat)
    ensures NoneEndsForever(Pieces(price, splits, state, boundaries, to))
  {
    if boundaries != [] {
      PiecesEnd(price, splits, state, boundaries[1..], to);
    }
  }

  lemma {:induction false} BookEnds(price: real, splits: seq<Split>, eps: seq<Close>)
    ensures NoneEndsForever(BookOf(price, splits, eps))
  {
    if eps != [] {
      hide Pieces, Cuts;
      BookEnds(price, splits, eps[1..]);
      PiecesEnd(price, splits, eps[0].state, [eps[0].at] + Cuts(splits, eps[0].at, EpisodeEnd(eps)), EpisodeEnd(eps));
    }
  }

  lemma {:induction false} TilesLastOpen(rows: seq<Row>, from: nat)
    requires Tiles(rows, from, FOREVER) && from < FOREVER && NoneEndsForever(rows)
    ensures forall i :: 0 <= i < |rows| ==> (rows[i].to.None? <==> i == |rows| - 1)
  {
    if |rows| > 1 {
      assert rows[1..] != [] && rows[0].to.Some?;
      TilesLastOpen(rows[1..], rows[0].to.value);
    }
  }

  /** Of a level's rows only the last is open-ended. */
  lemma OnlyLastIsOpen(price: real, splits: seq<Split>, history: seq<Close>)
    requires Chronological(history) && SplitsOrdered(splits) && history != []
    ensures var rows := Book(price, splits, history);
      rows != [] && forall i :: 0 <= i < |rows| ==> (rows[i].to.None? <==> i == |rows| - 1)
  {
    hide Tiles, BookOf, EpisodesFrom, SplitsOrdered;
    var eps := Episodes(history);
    EpisodesAreCloses(history, None);
    BookTiles(price, splits, eps);
    BookEnds(price, splits, eps);
    TilesLastOpen(Book(price, splits, history), eps[0].at);
    NothingTiles(eps[0].at);
  }

  lemma NothingTiles(from: nat)
    requires from < FOREVER
    ensures !Tiles([], from, FOREVER)
  {
  }

  lemma {:induction false} TilesNonempty(rows: seq<Row>, from: nat, to: nat)
    requires Tiles(rows, from, to)
    ensures forall i :: 0 <= i < |rows| && rows[i].to.Some? ==> rows[i].from < rows[i].to.value
  {
    if rows != [] {
      TilesNonempty(rows[1..], if rows[0].to.Some? then rows[0].to.value else FOREVER, to);
    }
  }
}
