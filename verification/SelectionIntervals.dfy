/** Gaps-and-islands compaction of the selected areas of one level into public intervals. */
module SelectionIntervals {
  import opened Common

  datatype Geometry = Geometry(lower: real, upper: real, price: real, score: real, side: int, members: seq<string>)

  /** A geometry in force from `from` until the next checkpoint, or still in force. */
  datatype Interval = Interval(from: nat, until: Option<nat>, geometry: Geometry) {
    predicate Covers(t: nat) {
      from <= t && (until.Some? ==> t < until.value)
    }
  }

  // ---------- What the public table must say ----------

  /** The level's geometry at t: as selected at the latest checkpoint at or before t, if it was selected there. */
  function SelectedAt(checkpoints: seq<nat>, closing: map<nat, Geometry>, t: nat): Option<Geometry> {
    if checkpoints == [] then None
    else
      var n := |checkpoints| - 1;
      if checkpoints[n] <= t then
        if checkpoints[n] in closing then Some(closing[checkpoints[n]]) else None
      else SelectedAt(checkpoints[..n], closing, t)
  }

  /** What is selected at a time is what was selected at the checkpoint in force, and nothing before the first one. */
  lemma {:induction false} SelectedIsInForce(checkpoints: seq<nat>, closing: map<nat, Geometry>, t: nat, k: nat)
    requires Increasing(checkpoints)
    requires k < |checkpoints| ==> checkpoints[k] <= t && (k + 1 < |checkpoints| ==> t < checkpoints[k + 1])
    requires k >= |checkpoints| ==> forall i :: 0 <= i < |checkpoints| ==> t < checkpoints[i]
    ensures SelectedAt(checkpoints, closing, t)
      == if k < |checkpoints| && checkpoints[k] in closing then Some(closing[checkpoints[k]]) else None
    decreases |checkpoints|
  {
    if checkpoints != [] {
      var n := |checkpoints| - 1;
      if k < n {
        assert t < checkpoints[k + 1] <= checkpoints[n];
      }
      if k != n {
        SelectedIsInForce(checkpoints[..n], closing, t, k);
      }
    }
  }

  // ---------- How it is built ----------

  /** Selected rows joined to their checkpoint's successor, in order. */
  function Joined(checkpoints: seq<nat>, closing: map<nat, Geometry>): seq<Interval> {
    if checkpoints == [] then []
    else
      var c := checkpoints[0];
      var until := if |checkpoints| > 1 then Some(checkpoints[1]) else None;
      (if c in closing then [Interval(c, until, closing[c])] else []) + Joined(checkpoints[1..], closing)
  }

  /** A row opens a new island unless it begins where an equal row before it ends. */
  predicate OpensIsland(previous: Interval, row: Interval) {
    previous.until.None? || previous.until.value != row.from || previous.geometry != row.geometry
  }

  /** Rows up to the next one that opens an island. */
  function IslandLength(rows: seq<Interval>): (n: nat)
    requires rows != []
    ensures 1 <= n <= |rows|
    ensures forall i :: 1 <= i < n ==> rows[i - 1].until == Some(rows[i].from) && rows[i - 1].geometry == rows[i].geometry
    ensures n < |rows| ==> rows[n - 1].until != Some(rows[n].from) || rows[n - 1].geometry != rows[n].geometry
  {
    if |rows| == 1 || OpensIsland(rows[0], rows[1]) then 1
    else
      var m := IslandLength(rows[1..]);
      assert forall i :: 1 <= i < m ==> !OpensIsland(rows[1..][i - 1], rows[1..][i]);
      m + 1
  }

  function Least(group: seq<Interval>): nat
    requires group != []
  {
    if |group| == 1 then group[0].from
    else
      var m := Least(group[1..]);
      if group[0].from <= m then group[0].from else m
  }

  /** Open when any member is open, otherwise the greatest end. */
  function Latest(group: seq<Interval>): Option<nat>
    requires group != []
  {
    if |group| == 1 then group[0].until
    else
      var m := Latest(group[1..]);
      if group[0].until.None? || m.None? then None
      else if group[0].until.value >= m.value then group[0].until else m
  }

  /** The one public interval an island becomes. */
  function Island(rows: seq<Interval>): Interval
    requires rows != []
  {
    Interval(Least(rows[..IslandLength(rows)]), Latest(rows[..IslandLength(rows)]), rows[0].geometry)
  }

  function Compact(rows: seq<Interval>): seq<Interval>
    decreases |rows|
  {
    if rows == [] then [] else [Island(rows)] + Compact(rows[IslandLength(rows)..])
  }

  // ---------- Proof ----------

  predicate Precedes(a: Interval, b: Interval) {
    a.until.Some? && a.until.value <= b.from
  }

  /** Nonempty, ordered and disjoint rows. */
  predicate Separate(rows: seq<Interval>) {
    && (forall i :: 0 <= i < |rows| && rows[i].until.Some? ==> rows[i].from < rows[i].until.value)
    && (forall i, j :: 0 <= i < j < |rows| ==> Precedes(rows[i], rows[j]))
  }

  lemma SeparateCons(head: Interval, tail: seq<Interval>)
    requires Separate(tail) && (head.until.Some? ==> head.from < head.until.value)
    requires tail != [] ==> Precedes(head, tail[0])
    ensures Separate([head] + tail)
  {
    var all := [head] + tail;
    forall j | 1 <= j < |all| ensures Precedes(head, all[j]) {
      assert tail[j - 1] == all[j] && (j > 1 ==> Precedes(tail[0], tail[j - 1]));
    }
    forall i, j | 1 <= i < j < |all| ensures Precedes(all[i], all[j]) {
      assert tail[i - 1] == all[i] && tail[j - 1] == all[j];
    }
  }

  lemma SeparateSlice(rows: seq<Interval>, lo: nat, hi: nat)
    requires Separate(rows) && lo <= hi <= |rows|
    ensures Separate(rows[lo..hi])
  {
    var part := rows[lo..hi];
    forall i, j | 0 <= i < j < |part| ensures Precedes(part[i], part[j]) {
      assert part[i] == rows[lo + i] && part[j] == rows[lo + j];
    }
  }

  /** Exactly one row covers t, with geometry g; or none does. */
  ghost predicate SaysAt(rows: seq<Interval>, t: nat, said: Option<Geometry>) {
    match said
    case None => forall j :: 0 <= j < |rows| ==> !rows[j].Covers(t)
    case Some(g) => exists k :: 0 <= k < |rows| && rows[k].Covers(t) && rows[k].geometry == g
                      && forall j :: 0 <= j < |rows| && j != k ==> !rows[j].Covers(t)
  }

  lemma {:induction false} JoinedIsSeparate(checkpoints: seq<nat>, closing: map<nat, Geometry>)
    requires Increasing(checkpoints)
    ensures Separate(Joined(checkpoints, closing))
    ensures forall r :: r in Joined(checkpoints, closing) ==> checkpoints != [] && r.from >= checkpoints[0]
  {
    if checkpoints != [] {
      var rest := checkpoints[1..];
      JoinedIsSeparate(rest, closing);
      var tail := Joined(rest, closing);
      assert tail != [] ==> tail[0] in tail;
      if checkpoints[0] in closing {
        SeparateCons(Joined(checkpoints, closing)[0], tail);
      }
    }
  }

  lemma {:induction false} SelectedAtHead(c: nat, rest: seq<nat>, closing: map<nat, Geometry>, t: nat)
    requires Increasing([c] + rest)
    ensures SelectedAt([c] + rest, closing, t)
      == if rest != [] && rest[0] <= t then SelectedAt(rest, closing, t)
         else if c <= t && c in closing then Some(closing[c]) else None
  {
    if rest != [] {
      var all, n := [c] + rest, |rest| - 1;
      assert all[n + 1] == rest[n] && all[..n + 1] == [c] + rest[..n] && all[1] == rest[0];
      assert n > 0 ==> all[1] < all[n + 1];
      if rest[n] > t {
        assert Increasing([c] + rest[..n]);
        SelectedAtHead(c, rest[..n], closing, t);
        assert n == 0 ==> [c] + rest[..n] == [c];
      }
    }
  }

  lemma TailIncreases(checkpoints: seq<nat>)
    requires Increasing(checkpoints) && checkpoints != []
    ensures Increasing(checkpoints[1..]) && checkpoints == [checkpoints[0]] + checkpoints[1..]
    ensures |checkpoints| > 1 ==> checkpoints[0] < checkpoints[1] == checkpoints[1..][0]
  {
  }

  /** No row starts by a time that no checkpoint has reached. */
  lemma NoneCovers(checkpoints: seq<nat>, closing: map<nat, Geometry>, t: nat)
    requires Increasing(checkpoints) && (checkpoints != [] ==> t < checkpoints[0])
    ensures forall j :: 0 <= j < |Joined(checkpoints, closing)| ==> !Joined(checkpoints, closing)[j].Covers(t)
  {
    hide Joined, Increasing;
    JoinedIsSeparate(checkpoints, closing);
    var rows := Joined(checkpoints, closing);
    forall j | 0 <= j < |rows| ensures !rows[j].Covers(t) {
      assert rows[j] in rows;
    }
  }

  /** Before compaction the joined rows already say what was selected. */
  lemma {:induction false} JoinedSays(checkpoints: seq<nat>, closing: map<nat, Geometry>, t: nat)
    requires Increasing(checkpoints)
    ensures SaysAt(Joined(checkpoints, closing), t, SelectedAt(checkpoints, closing, t))
  {
    hide Increasing, SelectedAt, SaysAt;
    if checkpoints == [] {
      NothingSelected(closing, t);
    } else {
      var c, rest := checkpoints[0], checkpoints[1..];
      var tail := Joined(rest, closing);
      TailIncreases(checkpoints);
      SelectedAtHead(c, rest, closing, t);
      JoinedSays(rest, closing, t);
      assert c !in closing ==> Joined(checkpoints, closing) == tail;
      if rest != [] && rest[0] <= t {
        if c in closing {
          SaysAfterHead(Interval(c, Some(rest[0]), closing[c]), tail, t, SelectedAt(rest, closing, t));
        }
      } else {
        NoneCovers(rest, closing, t);
        NothingSaid(tail, t);
        if c in closing {
          var head := Interval(c, if |checkpoints| > 1 then Some(checkpoints[1]) else None, closing[c]);
          SaysOfHead(head, tail, t);
        }
      }
    }
  }

  lemma NothingSelected(closing: map<nat, Geometry>, t: nat)
    ensures SaysAt([], t, SelectedAt([], closing, t))
  {
  }

  lemma NothingSaid(rows: seq<Interval>, t: nat)
    requires forall j :: 0 <= j < |rows| ==> !rows[j].Covers(t)
    ensures SaysAt(rows, t, None)
  {
  }

  lemma SaysAfterHead(head: Interval, tail: seq<Interval>, t: nat, said: Option<Geometry>)
    requires !head.Covers(t) && SaysAt(tail, t, said)
    ensures SaysAt([head] + tail, t, said)
  {
    var all := [head] + tail;
    assert forall j :: 1 <= j < |all| ==> all[j] == tail[j - 1];
    if said.Some? {
      var k :| 0 <= k < |tail| && tail[k].Covers(t) && tail[k].geometry == said.value
        && forall j :: 0 <= j < |tail| && j != k ==> !tail[j].Covers(t);
      assert all[k + 1] == tail[k];
    }
  }

  lemma SaysOfHead(head: Interval, tail: seq<Interval>, t: nat)
    requires forall j :: 0 <= j < |tail| ==> !tail[j].Covers(t)
    ensures SaysAt([head] + tail, t, if head.Covers(t) then Some(head.geometry) else None)
  {
    var all := [head] + tail;
    assert forall j :: 1 <= j < |all| ==> all[j] == tail[j - 1];
    assert all[0] == head;
  }

  /** Each row begins where an equal one before it ends. */
  predicate OneIsland(group: seq<Interval>) {
    forall i :: 1 <= i < |group| ==> !OpensIsland(group[i - 1], group[i])
  }

  lemma OneIslandTail(group: seq<Interval>)
    requires |group| > 1 && Separate(group) && OneIsland(group)
    ensures Separate(group[1..]) && OneIsland(group[1..])
    ensures group == [group[0]] + group[1..] && group[0].until == Some(group[1].from) && group[1].geometry == group[0].geometry
    ensures group[0].from < group[1].from
  {
    var rest := group[1..];
    SeparateSlice(group, 1, |group|);
    assert !OpensIsland(group[0], group[1]);
    forall i | 1 <= i < |rest| ensures !OpensIsland(rest[i - 1], rest[i]) {
      assert !OpensIsland(group[i], group[i + 1]);
    }
  }

  lemma {:induction false} IslandEnds(group: seq<Interval>)
    requires group != [] && Separate(group) && OneIsland(group)
    ensures Least(group) == group[0].from && Latest(group) == group[|group| - 1].until
    ensures group[|group| - 1].geometry == group[0].geometry
    ensures Latest(group).Some? ==> group[0].from < Latest(group).value
  {
    if |group| > 1 {
      OneIslandTail(group);
      hide Separate, OneIsland;
      IslandEnds(group[1..]);
    }
  }

  /** An island spans from its first member's start to its last member's end, without a gap. */
  lemma {:induction false} IslandSpan(group: seq<Interval>, t: nat)
    requires group != [] && Separate(group) && OneIsland(group)
    ensures SaysAt(group, t, if Interval(Least(group), Latest(group), group[0].geometry).Covers(t)
                             then Some(group[0].geometry) else None)
  {
    hide Separate, OneIsland, SaysAt, Least, Latest;
    var head, rest := group[0], group[1..];
    assert group == [head] + rest;
    IslandEnds(group);
    if rest == [] {
      SaysOfHead(head, rest, t);
    } else {
      OneIslandTail(group);
      IslandEnds(rest);
      IslandSpan(rest, t);
      if head.Covers(t) {
        assert !Interval(Least(rest), Latest(rest), rest[0].geometry).Covers(t);
        SaysNothing(rest, t);
        SaysOfHead(head, rest, t);
      } else {
        SaysAfterHead(head, rest, t, if Interval(Least(rest), Latest(rest), rest[0].geometry).Covers(t)
                                     then Some(rest[0].geometry) else None);
      }
    }
  }

  lemma SaysNothing(rows: seq<Interval>, t: nat)
    requires SaysAt(rows, t, None)
    ensures forall j :: 0 <= j < |rows| ==> !rows[j].Covers(t)
  {
  }

  lemma SaysSplit(xs: seq<Interval>, ys: seq<Interval>, t: nat, x: Option<Geometry>, y: Option<Geometry>, all: Option<Geometry>)
    requires SaysAt(xs, t, x) && SaysAt(ys, t, y) && SaysAt(xs + ys, t, all)
    ensures x.None? || y.None?
    ensures all == if x.Some? then x else y
  {
    var zs := xs + ys;
    assert forall i :: 0 <= i < |xs| ==> zs[i] == xs[i];
    assert forall i :: 0 <= i < |ys| ==> zs[|xs| + i] == ys[i];
    if x.Some? {
      var k :| 0 <= k < |xs| && xs[k].Covers(t) && xs[k].geometry == x.value;
      assert zs[k].Covers(t);
    }
    if y.Some? {
      var k :| 0 <= k < |ys| && ys[k].Covers(t) && ys[k].geometry == y.value;
      assert zs[|xs| + k].Covers(t);
    }
    if all.Some? {
      var k :| 0 <= k < |zs| && zs[k].Covers(t) && zs[k].geometry == all.value;
      assert if k < |xs| then xs[k].Covers(t) else ys[k - |xs|].Covers(t);
    }
  }

  /** Separate rows always say something definite. */
  lemma {:induction false} SeparateSays(rows: seq<Interval>, t: nat) returns (said: Option<Geometry>)
    requires Separate(rows)
    ensures SaysAt(rows, t, said)
  {
    said := None;
    if rows != [] {
      var head, rest := rows[0], rows[1..];
      assert rows == [head] + rest;
      SeparateSlice(rows, 1, |rows|);
      if head.Covers(t) {
        forall j | 0 <= j < |rest| ensures !rest[j].Covers(t) {
          assert rest[j] == rows[j + 1];
        }
        SaysOfHead(head, rest, t);
        said := Some(head.geometry);
      } else {
        said := SeparateSays(rest, t);
        SaysAfterHead(head, rest, t, said);
      }
    }
  }

  lemma IslandIsOne(rows: seq<Interval>)
    requires rows != [] && Separate(rows)
    ensures var n := IslandLength(rows);
      Separate(rows[..n]) && OneIsland(rows[..n]) && Separate(rows[n..])
  {
    var n := IslandLength(rows);
    SeparateSlice(rows, 0, n);
    SeparateSlice(rows, n, |rows|);
    assert rows[0..n] == rows[..n] && rows[n..|rows|] == rows[n..];
  }

  lemma IslandSays(rows: seq<Interval>, t: nat)
    requires rows != [] && Separate(rows)
    ensures var group := rows[..IslandLength(rows)];
      SaysAt(group, t, if Island(rows).Covers(t) then Some(rows[0].geometry) else None)
    ensures Separate(rows[IslandLength(rows)..])
  {
    hide Separate, SaysAt, OneIsland, Least, Latest;
    IslandIsOne(rows);
    IslandSpan(rows[..IslandLength(rows)], t);
  }

  /** Compaction says at every instant what its rows said. */
  lemma {:induction false} CompactSays(rows: seq<Interval>, t: nat, said: Option<Geometry>)
    requires Separate(rows) && SaysAt(rows, t, said)
    ensures SaysAt(Compact(rows), t, said)
    decreases |rows|
  {
    hide Separate, SaysAt, Least, Latest;
    if rows != [] {
      var n := IslandLength(rows);
      var group, rest, island := rows[..n], rows[n..], Island(rows);
      assert rows == group + rest && Compact(rows) == [island] + Compact(rest);
      IslandSays(rows, t);
      var after := SeparateSays(rest, t);
      SaysSplit(group, rest, t, if island.Covers(t) then Some(rows[0].geometry) else None, after, said);
      CompactSays(rest, t, after);
      if island.Covers(t) {
        SaysNothing(Compact(rest), t);
        SaysOfHead(island, Compact(rest), t);
      } else {
        SaysAfterHead(island, Compact(rest), t, after);
      }
    }
  }

  /** Compaction is maximal: an interval that begins where the one before it ends has different geometry. */
  lemma {:induction false} CompactIsMaximal(rows: seq<Interval>)
    requires Separate(rows)
    ensures var out := Compact(rows);
      && (out == [] <==> rows == [])
      && (rows != [] ==> out[0].from == rows[0].from && out[0].geometry == rows[0].geometry)
      && (forall i :: 1 <= i < |out| && out[i - 1].until == Some(out[i].from) ==> out[i - 1].geometry != out[i].geometry)
    decreases |rows|
  {
    hide Separate, SaysAt, OneIsland, Least, Latest;
    if rows != [] {
      var n := IslandLength(rows);
      IslandIsOne(rows);
      IslandEnds(rows[..n]);
      CompactIsMaximal(rows[n..]);
      assert Compact(rows) == [Island(rows)] + Compact(rows[n..]);
    }
  }

  /**
   * Main result: the public table covers an instant exactly when the level was selected at the checkpoint in
   * force then, once, with that checkpoint's geometry.
   */
  lemma PublicTableAgrees(checkpoints: seq<nat>, closing: map<nat, Geometry>, t: nat)
    requires Increasing(checkpoints)
    ensures SaysAt(Compact(Joined(checkpoints, closing)), t, SelectedAt(checkpoints, closing, t))
  {
    JoinedIsSeparate(checkpoints, closing);
    JoinedSays(checkpoints, closing, t);
    CompactSays(Joined(checkpoints, closing), t, SelectedAt(checkpoints, closing, t));
  }
}
