/** Reporting-flag mutations over canonical trades: what one row gets, one day, and one month at once. */
module ReportingFlags {
  datatype Key = Key(ticker: nat, ordinal: nat)

  /** A canonical event: its meta byte, its SIP time and everything else it carries. */
  datatype Event = Event(meta: bv8, at: int, evidence: nat)

  datatype MapRow = MapRow(expected: bv8, mismatch: bool)

  datatype Day = Day(first: int, last: int)

  const TRADE: bv8 := 1
  const LOW: bv8 := 63
  const FLAGS: bv8 := 192
  const DELAYED: bv8 := 192
  const UNKNOWN: bv8 := 0
  const REGULAR: bv8 := 64

  // ---------- One row ----------

  function Flags(meta: bv8): bv8 {
    meta & FLAGS
  }

  function Low(meta: bv8): bv8 {
    meta & LOW
  }

  /** The flags a mapping asks for: delayed, unknown, or regular for everything else. */
  function Wanted(mapping: map<Key, MapRow>, k: Key): bv8 {
    if k in mapping && Flags(mapping[k].expected) == DELAYED then DELAYED
    else if k in mapping && Flags(mapping[k].expected) == UNKNOWN then UNKNOWN
    else REGULAR
  }

  function Updated(meta: bv8, flags: bv8): bv8 {
    Low(meta) | flags
  }

  lemma UpdatedBits(meta: bv8, flags: bv8)
    requires flags == DELAYED || flags == UNKNOWN || flags == REGULAR
    ensures Low(Updated(meta, flags)) == Low(meta) && Flags(Updated(meta, flags)) == flags
    ensures Updated(meta, flags) & TRADE == meta & TRADE
    ensures Updated(Updated(meta, flags), flags) == Updated(meta, flags)
  {
  }

  lemma WholeByte(meta: bv8)
    ensures Low(meta) | Flags(meta) == meta
  {
  }

  /** Rewriting a byte whose low bits already agree gives the expected byte exactly when its flags are a known class. */
  lemma UpdatedIsExpected(meta: bv8, expected: bv8)
    requires Low(meta) == Low(expected)
    ensures var flags := if Flags(expected) == DELAYED then DELAYED else if Flags(expected) == UNKNOWN then UNKNOWN else REGULAR;
      Updated(meta, flags) == expected <==> Flags(expected) != 128
  {
    WholeByte(expected);
  }

  // ---------- One day ----------

  /** A trade inside the day's SIP window. */
  predicate InScope(e: Event, day: Day) {
    day.first <= e.at <= day.last && e.meta & TRADE == 1
  }

  function Rewritten(e: Event, mapping: map<Key, MapRow>, k: Key): Event {
    e.(meta := Updated(e.meta, Wanted(mapping, k)))
  }

  /** The day's mutation. */
  function Mutate(target: map<Key, Event>, mapping: map<Key, MapRow>, day: Day): (after: map<Key, Event>)
    ensures after.Keys == target.Keys
  {
    map k | k in target :: if InScope(target[k], day) then Rewritten(target[k], mapping, k) else target[k]
  }

  /** Only flag bits of trades in the window change; a second mutation changes nothing. */
  lemma MutationPreserves(target: map<Key, Event>, mapping: map<Key, MapRow>, day: Day)
    ensures var after := Mutate(target, mapping, day);
      && after.Keys == target.Keys
      && (forall k :: k in target ==>
            && Low(after[k].meta) == Low(target[k].meta)
            && after[k].at == target[k].at && after[k].evidence == target[k].evidence
            && (!InScope(target[k], day) ==> after[k] == target[k])
            && (InScope(after[k], day) <==> InScope(target[k], day)))
      && Mutate(after, mapping, day) == after
  {
    forall k | k in target
      ensures var e := Rewritten(target[k], mapping, k);
        && Low(e.meta) == Low(target[k].meta) && e.meta & TRADE == target[k].meta & TRADE
        && Rewritten(e, mapping, k) == e
    {
      UpdatedBits(target[k].meta, Wanted(mapping, k));
    }
  }

  /** In the bits of the byte: the mutation reaches exactly the odd bytes inside the window, keeps the six low bits, and gives
      the two high ones the class mapped to the trade when that is delayed, unknown or regular, and otherwise the regular one. */
  lemma MutationWrites(target: map<Key, Event>, mapping: map<Key, MapRow>, day: Day, k: Key)
    requires k in target
    ensures var before, after := target[k], Mutate(target, mapping, day)[k];
      if before.meta % 2 == 1 && day.first <= before.at && before.at <= day.last then
        && after.at == before.at && after.evidence == before.evidence && after.meta % 64 == before.meta % 64
        && after.meta / 64 == if k in mapping && mapping[k].expected / 64 != 2 then mapping[k].expected / 64 else 1
      else after == before
  {
    ByteParts(target[k].meta);
    if k in mapping {
      ByteParts(mapping[k].expected);
    }
    WantedIsClass(mapping, k);
    JoinedParts(target[k].meta, Wanted(mapping, k));
  }

  lemma ByteParts(meta: bv8)
    ensures (meta & TRADE == 1 <==> meta % 2 == 1) && Flags(meta) / 64 == meta / 64 && Low(meta) == meta % 64
    ensures Flags(meta) == DELAYED || Flags(meta) == UNKNOWN || Flags(meta) == REGULAR || Flags(meta) == 128
  {
  }

  lemma JoinedParts(meta: bv8, flags: bv8)
    requires flags == DELAYED || flags == UNKNOWN || flags == REGULAR
    ensures Updated(meta, flags) % 64 == meta % 64 && Updated(meta, flags) / 64 == flags / 64
  {
  }

  /** The mapping covers exactly the day's trades, and each agrees with its source row in its low bits. */
  ghost predicate Reconciled(target: map<Key, Event>, mapping: map<Key, MapRow>, day: Day) {
    && (forall k :: k in mapping <==> k in target && InScope(target[k], day))
    && (forall k :: k in mapping ==> !mapping[k].mismatch && Low(mapping[k].expected) == Low(target[k].meta))
  }

  /** The check after a mutation: the day's trades are exactly the mapped ones, each with its expected byte. */
  ghost predicate Verified(target: map<Key, Event>, mapping: map<Key, MapRow>, day: Day) {
    && (forall k :: k in mapping <==> k in target && InScope(target[k], day))
    && (forall k :: k in mapping ==> target[k].meta == mapping[k].expected)
  }

  /** No source row carries the unassigned flag pattern. */
  ghost predicate KnownClasses(mapping: map<Key, MapRow>) {
    forall k :: k in mapping ==> Flags(mapping[k].expected) != 128
  }

  /** A fully reconciled day passes its check after the mutation exactly when every expected flag is a known class. */
  lemma MutationVerifiesIff(target: map<Key, Event>, mapping: map<Key, MapRow>, day: Day)
    requires Reconciled(target, mapping, day)
    ensures Verified(Mutate(target, mapping, day), mapping, day) <==> KnownClasses(mapping)
  {
    MutationPreserves(target, mapping, day);
    var after := Mutate(target, mapping, day);
    forall k | k in mapping ensures after[k].meta == mapping[k].expected <==> Flags(mapping[k].expected) != 128 {
      UpdatedIsExpected(target[k].meta, mapping[k].expected);
    }
  }

  // ---------- One month at once ----------

  datatype StagedDay = StagedDay(day: Day, mapping: map<Key, MapRow>)

  /** Daily mutations in sequence. */
  function MutateDays(target: map<Key, Event>, days: seq<StagedDay>): (after: map<Key, Event>)
    ensures after.Keys == target.Keys
  {
    if days == [] then target
    else Mutate(MutateDays(target, days[..|days| - 1]), days[|days| - 1].mapping, days[|days| - 1].day)
  }

  /** Rows of one day that the monthly map takes: matched and not regular. */
  function Exceptions(mapping: map<Key, MapRow>): map<Key, MapRow> {
    map k | k in mapping && !mapping[k].mismatch && Flags(mapping[k].expected) != REGULAR :: mapping[k]
  }

  function MonthMap(days: seq<StagedDay>): map<Key, MapRow> {
    if days == [] then map[] else MonthMap(days[..|days| - 1]) + Exceptions(days[|days| - 1].mapping)
  }

  /** The month takes over a row of a day when it is matched and its class is not the regular one. */
  predicate IsException(days: seq<StagedDay>, k: Key, i: nat) {
    i < |days| && k in days[i].mapping && !days[i].mapping[k].mismatch && days[i].mapping[k].expected / 64 != 1
  }

  lemma MonthStep(days: seq<StagedDay>, k: Key)
    requires days != []
    ensures var n, before := |days| - 1, MonthMap(days[..|days| - 1]);
      && (k in MonthMap(days) <==> k in before || IsException(days, k, n))
      && (IsException(days, k, n) ==> MonthMap(days)[k] == days[n].mapping[k])
      && (!IsException(days, k, n) && k in before ==> MonthMap(days)[k] == before[k])
  {
    var m := days[|days| - 1].mapping;
    if k in m {
      ByteParts(m[k].expected);
    }
    assert k in Exceptions(m) <==> IsException(days, k, |days| - 1);
  }

  lemma ExceptionBefore(days: seq<StagedDay>, k: Key, i: nat)
    requires days != []
    ensures var n := |days| - 1;
      && (IsException(days[..n], k, i) <==> i < n && IsException(days, k, i))
      && (IsException(days, k, i) ==> i <= n && k in days[i].mapping)
      && (i < n ==> days[..n][i] == days[i])
  {
  }

  ghost predicate LastException(days: seq<StagedDay>, k: Key, i: nat) {
    IsException(days, k, i) && forall j: nat :: j > i ==> !IsException(days, k, j)
  }

  lemma MonthIsLast(days: seq<StagedDay>, k: Key)
    requires days != []
    requires var head := days[..|days| - 1];
      && (k in MonthMap(head) <==> exists i: nat :: IsException(head, k, i))
      && (forall i: nat :: LastException(head, k, i) ==> k in MonthMap(head) && k in head[i].mapping && MonthMap(head)[k] == head[i].mapping[k])
    ensures k in MonthMap(days) <==> exists i: nat :: IsException(days, k, i)
    ensures forall i: nat :: LastException(days, k, i) ==>
      k in MonthMap(days) && k in days[i].mapping && MonthMap(days)[k] == days[i].mapping[k]
  {
    hide MonthMap, IsException;
    MonthStep(days, k);
    var n := |days| - 1;
    forall i: nat ensures IsException(days[..n], k, i) <==> i < n && IsException(days, k, i) {
      ExceptionBefore(days, k, i);
    }
    forall i: nat | IsException(days, k, i) ensures i <= n {
      ExceptionBefore(days, k, i);
    }
    forall i: nat | LastException(days, k, i)
      ensures k in MonthMap(days) && i < |days| && k in days[i].mapping && MonthMap(days)[k] == days[i].mapping[k]
    {
      ExceptionBefore(days, k, i);
      if i < n {
        assert LastException(days[..n], k, i);
      }
    }
  }

  /** The monthly map has exactly the keys with such a row, and of several the last day's. */
  lemma {:induction false} MonthMapHas(days: seq<StagedDay>, k: Key)
    ensures k in MonthMap(days) <==> exists i: nat :: IsException(days, k, i)
    ensures forall i: nat :: LastException(days, k, i) ==>
      k in MonthMap(days) && k in days[i].mapping && MonthMap(days)[k] == days[i].mapping[k]
    decreases |days|
  {
    if days != [] {
      var n := |days| - 1;
      MonthMapHas(days[..n], k);
      MonthIsLast(days, k);
    } else {
      assert forall i: nat :: !IsException(days, k, i);
    }
  }

  function MutateMonth(target: map<Key, Event>, days: seq<StagedDay>): map<Key, Event>
    requires days != []
  {
    Mutate(target, MonthMap(days), Day(days[0].day.first, days[|days| - 1].day.last))
  }

  /** Source days in order with disjoint SIP windows, each fully reconciled. */
  ghost predicate StagedMonth(target: map<Key, Event>, days: seq<StagedDay>) {
    && (forall i, j :: 0 <= i < j < |days| ==> days[i].day.last < days[j].day.first)
    && (forall i :: 0 <= i < |days| ==> days[i].day.first <= days[i].day.last)
    && (forall i :: 0 <= i < |days| ==> Reconciled(target, days[i].mapping, days[i].day))
  }

  predicate InDay(target: map<Key, Event>, days: seq<StagedDay>, k: Key, i: nat) {
    i < |days| && k in target && InScope(target[k], days[i].day)
  }

  lemma OneDay(target: map<Key, Event>, days: seq<StagedDay>, k: Key, i: nat, j: nat)
    requires StagedMonth(target, days) && InDay(target, days, k, i) && j < |days| && j != i
    ensures k !in days[j].mapping && !InScope(target[k], days[j].day)
  {
    assert Reconciled(target, days[j].mapping, days[j].day);
    if i < j {
      assert days[i].day.last < days[j].day.first;
    } else {
      assert days[j].day.last < days[i].day.first;
    }
  }

  lemma StagedPrefix(target: map<Key, Event>, days: seq<StagedDay>, n: nat)
    requires StagedMonth(target, days) && n <= |days|
    ensures StagedMonth(target, days[..n])
  {
    hide Reconciled;
  }

  /** The monthly map says of a day's trade exactly what the day's own mapping says, or nothing when it is regular. */
  lemma {:induction false} MonthMapIs(target: map<Key, Event>, days: seq<StagedDay>, k: Key, i: nat)
    requires StagedMonth(target, days) && InDay(target, days, k, i)
    ensures Wanted(MonthMap(days), k) == Wanted(days[i].mapping, k)
    decreases |days|
  {
    var n := |days| - 1;
    assert Reconciled(target, days[i].mapping, days[i].day);
    if i == n {
      NotBefore(target, days, k, n);
    } else {
      StagedPrefix(target, days, n);
      assert days[..n][i] == days[i];
      MonthMapIs(target, days[..n], k, i);
      OneDay(target, days, k, i, n);
    }
  }

  lemma {:induction false} NotBefore(target: map<Key, Event>, days: seq<StagedDay>, k: Key, n: nat)
    requires StagedMonth(target, days) && n < |days| && InDay(target, days, k, n)
    ensures k !in MonthMap(days[..n])
  {
    NotInMonth(target, days, k, n, n);
  }

  lemma {:induction false} NotInMonth(target: map<Key, Event>, days: seq<StagedDay>, k: Key, i: nat, n: nat)
    requires StagedMonth(target, days) && n <= i < |days| && InDay(target, days, k, i)
    ensures k !in MonthMap(days[..n])
    decreases n
  {
    if n > 0 {
      NotInMonth(target, days, k, i, n - 1);
      assert days[..n][..n - 1] == days[..n - 1] && days[..n][n - 1] == days[n - 1];
      OneDay(target, days, k, i, n - 1);
    }
  }

  /** In sequence, only the row's own day touches it. */
  lemma {:induction false} DaysTouchOnce(target: map<Key, Event>, days: seq<StagedDay>, k: Key)
    requires StagedMonth(target, days) && k in target
    ensures var after := MutateDays(target, days);
      && after.Keys == target.Keys
      && (forall i: nat :: InDay(target, days, k, i) ==> after[k] == Rewritten(target[k], days[i].mapping, k))
      && ((forall i: nat :: i < |days| ==> !InDay(target, days, k, i)) ==> after[k] == target[k])
      && after[k].at == target[k].at && after[k].meta & TRADE == target[k].meta & TRADE
    decreases |days|
  {
    if days != [] {
      var n := |days| - 1;
      var head := days[..n];
      StagedPrefix(target, days, n);
      DaysTouchOnce(target, head, k);
      LastDayTouches(target, days, k);
    }
  }

  lemma LastDayTouches(target: map<Key, Event>, days: seq<StagedDay>, k: Key)
    requires days != [] && StagedMonth(target, days) && k in target
    requires var n := |days| - 1; var before := MutateDays(target, days[..n]);
      && before.Keys == target.Keys
      && (forall i: nat :: InDay(target, days[..n], k, i) ==> before[k] == Rewritten(target[k], days[..n][i].mapping, k))
      && ((forall i: nat :: i < n ==> !InDay(target, days[..n], k, i)) ==> before[k] == target[k])
      && before[k].at == target[k].at && before[k].meta & TRADE == target[k].meta & TRADE
    ensures var after := MutateDays(target, days);
      && after.Keys == target.Keys
      && (forall i: nat :: InDay(target, days, k, i) ==> after[k] == Rewritten(target[k], days[i].mapping, k))
      && ((forall i: nat :: i < |days| ==> !InDay(target, days, k, i)) ==> after[k] == target[k])
      && after[k].at == target[k].at && after[k].meta & TRADE == target[k].meta & TRADE
  {
    hide StagedMonth, Updated, Wanted, MutateDays;
    var n := |days| - 1;
    var before, last := MutateDays(target, days[..n]), days[n];
    MutateLast(target, days);
    WantedIsClass(last.mapping, k);
    UpdatedBits(before[k].meta, Wanted(last.mapping, k));
    forall i: nat | i < n ensures InDay(target, days, k, i) <==> InDay(target, days[..n], k, i) {
      assert days[..n][i] == days[i];
    }
    if InDay(target, days, k, n) {
      forall i: nat | i < n ensures !InDay(target, days[..n], k, i) {
        if InDay(target, days, k, i) {
          OneDay(target, days, k, i, n);
        }
      }
      forall i: nat | InDay(target, days, k, i) ensures i == n {
        if i < n {
          OneDay(target, days, k, i, n);
        }
      }
    }
  }

  lemma WantedIsClass(mapping: map<Key, MapRow>, k: Key)
    ensures Wanted(mapping, k) == DELAYED || Wanted(mapping, k) == UNKNOWN || Wanted(mapping, k) == REGULAR
  {
  }

  lemma MutateLast(target: map<Key, Event>, days: seq<StagedDay>)
    requires days != []
    ensures MutateDays(target, days)
         == Mutate(MutateDays(target, days[..|days| - 1]), days[|days| - 1].mapping, days[|days| - 1].day)
  {
  }

  /** One monthly mutation does to every trade of a staged window exactly what the daily mutations in sequence do, and
      touches nothing outside the span of the windows. */
  lemma MonthIsDays(target: map<Key, Event>, days: seq<StagedDay>, k: Key, i: nat)
    requires days != [] && StagedMonth(target, days) && k in target
    ensures InDay(target, days, k, i) ==> MutateMonth(target, days)[k] == MutateDays(target, days)[k]
    ensures !InScope(target[k], Day(days[0].day.first, days[|days| - 1].day.last)) ==>
      MutateMonth(target, days)[k] == target[k] == MutateDays(target, days)[k]
  {
    hide MonthMap, MutateDays, Wanted, Updated, Reconciled;
    DaysTouchOnce(target, days, k);
    if InDay(target, days, k, i) {
      MonthMapIs(target, days, k, i);
      DayWithinMonth(target, days, i);
    }
    forall j: nat | j < |days| ensures InDay(target, days, k, j) ==> InScope(target[k], Day(days[0].day.first, days[|days| - 1].day.last)) {
      DayWithinMonth(target, days, j);
    }
  }

  lemma DayWithinMonth(target: map<Key, Event>, days: seq<StagedDay>, i: nat)
    requires StagedMonth(target, days) && i < |days|
    ensures days[0].day.first <= days[i].day.first && days[i].day.last <= days[|days| - 1].day.last
  {
    hide Reconciled;
    if i > 0 {
      assert days[0].day.last < days[i].day.first;
    }
    if i < |days| - 1 {
      assert days[i].day.last < days[|days| - 1].day.first;
    }
  }

  /** A regular trade between two windows is the difference: the month rewrites it, the days do not. */
  lemma BetweenWindows(target: map<Key, Event>, days: seq<StagedDay>, k: Key)
    requires days != [] && StagedMonth(target, days) && k in target
    requires InScope(target[k], Day(days[0].day.first, days[|days| - 1].day.last))
    requires forall i: nat :: i < |days| ==> !InDay(target, days, k, i)
    ensures MutateDays(target, days)[k] == target[k]
    ensures MutateMonth(target, days)[k] == target[k].(meta := Updated(target[k].meta, REGULAR))
  {
    hide MutateDays, Updated;
    DaysTouchOnce(target, days, k);
    NoDayMaps(target, days, k, |days|);
    assert days[..|days|] == days;
  }

  predicate InSomeDay(target: map<Key, Event>, days: seq<StagedDay>, k: Key) {
    exists i: nat :: i < |days| && InDay(target, days, k, i)
  }

  /** The month does to a row what the days do exactly when the row lies in a staged window, or outside their span, or is
      already regular. */
  lemma MonthAgreesIff(target: map<Key, Event>, days: seq<StagedDay>, k: Key)
    requires days != [] && StagedMonth(target, days) && k in target
    ensures MutateMonth(target, days)[k] == MutateDays(target, days)[k] <==>
      || InSomeDay(target, days, k)
      || !InScope(target[k], Day(days[0].day.first, days[|days| - 1].day.last))
      || Flags(target[k].meta) == REGULAR
  {
    hide MutateDays, MonthMap, StagedMonth;
    if InSomeDay(target, days, k) {
      var i: nat :| i < |days| && InDay(target, days, k, i);
      MonthIsDays(target, days, k, i);
    } else if !InScope(target[k], Day(days[0].day.first, days[|days| - 1].day.last)) {
      MonthIsDays(target, days, k, 0);
    } else {
      BetweenWindows(target, days, k);
      WholeByte(target[k].meta);
      UpdatedBits(target[k].meta, REGULAR);
    }
  }

  /** A staged month it fails for: two days without trades, and between their windows one trade of unknown class. */
  lemma MonthDiffers()
    ensures var k := Key(0, 0);
      var target := map[k := Event(TRADE, 5, 0)];
      var days := [StagedDay(Day(0, 1), map[]), StagedDay(Day(8, 9), map[])];
      && StagedMonth(target, days)
      && MutateDays(target, days)[k].meta == TRADE && MutateMonth(target, days)[k].meta == TRADE | REGULAR
  {
    var k := Key(0, 0);
    var target := map[k := Event(TRADE, 5, 0)];
    var days := [StagedDay(Day(0, 1), map[]), StagedDay(Day(8, 9), map[])];
    assert forall i: nat :: i < 2 ==> !InDay(target, days, k, i);
    BetweenWindows(target, days, k);
  }

  lemma {:induction false} NoDayMaps(target: map<Key, Event>, days: seq<StagedDay>, k: Key, n: nat)
    requires StagedMonth(target, days) && n <= |days| && k in target
    requires forall i: nat :: i < |days| ==> !InDay(target, days, k, i)
    ensures k !in MonthMap(days[..n])
    decreases n
  {
    if n > 0 {
      NoDayMaps(target, days, k, n - 1);
      assert days[..n][..n - 1] == days[..n - 1] && days[..n][n - 1] == days[n - 1];
      assert Reconciled(target, days[n - 1].mapping, days[n - 1].day) && !InDay(target, days, k, n - 1);
    }
  }

  // ---------- The count check before a monthly mutation ----------

  /** Keys of a mapping in one flag class. */
  function Class(mapping: map<Key, MapRow>, flags: bv8): set<Key> {
    set k | k in mapping && Flags(mapping[k].expected) == flags
  }

  function Counted(days: seq<StagedDay>): nat {
    if days == [] then 0
    else
      var m := days[|days| - 1].mapping;
      Counted(days[..|days| - 1]) + |Class(m, DELAYED)| + |Class(m, UNKNOWN)|
  }

  lemma FourClasses(meta: bv8)
    ensures Flags(meta) == DELAYED || Flags(meta) == UNKNOWN || Flags(meta) == REGULAR || Flags(meta) == 128
  {
  }

  lemma ExceptionCount(mapping: map<Key, MapRow>)
    requires forall k :: k in mapping ==> !mapping[k].mismatch
    ensures |Exceptions(mapping)| == |Class(mapping, DELAYED)| + |Class(mapping, UNKNOWN)| + |Class(mapping, 128)|
    ensures |Class(mapping, 128)| == 0 <==> KnownClasses(mapping)
  {
    var delayed, unknown, odd := Class(mapping, DELAYED), Class(mapping, UNKNOWN), Class(mapping, 128);
    forall k | k in mapping ensures k in Exceptions(mapping) <==> k in delayed + unknown + odd {
      FourClasses(mapping[k].expected);
    }
    assert Exceptions(mapping).Keys == delayed + unknown + odd;
    assert |delayed + unknown + odd| == |delayed| + |unknown| + |odd| by {
      assert delayed !! unknown && (delayed + unknown) !! odd;
    }
    if !KnownClasses(mapping) {
      var k :| k in mapping && Flags(mapping[k].expected) == 128;
      assert k in odd;
    }
    if |odd| != 0 {
      var k :| k in odd;
    }
  }

  lemma JoinCount<K, V>(a: map<K, V>, b: map<K, V>)
    requires a.Keys !! b.Keys
    ensures |a + b| == |a| + |b|
  {
    assert (a + b).Keys == a.Keys + b.Keys;
  }

  /** The monthly map has as many rows as the staged days counted delayed and unknown exactly when no source row carries
      the unassigned pattern; otherwise the mutation is refused. */
  lemma {:induction false} CountCheckIff(target: map<Key, Event>, days: seq<StagedDay>)
    requires StagedMonth(target, days)
    ensures |MonthMap(days)| >= Counted(days)
    ensures |MonthMap(days)| == Counted(days) <==> AllKnown(days)
    decreases |days|
  {
    if days != [] {
      var n := |days| - 1;
      StagedPrefix(target, days, n);
      CountCheckIff(target, days[..n]);
      assert Reconciled(target, days[n].mapping, days[n].day);
      ExceptionCount(days[n].mapping);
      forall k | k in Exceptions(days[n].mapping) ensures k !in MonthMap(days[..n]) {
        assert InDay(target, days, k, n);
        NotInMonth(target, days, k, n, n);
      }
      JoinCount(MonthMap(days[..n]), Exceptions(days[n].mapping));
      hide KnownClasses, Class, Exceptions, MonthMap, AllKnown;
      KnownSplits(days);
    }
  }

  ghost predicate AllKnown(days: seq<StagedDay>) {
    forall i :: 0 <= i < |days| ==> KnownClasses(days[i].mapping)
  }

  lemma KnownSplits(days: seq<StagedDay>)
    requires days != []
    ensures AllKnown(days) <==> AllKnown(days[..|days| - 1]) && KnownClasses(days[|days| - 1].mapping)
  {
    hide KnownClasses;
    var head := days[..|days| - 1];
    assert forall i :: 0 <= i < |head| ==> head[i] == days[i];
    if AllKnown(head) && KnownClasses(days[|days| - 1].mapping) {
      forall i | 0 <= i < |days| ensures KnownClasses(days[i].mapping) {
        if i < |head| {
          assert KnownClasses(head[i].mapping);
        }
      }
    }
  }
}
