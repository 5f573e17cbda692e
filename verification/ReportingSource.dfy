/** What a source trade's flags are, and how source trades are matched to canonical ones: by rank, for they carry no ordinal. */
module ReportingSource {
  import opened Common
  import opened ReportingFlags

  // ---------- A source trade and its byte ----------

  const LAG := 10_000_000_000
  const LAST_CLOCK := 0x7FFF_FFFF_FFFF_FFFF

  /** One trade of the source file: its SIP time in microseconds and sequence, its trade flags, whether a condition reports
      it late, its two clocks in nanoseconds, whether they fall on different New York dates, and everything else. */
  datatype RawTrade = RawTrade(ticker: nat, at: int, sequence: nat, tradeFlags: bv8, explicit: bool,
                               participant: int, sip: int, priorDate: bool, evidence: nat)

  predicate ClocksKnown(t: RawTrade) {
    0 < t.participant <= t.sip <= LAST_CLOCK
  }

  function Bit(p: bool, weight: bv8): bv8 {
    if p then weight else 0
  }

  /** Explicit condition, earlier date, long lag, or clocks unknown. */
  function Reason(t: RawTrade): bv8 {
    Bit(t.explicit, 1)
    + if ClocksKnown(t) then Bit(t.priorDate, 2) + Bit(t.sip - t.participant > LAG, 4) else 8
  }

  function FlagsFrom(reason: bv8): bv8 {
    if reason & 7 != 0 then DELAYED else if reason & 8 != 0 then UNKNOWN else REGULAR
  }

  /** The low bits of a trade's byte: the trade bit and three of its own flags. */
  function LowFrom(tradeFlags: bv8): bv8 {
    1 + ((tradeFlags & 1) << 1) + (((tradeFlags >> 1) & 3) << 3)
  }

  function MetaOf(t: RawTrade): bv8 {
    LowFrom(t.tradeFlags) | FlagsFrom(Reason(t))
  }

  /** A trade is delayed when a condition says so or its known clocks do, unknown when nothing says so and a clock is
      missing, and regular otherwise; its byte keeps the low bits, and never carries the fourth flag pattern. */
  lemma MetaIsKnown(t: RawTrade)
    ensures var late := t.explicit || (ClocksKnown(t) && (t.priorDate || t.sip - t.participant > LAG));
      Flags(MetaOf(t)) == if late then DELAYED else if ClocksKnown(t) then REGULAR else UNKNOWN
    ensures Low(MetaOf(t)) == LowFrom(t.tradeFlags) && MetaOf(t) & TRADE == TRADE
    ensures Flags(MetaOf(t)) != 128
  {
    LowIsLow(t.tradeFlags);
    var low, flags := LowFrom(t.tradeFlags), FlagsFrom(Reason(t));
    assert flags == DELAYED || flags == UNKNOWN || flags == REGULAR;
    JoinedByte(low, flags);
  }

  /** In the bits of the byte: the trade bit, three of the trade's own flags, two clear bits, and a class. A clock is known when
      it is positive and fits in 63 bits and the SIP's is not before the participant's; the lag is over ten seconds. */
  lemma MetaBits(t: RawTrade)
    ensures var m, f := MetaOf(t), t.tradeFlags;
      && m % 2 == 1 && m / 2 % 2 == f % 2 && m / 4 % 2 == 0
      && m / 8 % 2 == f / 2 % 2 && m / 16 % 2 == f / 4 % 2 && m / 32 % 2 == 0
    ensures var known := t.participant > 0 && t.sip >= t.participant && t.sip < 0x8000_0000_0000_0000;
      var late := t.explicit || (known && (t.priorDate || t.sip > t.participant + 10 * 1_000_000_000));
      MetaOf(t) / 64 == if late then 3 else if known then 1 else 0
  {
    MetaIsKnown(t);
    ByteParts(MetaOf(t));
    LowBits(t.tradeFlags);
    LowPart(MetaOf(t), LowFrom(t.tradeFlags));
  }

  lemma LowBits(f: bv8)
    ensures var m := LowFrom(f);
      && m % 2 == 1 && m / 2 % 2 == f % 2 && m / 4 % 2 == 0
      && m / 8 % 2 == f / 2 % 2 && m / 16 % 2 == f / 4 % 2 && m / 32 == 0
  {
  }

  lemma LowPart(meta: bv8, low: bv8)
    requires meta % 64 == low
    ensures meta % 2 == low % 2 && meta / 2 % 2 == low / 2 % 2 && meta / 4 % 2 == low / 4 % 2
    ensures meta / 8 % 2 == low / 8 % 2 && meta / 16 % 2 == low / 16 % 2 && meta / 32 % 2 == low / 32 % 2
  {
  }

  lemma LowIsLow(tradeFlags: bv8)
    ensures LowFrom(tradeFlags) & FLAGS == 0 && LowFrom(tradeFlags) & TRADE == TRADE && LowFrom(tradeFlags) <= 27
  {
  }

  lemma JoinedByte(low: bv8, flags: bv8)
    requires low & FLAGS == 0 && flags & LOW == 0
    ensures Flags(low | flags) == flags && Low(low | flags) == low && (low | flags) & TRADE == low & TRADE
  {
  }

  function EventOf(t: RawTrade): Event {
    Event(MetaOf(t), t.at, t.evidence)
  }

  // ---------- Matching one ticker's trades by rank ----------

  /** A canonical trade of one ticker. */
  datatype Trade = Trade(ordinal: nat, event: Event)

  datatype Matched = Matched(ordinal: Option<nat>, expected: Option<bv8>, mismatch: bool)

  /** The same trade, apart from its flags. */
  predicate Agrees(t: Trade, s: Event) {
    Low(t.event.meta) == Low(s.meta) && t.event.at == s.at && t.event.evidence == s.evidence
  }

  /** Full outer join of one ticker's trades by rank. */
  function MatchByRank(target: seq<Trade>, source: seq<Event>): seq<Matched>
    decreases |target| + |source|
  {
    if target == [] && source == [] then []
    else if source == [] then [Matched(Some(target[0].ordinal), None, true)] + MatchByRank(target[1..], [])
    else if target == [] then [Matched(None, Some(source[0].meta), true)] + MatchByRank([], source[1..])
    else
      [Matched(Some(target[0].ordinal), Some(source[0].meta), !Agrees(target[0], source[0]))]
      + MatchByRank(target[1..], source[1..])
  }

  predicate NoMismatch(rows: seq<Matched>) {
    forall i :: 0 <= i < |rows| ==> !rows[i].mismatch
  }

  predicate SameTrades(target: seq<Trade>, source: seq<Event>) {
    |target| == |source| && forall r :: 0 <= r < |target| ==> Agrees(target[r], source[r])
  }

  /** No mismatch means the two orderings describe the same trades one for one, and then each canonical row is paired
      with the byte of its own source row. */
  lemma {:induction false} NoMismatchMeansSameTrades(target: seq<Trade>, source: seq<Event>)
    ensures NoMismatch(MatchByRank(target, source)) <==> SameTrades(target, source)
    ensures SameTrades(target, source) ==> var rows := MatchByRank(target, source);
      |rows| == |target|
      && forall i :: 0 <= i < |rows| ==> rows[i] == Matched(Some(target[i].ordinal), Some(source[i].meta), false)
    decreases |target| + |source|
  {
    var rows := MatchByRank(target, source);
    if target != [] && source != [] {
      NoMismatchMeansSameTrades(target[1..], source[1..]);
      var rest := MatchByRank(target[1..], source[1..]);
      assert rows == [rows[0]] + rest;
      SameTradesCons(target, source);
      assert NoMismatch(rows) <==> !rows[0].mismatch && NoMismatch(rest) by {
        assert forall i :: 0 <= i < |rest| ==> rows[i + 1] == rest[i];
      }
    } else if target != [] || source != [] {
      assert rows[0].mismatch;
    }
  }

  lemma SameTradesCons(target: seq<Trade>, source: seq<Event>)
    requires target != [] && source != []
    ensures SameTrades(target, source) <==> Agrees(target[0], source[0]) && SameTrades(target[1..], source[1..])
  {
    hide Agrees;
    if Agrees(target[0], source[0]) && SameTrades(target[1..], source[1..]) {
      forall r | 0 <= r < |target| ensures Agrees(target[r], source[r]) {
        if r > 0 {
          assert Agrees(target[1..][r - 1], source[1..][r - 1]);
        }
      }
    }
    if SameTrades(target, source) {
      forall r | 0 <= r < |target[1..]| ensures Agrees(target[1..][r], source[1..][r]) {
        assert Agrees(target[r + 1], source[r + 1]);
      }
    }
  }

  // ---------- The mapping table of a day ----------

  function Ordinals(target: map<Key, Event>, day: Day, ticker: nat): set<nat> {
    set k | k in target && k.ticker == ticker && InScope(target[k], day) :: k.ordinal
  }

  lemma OrdinalIs(target: map<Key, Event>, day: Day, ticker: nat, o: nat)
    ensures o in Ordinals(target, day, ticker) <==> Key(ticker, o) in target && InScope(target[Key(ticker, o)], day)
  {
    if Key(ticker, o) in target && InScope(target[Key(ticker, o)], day) {
      assert Key(ticker, o).ordinal == o;
    }
  }

  /** A ticker's canonical trades of the day, by ordinal. */
  function TradesOf(target: map<Key, Event>, day: Day, ticker: nat): (r: seq<Trade>)
    ensures |r| == |Ordinals(target, day, ticker)|
    ensures forall i :: 0 <= i < |r| ==>
      && Key(ticker, r[i].ordinal) in target && InScope(target[Key(ticker, r[i].ordinal)], day)
      && r[i].event == target[Key(ticker, r[i].ordinal)]
    ensures forall i, j :: 0 <= i < j < |r| ==> r[i].ordinal < r[j].ordinal
  {
    var o := Sorted(Ordinals(target, day, ticker));
    forall i | 0 <= i < |o| ensures o[i] >= 0 && Key(ticker, o[i]) in target && InScope(target[Key(ticker, o[i])], day) {
      assert o[i] in o;
      OrdinalIs(target, day, ticker, o[i]);
    }
    seq(|o|, i requires 0 <= i < |o| => Trade(o[i], target[Key(ticker, o[i])]))
  }

  /** Every canonical trade of the day has a rank among its ticker's. */
  lemma RankExists(target: map<Key, Event>, day: Day, k: Key)
    requires k in target && InScope(target[k], day)
    ensures exists i :: 0 <= i < |TradesOf(target, day, k.ticker)| && TradesOf(target, day, k.ticker)[i].ordinal == k.ordinal
  {
    OrdinalIs(target, day, k.ticker, k.ordinal);
    var o := Sorted(Ordinals(target, day, k.ticker));
    assert k.ordinal in o;
    var i :| 0 <= i < |o| && o[i] == k.ordinal;
    assert TradesOf(target, day, k.ticker)[i].ordinal == k.ordinal;
  }

  function Rank(target: map<Key, Event>, day: Day, k: Key): (i: nat)
    requires k in target && InScope(target[k], day)
    ensures i < |TradesOf(target, day, k.ticker)| && TradesOf(target, day, k.ticker)[i].ordinal == k.ordinal
  {
    RankExists(target, day, k);
    var i :| 0 <= i < |TradesOf(target, day, k.ticker)| && TradesOf(target, day, k.ticker)[i].ordinal == k.ordinal;
    i
  }

  /** A ticker's source trades, in the order the source copy keeps: by time and sequence. */
  function OfTicker(source: seq<RawTrade>, ticker: nat): seq<Event> {
    if source == [] then []
    else (if source[0].ticker == ticker then [EventOf(source[0])] else []) + OfTicker(source[1..], ticker)
  }

  /** A row of the mapping table; a missing canonical or source side leaves its column zero. */
  datatype Entry = Entry(key: Key, expected: bv8, mismatch: bool)

  function EntryOf(ticker: nat, m: Matched): Entry {
    Entry(Key(ticker, if m.ordinal.Some? then m.ordinal.value else 0), if m.expected.Some? then m.expected.value else 0, m.mismatch)
  }

  function EntriesOf(target: map<Key, Event>, source: seq<RawTrade>, day: Day, ticker: nat): seq<Entry> {
    var rows := MatchByRank(TradesOf(target, day, ticker), OfTicker(source, ticker));
    seq(|rows|, i requires 0 <= i < |rows| => EntryOf(ticker, rows[i]))
  }

  /** The rows of a range of tickers; only tickers the source copy has are matched. */
  function Entries(target: map<Key, Event>, source: seq<RawTrade>, day: Day, from: nat, until: nat): seq<Entry>
    decreases until
  {
    if until <= from then []
    else
      Entries(target, source, day, from, until - 1)
      + if OfTicker(source, until - 1) == [] then [] else EntriesOf(target, source, day, until - 1)
  }

  lemma {:induction false} EntriesConcat(target: map<Key, Event>, source: seq<RawTrade>, day: Day, from: nat, middle: nat, until: nat)
    requires from <= middle <= until
    ensures Entries(target, source, day, from, until)
         == Entries(target, source, day, from, middle) + Entries(target, source, day, middle, until)
    decreases until
  {
    hide EntriesOf, OfTicker;
    if middle < until {
      EntriesConcat(target, source, day, from, middle, until - 1);
    }
  }

  /** One more than the greatest ticker of the source copy. */
  function TickerBound(source: seq<RawTrade>): (n: nat)
    ensures forall i :: 0 <= i < |source| ==> source[i].ticker < n
    ensures source == [] <==> n == 0
  {
    if source == [] then 0
    else
      var rest := TickerBound(source[1..]);
      assert forall i :: 0 < i < |source| ==> source[i] == source[1..][i - 1];
      if source[0].ticker < rest then rest else source[0].ticker + 1
  }

  function Table(target: map<Key, Event>, source: seq<RawTrade>, day: Day): seq<Entry> {
    Entries(target, source, day, 0, TickerBound(source))
  }

  function ScopeOf(target: map<Key, Event>, day: Day): set<Key> {
    set k | k in target && InScope(target[k], day)
  }

  /** Both sides list the same trades, ticker by ticker and in order, apart from their flags. */
  ghost predicate SameDay(target: map<Key, Event>, source: seq<RawTrade>, day: Day) {
    forall t: nat :: SameTrades(TradesOf(target, day, t), OfTicker(source, t))
  }

  predicate NoBadRow(table: seq<Entry>) {
    forall i :: 0 <= i < |table| ==> !table[i].mismatch
  }

  /** The check before a day counts as staged: as many rows as source trades, as many canonical trades, no mismatch. */
  predicate Accepted(target: map<Key, Event>, source: seq<RawTrade>, day: Day, table: seq<Entry>) {
    |table| == |source| && |ScopeOf(target, day)| == |source| && NoBadRow(table)
  }

  // ---------- The checks of the source copy ----------

  /** As many trades as certified, none outside the certified window. */
  predicate MatchesCertificate(source: seq<RawTrade>, certified: nat, day: Day) {
    && |source| == certified
    && (forall i :: 0 <= i < |source| ==> day.first <= source[i].at <= day.last)
    && (source == [] ==> day.first <= 0 <= day.last)
  }

  /** An empty copy has no earliest and latest trade; their stand-in is zero. */
  lemma CertifiedIff(source: seq<RawTrade>, certified: nat, day: Day)
    ensures MatchesCertificate(source, certified, day) <==>
      && |source| == certified
      && if source == [] then day.first <= 0 && 0 <= day.last
         else forall t :: t in source ==> day.first <= t.at && t.at <= day.last
  {
    if MatchesCertificate(source, certified, day) && source != [] {
      forall t | t in source ensures day.first <= t.at && t.at <= day.last {
        var i :| 0 <= i < |source| && source[i] == t;
      }
    }
  }

  /** No two trades of a ticker share time and sequence, so that the order by them is one order. */
  predicate Unambiguous(source: seq<RawTrade>) {
    forall i, j :: 0 <= i < j < |source| ==>
      source[i].ticker != source[j].ticker || source[i].at != source[j].at || source[i].sequence != source[j].sequence
  }

  predicate NotAfter(a: RawTrade, b: RawTrade) {
    || a.ticker < b.ticker
    || (a.ticker == b.ticker && (a.at < b.at || (a.at == b.at && a.sequence <= b.sequence)))
  }

  predicate InOrder(source: seq<RawTrade>) {
    forall i, j :: 0 <= i < j < |source| ==> NotAfter(source[i], source[j])
  }

  /** The order is refused as ambiguous exactly when two trades could change places and still be in order. */
  lemma AmbiguousIff(source: seq<RawTrade>)
    requires InOrder(source)
    ensures !Unambiguous(source) <==> exists i, j :: 0 <= i < j < |source| && InOrder(Swapped(source, i, j))
  {
    hide InOrder, Swapped;
    forall i, j | 0 <= i < j < |source| ensures InOrder(Swapped(source, i, j)) <==> SamePlace(source[i], source[j]) {
      SwappedIff(source, i, j);
    }
    if i, j :| 0 <= i < j < |source| && InOrder(Swapped(source, i, j)) {
      assert SamePlace(source[i], source[j]);
    }
    if !Unambiguous(source) {
      var i, j :| 0 <= i < j < |source| && SamePlace(source[i], source[j]);
      assert InOrder(Swapped(source, i, j));
    }
  }

  function Swapped(source: seq<RawTrade>, i: nat, j: nat): seq<RawTrade>
    requires i < |source| && j < |source|
  {
    source[i := source[j]][j := source[i]]
  }

  lemma SwappedIff(source: seq<RawTrade>, i: nat, j: nat)
    requires InOrder(source) && i < j < |source|
    ensures InOrder(Swapped(source, i, j)) <==> SamePlace(source[i], source[j])
  {
    var swapped := Swapped(source, i, j);
    if InOrder(swapped) {
      assert NotAfter(source[i], source[j]) && NotAfter(swapped[i], swapped[j]);
    }
    if SamePlace(source[i], source[j]) {
      forall m, n | 0 <= m < n < |source| ensures NotAfter(swapped[m], swapped[n]) {
        assert NotAfter(source[m], source[n]) && SamePlace(swapped[m], source[m]) && SamePlace(swapped[n], source[n]);
      }
    }
  }

  predicate SamePlace(a: RawTrade, b: RawTrade) {
    a.ticker == b.ticker && a.at == b.at && a.sequence == b.sequence
  }

  // ---------- What the check accepts ----------

  lemma EntriesOfIs(target: map<Key, Event>, source: seq<RawTrade>, day: Day, ticker: nat)
    ensures var T, S, es := TradesOf(target, day, ticker), OfTicker(source, ticker), EntriesOf(target, source, day, ticker);
      && (NoBadRow(es) <==> SameTrades(T, S))
      && (SameTrades(T, S) ==> |es| == |S| && forall i :: 0 <= i < |es| ==> es[i] == Entry(Key(ticker, T[i].ordinal), S[i].meta, false))
  {
    hide TradesOf, OfTicker, MatchByRank;
    var T, S, es := TradesOf(target, day, ticker), OfTicker(source, ticker), EntriesOf(target, source, day, ticker);
    var rows := MatchByRank(T, S);
    NoMismatchMeansSameTrades(T, S);
    assert NoBadRow(es) <==> NoMismatch(rows) by {
      assert forall i :: 0 <= i < |rows| ==> es[i] == EntryOf(ticker, rows[i]);
    }
  }

  lemma NoBadConcat(a: seq<Entry>, b: seq<Entry>)
    ensures NoBadRow(a + b) <==> NoBadRow(a) && NoBadRow(b)
  {
    if NoBadRow(a + b) {
      forall i | 0 <= i < |a| ensures !a[i].mismatch {
        assert (a + b)[i] == a[i];
      }
      forall i | 0 <= i < |b| ensures !b[i].mismatch {
        assert (a + b)[|a| + i] == b[i];
      }
    }
  }

  /** The table has no mismatch exactly when every ticker the source copy has lists the same trades. */
  lemma {:induction false} NoBadIff(target: map<Key, Event>, source: seq<RawTrade>, day: Day, n: nat)
    ensures NoBadRow(Entries(target, source, day, 0, n)) <==>
      forall t: nat :: t < n && OfTicker(source, t) != [] ==> SameTrades(TradesOf(target, day, t), OfTicker(source, t))
  {
    hide TradesOf, OfTicker, EntriesOf, SameTrades;
    if n > 0 {
      var t, before := n - 1, Entries(target, source, day, 0, n - 1);
      NoBadIff(target, source, day, t);
      EntriesOfIs(target, source, day, t);
      if OfTicker(source, t) == [] {
        assert Entries(target, source, day, 0, n) == before;
      } else {
        NoBadConcat(before, EntriesOf(target, source, day, t));
        assert t < n && OfTicker(source, t) != [];
      }
    }
  }

  /** How many source trades have a ticker below n. */
  function Below(source: seq<RawTrade>, n: nat): nat {
    if source == [] then 0 else (if source[0].ticker < n then 1 else 0) + Below(source[1..], n)
  }

  lemma {:induction false} BelowStep(source: seq<RawTrade>, n: nat)
    ensures Below(source, n + 1) == Below(source, n) + |OfTicker(source, n)|
    ensures Below(source, 0) == 0
  {
    if source != [] {
      BelowStep(source[1..], n);
    }
  }

  lemma {:induction false} BelowAll(source: seq<RawTrade>, n: nat)
    requires forall i :: 0 <= i < |source| ==> source[i].ticker < n
    ensures Below(source, n) == |source|
  {
    if source != [] {
      BelowAll(source[1..], n);
    }
  }

  /** The day's canonical trades of the source copy's tickers below n. */
  function MatchedScope(target: map<Key, Event>, source: seq<RawTrade>, day: Day, n: nat): set<Key> {
    set k | k in ScopeOf(target, day) && k.ticker < n && OfTicker(source, k.ticker) != []
  }

  function TickerScope(target: map<Key, Event>, day: Day, ticker: nat): set<Key> {
    set k | k in ScopeOf(target, day) && k.ticker == ticker
  }

  function OrdinalsOf(keys: set<Key>): set<nat> {
    set k | k in keys :: k.ordinal
  }

  /** Keys of one ticker are as many as their ordinals. */
  lemma {:induction false} SameSize(keys: set<Key>, ticker: nat)
    requires forall k :: k in keys ==> k.ticker == ticker
    ensures |OrdinalsOf(keys)| == |keys|
    decreases |keys|
  {
    if keys != {} {
      var k :| k in keys;
      var rest := keys - {k};
      SameSize(rest, ticker);
      forall x | x in rest ensures x.ordinal != k.ordinal {
        assert x != k && x.ticker == k.ticker;
      }
      forall o ensures o in OrdinalsOf(keys) <==> o in OrdinalsOf(rest) + {k.ordinal} {
        if x :| x in keys && x.ordinal == o {
          assert x == k || x in rest;
        }
      }
      assert OrdinalsOf(keys) == OrdinalsOf(rest) + {k.ordinal};
    }
  }

  lemma TickerScopeSize(target: map<Key, Event>, day: Day, ticker: nat)
    ensures |TickerScope(target, day, ticker)| == |TradesOf(target, day, ticker)|
  {
    var keys := TickerScope(target, day, ticker);
    SameSize(keys, ticker);
    forall o: nat ensures o in OrdinalsOf(keys) <==> o in Ordinals(target, day, ticker) {
      OrdinalIs(target, day, ticker, o);
      if o in Ordinals(target, day, ticker) {
        assert Key(ticker, o) in keys;
      }
    }
    assert OrdinalsOf(keys) == Ordinals(target, day, ticker);
  }

  /** While the matched tickers agree, rows, source trades and canonical trades are equally many. */
  lemma {:induction false} EquallyMany(target: map<Key, Event>, source: seq<RawTrade>, day: Day, n: nat)
    requires forall t: nat :: t < n && OfTicker(source, t) != [] ==> SameTrades(TradesOf(target, day, t), OfTicker(source, t))
    ensures |Entries(target, source, day, 0, n)| == Below(source, n) == |MatchedScope(target, source, day, n)|
  {
    hide TradesOf, OfTicker, EntriesOf, ScopeOf, Ordinals;
    if n == 0 {
      BelowStep(source, 0);
      assert MatchedScope(target, source, day, 0) == {};
    } else {
      var t := n - 1;
      EquallyMany(target, source, day, t);
      BelowStep(source, t);
      EntriesOfIs(target, source, day, t);
      TickerScopeSize(target, day, t);
      var before := MatchedScope(target, source, day, t);
      if OfTicker(source, t) == [] {
        assert MatchedScope(target, source, day, n) == before;
      } else {
        assert MatchedScope(target, source, day, n) == before + TickerScope(target, day, t);
      }
    }
  }

  lemma SubsetOfSameSize<T>(a: set<T>, b: set<T>)
    requires a <= b && |a| == |b|
    ensures a == b
  {
    assert b == a + (b - a);
    assert |b| == |a| + |b - a|;
    assert b - a == {};
  }

  lemma {:induction false} NoTickerAbove(source: seq<RawTrade>, ticker: nat)
    requires ticker >= TickerBound(source)
    ensures OfTicker(source, ticker) == []
  {
    if source != [] {
      assert source[0].ticker < TickerBound(source) && TickerBound(source[1..]) <= TickerBound(source);
      NoTickerAbove(source[1..], ticker);
    }
  }

  /** The check accepts exactly the days on which both sides list the same trades: the count of canonical trades is what
      rules out a ticker the source copy does not have, and the count of rows never decides. */
  lemma AcceptedIff(target: map<Key, Event>, source: seq<RawTrade>, day: Day)
    ensures Accepted(target, source, day, Table(target, source, day)) <==> SameDay(target, source, day)
    ensures NoBadRow(Table(target, source, day)) ==> |Table(target, source, day)| == |source|
  {
    hide TradesOf, OfTicker, Entries, SameTrades, ScopeOf, TickerBound;
    var n := TickerBound(source);
    NoBadIff(target, source, day, n);
    BelowAll(source, n);
    var scope, matched := ScopeOf(target, day), MatchedScope(target, source, day, n);
    assert matched <= scope;
    if NoBadRow(Table(target, source, day)) {
      EquallyMany(target, source, day, n);
    }
    if Accepted(target, source, day, Table(target, source, day)) {
      SubsetOfSameSize(matched, scope);
      forall t: nat ensures SameTrades(TradesOf(target, day, t), OfTicker(source, t)) {
        if t >= n {
          NoTickerAbove(source, t);
        }
        if OfTicker(source, t) == [] {
          NoTradesUnmatched(target, source, day, t, n);
        }
      }
    }
    if SameDay(target, source, day) {
      forall t: nat | t < n && OfTicker(source, t) != [] ensures SameTrades(TradesOf(target, day, t), OfTicker(source, t)) {
      }
      EquallyMany(target, source, day, n);
      forall k | k in scope ensures k in matched {
        AllMatched(target, source, day, k);
      }
      assert matched == scope;
    }
  }

  lemma NoTradesUnmatched(target: map<Key, Event>, source: seq<RawTrade>, day: Day, ticker: nat, n: nat)
    requires MatchedScope(target, source, day, n) == ScopeOf(target, day) && OfTicker(source, ticker) == []
    ensures SameTrades(TradesOf(target, day, ticker), OfTicker(source, ticker))
  {
    hide OfTicker;
    TickerScopeSize(target, day, ticker);
    forall k | k in ScopeOf(target, day) ensures k.ticker != ticker {
      assert k in MatchedScope(target, source, day, n);
    }
    assert TickerScope(target, day, ticker) == {};
  }

  lemma AllMatched(target: map<Key, Event>, source: seq<RawTrade>, day: Day, k: Key)
    requires SameDay(target, source, day) && k in ScopeOf(target, day)
    ensures OfTicker(source, k.ticker) != [] && k.ticker < TickerBound(source)
    ensures k in MatchedScope(target, source, day, TickerBound(source))
  {
    hide OfTicker, TradesOf;
    RankExists(target, day, k);
    assert SameTrades(TradesOf(target, day, k.ticker), OfTicker(source, k.ticker));
    if k.ticker >= TickerBound(source) {
      NoTickerAbove(source, k.ticker);
    }
  }

  // ---------- What an accepted table says ----------

  /** The table by key, a later row over an earlier one. */
  function MapOf(table: seq<Entry>): map<Key, MapRow> {
    if table == [] then map[]
    else
      var e := table[|table| - 1];
      MapOf(table[..|table| - 1])[e.key := MapRow(e.expected, e.mismatch)]
  }

  lemma {:induction false} MapOfConcat(a: seq<Entry>, b: seq<Entry>)
    ensures MapOf(a + b) == MapOf(a) + MapOf(b)
    decreases |b|
  {
    if b == [] {
      assert a + b == a;
    } else {
      var n := |b| - 1;
      assert (a + b)[..|a + b| - 1] == a + b[..n];
      MapOfConcat(a, b[..n]);
    }
  }

  predicate HasKey(table: seq<Entry>, k: Key) {
    exists i :: 0 <= i < |table| && table[i].key == k
  }

  lemma {:induction false} MapOfUnique(table: seq<Entry>)
    requires forall i, j :: 0 <= i < j < |table| ==> table[i].key != table[j].key
    ensures forall i :: 0 <= i < |table| ==>
      table[i].key in MapOf(table) && MapOf(table)[table[i].key] == MapRow(table[i].expected, table[i].mismatch)
    ensures forall k :: k in MapOf(table) ==> HasKey(table, k)
  {
    if table != [] {
      var n := |table| - 1;
      MapOfUnique(table[..n]);
      forall i | 0 <= i < |table|
        ensures table[i].key in MapOf(table) && MapOf(table)[table[i].key] == MapRow(table[i].expected, table[i].mismatch)
      {
        assert i < n ==> table[..n][i] == table[i];
      }
      forall k | k in MapOf(table) ensures HasKey(table, k) {
        if k in MapOf(table[..n]) {
          assert HasKey(table[..n], k);
          var i :| 0 <= i < n && table[..n][i].key == k;
          assert table[i].key == k;
        } else {
          assert table[n].key == k;
        }
      }
    }
  }

  /** The byte of the source trade of the same ticker and rank. */
  function ExpectedOf(target: map<Key, Event>, source: seq<RawTrade>, day: Day, k: Key): bv8
    requires k in target && InScope(target[k], day)
  {
    var S, r := OfTicker(source, k.ticker), Rank(target, day, k);
    if r < |S| then S[r].meta else 0
  }

  lemma TickerMap(target: map<Key, Event>, source: seq<RawTrade>, day: Day, ticker: nat, k: Key)
    requires SameTrades(TradesOf(target, day, ticker), OfTicker(source, ticker))
    ensures var m := MapOf(EntriesOf(target, source, day, ticker));
      && (k in m <==> k in TickerScope(target, day, ticker))
      && (k in m ==> m[k] == MapRow(ExpectedOf(target, source, day, k), false))
  {
    hide OfTicker, MapOf, EntriesOf;
    var T, S, es := TradesOf(target, day, ticker), OfTicker(source, ticker), EntriesOf(target, source, day, ticker);
    EntriesOfIs(target, source, day, ticker);
    MapOfUnique(es);
    if k in TickerScope(target, day, ticker) {
      var r := Rank(target, day, k);
      assert es[r].key == k;
    }
    if k in MapOf(es) {
      assert HasKey(es, k);
      var i :| 0 <= i < |es| && es[i].key == k;
      assert T[i].ordinal == k.ordinal;
    }
  }

  lemma {:induction false} TableMap(target: map<Key, Event>, source: seq<RawTrade>, day: Day, n: nat, k: Key)
    requires SameDay(target, source, day)
    ensures var m := MapOf(Entries(target, source, day, 0, n));
      && (k in m <==> k in MatchedScope(target, source, day, n))
      && (k in m ==> m[k] == MapRow(ExpectedOf(target, source, day, k), false))
  {
    hide OfTicker, TradesOf, EntriesOf, ExpectedOf, SameTrades, ScopeOf;
    if n > 0 {
      var t, before := n - 1, Entries(target, source, day, 0, n - 1);
      TableMap(target, source, day, t, k);
      assert SameTrades(TradesOf(target, day, t), OfTicker(source, t));
      if OfTicker(source, t) == [] {
        assert Entries(target, source, day, 0, n) == before;
      } else {
        TickerMap(target, source, day, t, k);
        MapOfConcat(before, EntriesOf(target, source, day, t));
      }
    }
  }

  /** An accepted table reconciles the day: it maps exactly the day's trades, each to the byte of the source trade of its
      rank, which agrees with it in its low bits and carries a known class. */
  lemma AcceptedReconciles(target: map<Key, Event>, source: seq<RawTrade>, day: Day)
    requires SameDay(target, source, day)
    ensures var m := MapOf(Table(target, source, day));
      && Reconciled(target, m, day) && KnownClasses(m)
      && (forall k :: k in m ==> m[k] == MapRow(ExpectedOf(target, source, day, k), false))
  {
    hide Table, ExpectedOf, OfTicker, TradesOf, SameDay;
    var m := MapOf(Table(target, source, day));
    forall k
      ensures k in m <==> k in target && InScope(target[k], day)
      ensures k in m ==> m[k] == MapRow(ExpectedOf(target, source, day, k), false)
      ensures k in m ==> Low(m[k].expected) == Low(target[k].meta) && Flags(m[k].expected) != 128
    {
      KeyMap(target, source, day, k);
    }
  }

  lemma KeyMap(target: map<Key, Event>, source: seq<RawTrade>, day: Day, k: Key)
    requires SameDay(target, source, day)
    ensures var m := MapOf(Table(target, source, day));
      && (k in m <==> k in target && InScope(target[k], day))
      && (k in m ==> m[k] == MapRow(ExpectedOf(target, source, day, k), false))
      && (k in m ==> Low(m[k].expected) == Low(target[k].meta) && Flags(m[k].expected) != 128)
  {
    hide OfTicker, TradesOf, Entries;
    TableMap(target, source, day, TickerBound(source), k);
    if k in ScopeOf(target, day) {
      AllMatched(target, source, day, k);
      var T, S, r := TradesOf(target, day, k.ticker), OfTicker(source, k.ticker), Rank(target, day, k);
      assert SameTrades(T, S);
      assert Agrees(T[r], S[r]);
      EventsAreKnown(source, k.ticker, r);
    }
  }

  lemma {:induction false} EventsAreKnown(source: seq<RawTrade>, ticker: nat, r: nat)
    requires r < |OfTicker(source, ticker)|
    ensures Flags(OfTicker(source, ticker)[r].meta) != 128
  {
    if source[0].ticker == ticker {
      MetaIsKnown(source[0]);
      if r > 0 {
        EventsAreKnown(source[1..], ticker, r - 1);
      }
    } else {
      EventsAreKnown(source[1..], ticker, r);
    }
  }

  // ---------- The monthly count check ----------

  /** A staged day whose mapping came out of an accepted reconciliation. */
  ghost predicate FromSource(target: map<Key, Event>, source: seq<RawTrade>, d: StagedDay) {
    SameDay(target, source, d.day) && d.mapping == MapOf(Table(target, source, d.day))
  }

  /** The count check before a monthly mutation never refuses: no source trade has the pattern it would trip over. */
  lemma MonthlyCountHolds(target: map<Key, Event>, sources: seq<seq<RawTrade>>, days: seq<StagedDay>)
    requires |sources| == |days| && forall i :: 0 <= i < |days| ==> FromSource(target, sources[i], days[i])
    requires forall i, j :: 0 <= i < j < |days| ==> days[i].day.last < days[j].day.first
    requires forall i :: 0 <= i < |days| ==> days[i].day.first <= days[i].day.last
    ensures StagedMonth(target, days) && |MonthMap(days)| == Counted(days)
  {
    hide SameDay, MapOf, Table, Reconciled, KnownClasses;
    forall i | 0 <= i < |days| ensures Reconciled(target, days[i].mapping, days[i].day) && KnownClasses(days[i].mapping) {
      assert FromSource(target, sources[i], days[i]);
      AcceptedReconciles(target, sources[i], days[i].day);
    }
    assert AllKnown(days);
    CountCheckIff(target, days);
  }
}
