/**
 * The daily ranking page: rows deduplicated per club, ordered by value with
 * missing values last, ranked with shared ranks for ties; the display rows;
 * the previous-day rank map and the trend badge; and the alignment of the
 * compared series on a daily axis.
 */
module Ranking {
  import opened Wrappers
  import opened Js
  import opened Calendar
  import opened Trends
  import opened RankingUtils
  import Sorting

  // ------------------------------------------------------------ dedup

  /** One club's representative: `{ club, value, rawItem }`, later given `rank_position`. */
  datatype Entry = Entry(club: Value, value: Option<real>, rawItem: Value, rank: nat)

  /** `item?.score ?? item?.iap ?? item?.iap_score ?? item?.value ?? null`, through `toNumber`. */
  function RowValue(h: Host, item: Value): Option<real> {
    ToNumber(h, Coalesce(Coalesce(Coalesce(Coalesce(
      Get(item, "score"), Get(item, "iap")), Get(item, "iap_score")), Get(item, "value")), Null))
  }

  /**
   * The merge rule: the incumbent value `a` gives way to the candidate `b`
   * only when `a` is missing and `b` is not, or both are numbers and `b` is
   * strictly greater.
   */
  predicate Replaces(a: Option<real>, b: Option<real>) {
    (a.None? && b.Some?) || (a.Some? && b.Some? && b.value > a.value)
  }

  /** The `byClub` map: its keys in insertion order, and its entries. */
  datatype ClubMap = ClubMap(keys: seq<Value>, entries: map<Value, Entry>)

  /** One turn of the dedup loop. A club already present keeps its position in the map. */
  function DedupStep(h: Host, m: ClubMap, item: Value): ClubMap {
    var club := ClubName(h, item);
    var e := Entry(club, RowValue(h, item), item, 0);
    if !ValidName(club) then m
    else if club !in m.entries then ClubMap(m.keys + [club], m.entries[club := e])
    else if Replaces(m.entries[club].value, e.value) then ClubMap(m.keys, m.entries[club := e])
    else m
  }

  /** The map after the dedup loop has seen `items`. */
  function ByClub(h: Host, items: seq<Value>): ClubMap {
    if items == [] then ClubMap([], map[])
    else DedupStep(h, ByClub(h, items[..|items| - 1]), items[|items| - 1])
  }

  /** The keys of a map are distinct and are exactly the entries' clubs. */
  ghost predicate WellFormed(m: ClubMap) {
    && (forall i, j :: 0 <= i < j < |m.keys| ==> m.keys[i] != m.keys[j])
    && (forall c :: c in m.entries <==> c in m.keys)
    && (forall c :: c in m.entries ==> m.entries[c].club == c)
  }

  /**
   * One entry per usable name: the keys are distinct, and a name is a key
   * exactly when some row carries it (rows named '' or the marker are skipped).
   */
  lemma {:induction false} ByClubKeys(h: Host, items: seq<Value>)
    ensures WellFormed(ByClub(h, items))
    ensures forall c :: c in ByClub(h, items).keys <==> c in Names(h, items)
  {
    if items != [] {
      ByClubKeys(h, items[..|items| - 1]);
    }
  }

  /** A row with a usable name contributes that name to `Names`. */
  lemma {:induction false} NamesMember(h: Host, items: seq<Value>, k: int)
    requires 0 <= k < |items| && ValidName(ClubName(h, items[k]))
    ensures ClubName(h, items[k]) in Names(h, items)
  {
    if k < |items| - 1 {
      assert items[..|items| - 1][k] == items[k];
      NamesMember(h, items[..|items| - 1], k);
    }
  }

  /** What the representative of club `c` promises about the rows `items`. */
  ghost predicate IsBest(h: Host, items: seq<Value>, c: Value, e: Entry) {
    && e.rawItem in items
    && ClubName(h, e.rawItem) == c
    && RowValue(h, e.rawItem) == e.value
    && e.rank == 0
    && (forall it :: it in items && ClubName(h, it) == c ==> !Replaces(e.value, RowValue(h, it)))
  }

  /**
   * The representative of a club is one of its rows, with that row's value,
   * and no row of the club would replace it: a missing value is kept only
   * when every row of the club is missing, and otherwise the value is the
   * greatest of the club's values.
   */
  lemma {:induction false} ByClubBest(h: Host, items: seq<Value>)
    ensures forall c :: c in ByClub(h, items).entries ==> IsBest(h, items, c, ByClub(h, items).entries[c])
  {
    if items != [] {
      var n := |items| - 1;
      ByClubBest(h, items[..n]);
      assert items == items[..n] + [items[n]];
      forall c | c in ByClub(h, items).entries
        ensures IsBest(h, items, c, ByClub(h, items).entries[c])
      {
        BestStep(h, items[..n], items[n], c);
      }
    }
  }

  /** One turn of the loop keeps the representative of club `c` the best of its rows. */
  lemma BestStep(h: Host, init: seq<Value>, last: Value, c: Value)
    requires forall c :: c in ByClub(h, init).entries ==> IsBest(h, init, c, ByClub(h, init).entries[c])
    requires c in ByClub(h, init + [last]).entries
    ensures IsBest(h, init + [last], c, ByClub(h, init + [last]).entries[c])
  {
    var items := init + [last];
    assert items[..|items| - 1] == init;
    var m0 := ByClub(h, init);
    var e := DedupStep(h, m0, last).entries[c];
    DedupEntry(h, m0, last, c);
    if Takes(h, m0, last, c) {
      // `last` became the representative: it beats the previous one, if any
      if c in m0.entries {
        BestOfInit(h, init, c, m0.entries[c], e.value);
      } else {
        NoRowsOfClub(h, init, c);
      }
    } else {
      // the representative is unchanged, and `last` (if of club `c`) does not beat it
      assert IsBest(h, init, c, e);
      ByClubKeys(h, init);
      assert c in Names(h, init);
    }
    forall it | it in items && ClubName(h, it) == c
      ensures !Replaces(e.value, RowValue(h, it))
    {
      if it != last {
        assert it in init;
      }
    }
  }

  /** Whether the row `last` becomes the representative of club `c`. */
  predicate Takes(h: Host, m0: ClubMap, last: Value, c: Value) {
    ClubName(h, last) == c && ValidName(c)
    && (c !in m0.entries || Replaces(m0.entries[c].value, RowValue(h, last)))
  }

  /** What one turn of the loop leaves as the entry of club `c`. */
  lemma DedupEntry(h: Host, m0: ClubMap, last: Value, c: Value)
    requires c in DedupStep(h, m0, last).entries
    ensures Takes(h, m0, last, c) ==> DedupStep(h, m0, last).entries[c] == Entry(c, RowValue(h, last), last, 0)
    ensures !Takes(h, m0, last, c) ==> c in m0.entries && DedupStep(h, m0, last).entries[c] == m0.entries[c]
  {
  }

  /** A value that the club's best row gives way to (or equals) is not replaced by any row of the club. */
  lemma BestOfInit(h: Host, init: seq<Value>, c: Value, e0: Entry, v: Option<real>)
    requires IsBest(h, init, c, e0)
    requires v == e0.value || Replaces(e0.value, v)
    ensures forall it :: it in init && ClubName(h, it) == c ==> !Replaces(v, RowValue(h, it))
  {
  }

  /** A club absent from the map has no row with a usable name. */
  lemma NoRowsOfClub(h: Host, init: seq<Value>, c: Value)
    requires c !in ByClub(h, init).entries
    ensures forall it :: it in init ==> ClubName(h, it) != c || !ValidName(c)
  {
    ByClubKeys(h, init);
    forall it | it in init && ClubName(h, it) == c
      ensures !ValidName(c)
    {
      var k :| 0 <= k < |init| && init[k] == it;
      if ValidName(c) {
        NamesMember(h, init, k);
      }
    }
  }

  /** The earliest-row property of one representative. */
  ghost predicate IsFirst(h: Host, items: seq<Value>, c: Value, e: Entry) {
    exists k :: 0 <= k < |items| && items[k] == e.rawItem
      && forall j :: 0 <= j < k && ClubName(h, items[j]) == c ==> Replaces(RowValue(h, items[j]), e.value)
  }

  /** A row that becomes the representative is strictly better than every earlier row of its club. */
  lemma NewRepresentativeFirst(h: Host, init: seq<Value>, last: Value)
    requires ValidName(ClubName(h, last))
    requires var c := ClubName(h, last); var m0 := ByClub(h, init);
      c in m0.entries ==> Replaces(m0.entries[c].value, RowValue(h, last))
    ensures forall j :: 0 <= j < |init| && ClubName(h, init[j]) == ClubName(h, last) ==>
      Replaces(RowValue(h, init[j]), RowValue(h, last))
  {
    var c := ClubName(h, last);
    var m0 := ByClub(h, init);
    ByClubBest(h, init);
    ByClubKeys(h, init);
    forall j | 0 <= j < |init| && ClubName(h, init[j]) == c
      ensures Replaces(RowValue(h, init[j]), RowValue(h, last))
    {
      NamesMember(h, init, j);
      assert c in m0.entries && IsBest(h, init, c, m0.entries[c]);
      assert init[j] in init;
    }
  }

  /**
   * Among rows of equal value the earliest wins: every earlier row of the
   * club is strictly worse than the representative.
   */
  lemma {:induction false} ByClubFirst(h: Host, items: seq<Value>)
    ensures forall c :: c in ByClub(h, items).entries ==> IsFirst(h, items, c, ByClub(h, items).entries[c])
  {
    if items != [] {
      var n := |items| - 1;
      var init := items[..n];
      var last := items[n];
      ByClubFirst(h, init);
      var m0 := ByClub(h, init);
      var m := ByClub(h, items);
      var club := ClubName(h, last);
      if ValidName(club) && (club !in m0.entries || Replaces(m0.entries[club].value, RowValue(h, last))) {
        NewRepresentativeFirst(h, init, last);
        assert forall j :: 0 <= j < n ==> items[j] == init[j];
        assert IsFirst(h, items, club, m.entries[club]) by {
          assert items[n] == m.entries[club].rawItem;
        }
      }
      forall c | c in m.entries && (c != club || (c in m0.entries && m.entries[c] == m0.entries[c]))
        ensures IsFirst(h, items, c, m.entries[c])
      {
        var e := m.entries[c];
        assert c in m0.entries && e == m0.entries[c];
        assert IsFirst(h, init, c, e);
        var k :| 0 <= k < |init| && init[k] == e.rawItem
          && forall j :: 0 <= j < k && ClubName(h, init[j]) == c ==> Replaces(RowValue(h, init[j]), e.value);
        assert items[k] == init[k];
        assert forall j :: 0 <= j < k ==> items[j] == init[j];
      }
    }
  }

  /**
   * The `byClub` loop of `rankedData`: rows are read in order and merged per
   * club name into a map that keeps its insertion order.
   */
  method Dedup(h: Host, items: seq<Value>) returns (keys: seq<Value>, entries: map<Value, Entry>)
    ensures ClubMap(keys, entries) == ByClub(h, items)
    ensures WellFormed(ClubMap(keys, entries))
  {
    keys, entries := [], map[];
    var i := 0;
    while i < |items|
      invariant 0 <= i <= |items|
      invariant ClubMap(keys, entries) == ByClub(h, items[..i])
    {
      var item := items[i];
      assert items[..i + 1] == items[..i] + [item];
      var club := ClubName(h, item);
      if ValidName(club) {
        var parsed := RowValue(h, item);
        if club !in entries {
          keys := keys + [club];
          entries := entries[club := Entry(club, parsed, item, 0)];
        } else {
          var a := entries[club].value;
          if a.None? && parsed.Some? {
            entries := entries[club := Entry(club, parsed, item, 0)];
          } else if a.Some? && parsed.Some? && parsed.value > a.value {
            entries := entries[club := Entry(club, parsed, item, 0)];
          }
        }
      }
      i := i + 1;
    }
    assert items[..|items|] == items;
    ByClubKeys(h, items);
  }

  // ------------------------------------------------------------ sorting

  /** The sort comparator: numbers descending, missing values last. */
  predicate ValueBefore(a: Option<real>, b: Option<real>) {
    a.Some? && (b.None? || a.value > b.value)
  }

  predicate EntryBefore(x: Entry, y: Entry) {
    ValueBefore(x.value, y.value)
  }

  lemma EntryBeforeIsStrictWeakOrder()
    ensures Sorting.StrictWeakOrder(EntryBefore)
  {
  }

  function ValuesOf(s: seq<Entry>): (r: seq<Option<real>>)
    ensures |r| == |s| && forall i :: 0 <= i < |s| ==> r[i] == s[i].value
  {
    seq(|s|, i requires 0 <= i < |s| => s[i].value)
  }

  /** Sorted by `EntryBefore` is sorted values: every number precedes every missing value, numbers non-increasing. */
  lemma SortedValues(s: seq<Entry>)
    requires Sorting.Sorted(s, EntryBefore)
    ensures forall i, j :: 0 <= i < j < |s| && s[j].value.Some? ==>
      s[i].value.Some? && s[i].value.value >= s[j].value.value
  {
    forall i, j | 0 <= i < j < |s| && s[j].value.Some?
      ensures s[i].value.Some? && s[i].value.value >= s[j].value.value
    {
      assert !EntryBefore(s[j], s[i]);
    }
  }

  // ------------------------------------------------------------ ranks

  /** The rank loop's variables: ranks so far, `lastValue` and `lastRank`. */
  datatype RankState = RankState(ranks: seq<nat>, lastValue: Option<real>, lastRank: nat)

  /**
   * One turn of the rank loop at 1-based position `pos`: a missing value gets
   * its ordinal; a number equal to the last number seen shares that number's
   * rank; any other number gets its ordinal and becomes the last number seen.
   */
  function RankStep(st: RankState, pos: nat, v: Option<real>): (r: RankState)
    ensures |r.ranks| == |st.ranks| + 1 && r.ranks == st.ranks + [r.ranks[|st.ranks|]]
  {
    if v.None? then st.(ranks := st.ranks + [pos])
    else if st.lastValue.Some? && v == st.lastValue then st.(ranks := st.ranks + [st.lastRank])
    else RankState(st.ranks + [pos], v, pos)
  }

  /** The rank loop over `values`. */
  function RankScan(values: seq<Option<real>>): (st: RankState)
    ensures |st.ranks| == |values|
  {
    if values == [] then RankState([], None, 0)
    else RankStep(RankScan(values[..|values| - 1]), |values|, values[|values| - 1])
  }

  /** Number of values strictly greater than `v`. */
  function Above(values: seq<Option<real>>, v: real): (n: nat)
    ensures n <= |values|
  {
    if values == [] then 0
    else Above(values[..|values| - 1], v) + (if ValueBefore(values[|values| - 1], Some(v)) then 1 else 0)
  }

  /** Numbers first, non-increasing, missing values last. */
  ghost predicate RankOrder(values: seq<Option<real>>) {
    forall i, j :: 0 <= i < j < |values| && values[j].Some? ==>
      values[i].Some? && values[i].value >= values[j].value
  }

  lemma {:induction false} AboveNone(values: seq<Option<real>>, v: real)
    requires forall i :: 0 <= i < |values| ==> !ValueBefore(values[i], Some(v))
    ensures Above(values, v) == 0
  {
    if values != [] {
      AboveNone(values[..|values| - 1], v);
    }
  }

  lemma {:induction false} AboveAppend(a: seq<Option<real>>, b: seq<Option<real>>, v: real)
    ensures Above(a + b, v) == Above(a, v) + Above(b, v)
  {
    if b != [] {
      assert (a + b)[..|a + b| - 1] == a + b[..|b| - 1];
      AboveAppend(a, b[..|b| - 1], v);
    } else {
      assert a + b == a;
    }
  }

  lemma {:induction false} AboveAll(values: seq<Option<real>>, v: real)
    requires forall i :: 0 <= i < |values| ==> ValueBefore(values[i], Some(v))
    ensures Above(values, v) == |values|
  {
    if values != [] {
      AboveAll(values[..|values| - 1], v);
    }
  }

  /** The rank at position `i` is its ordinal when missing, and otherwise one plus the count of greater values before it. */
  ghost predicate RankAt(values: seq<Option<real>>, ranks: seq<nat>, i: int)
    requires 0 <= i < |values| == |ranks|
  {
    && (values[i].None? ==> ranks[i] == i + 1)
    && (values[i].Some? ==> ranks[i] == 1 + Above(values[..i], values[i].value))
  }

  /** What the rank loop's state means for values in rank order. */
  ghost predicate RankFacts(values: seq<Option<real>>, st: RankState) {
    && |st.ranks| == |values|
    && (forall i :: 0 <= i < |values| ==> RankAt(values, st.ranks, i))
    && (values != [] && values[|values| - 1].Some? ==>
          st.lastValue == values[|values| - 1]
          && st.lastRank == 1 + Above(values[..|values| - 1], values[|values| - 1].value))
  }

  /** The number of values above the one being ranked, in rank order. */
  lemma AboveLast(values: seq<Option<real>>)
    requires RankOrder(values) && values != [] && values[|values| - 1].Some?
    ensures var n := |values| - 1; var v := values[n].value;
      && (n > 0 ==> values[n - 1].Some?)
      && (n > 0 && values[n - 1] == values[n] ==> Above(values[..n], v) == Above(values[..n - 1], v))
      && (n == 0 || values[n - 1] != values[n] ==> Above(values[..n], v) == n)
  {
    var n := |values| - 1;
    var v := values[n];
    var init := values[..n];
    assert forall i :: 0 <= i < n ==> init[i].Some? && init[i].value >= v.value;
    if n > 0 && init[n - 1] == v {
      var p := init[..n - 1];
      assert values[..n - 1] == p;
      assert init == p + [init[n - 1]];
      AboveAppend(p, [init[n - 1]], v.value);
      assert Above([init[n - 1]], v.value) == Above([], v.value) + 0;
    } else if n > 0 {
      forall i | 0 <= i < n ensures ValueBefore(init[i], v) {
        assert init[i].value >= init[n - 1].value;
      }
      AboveAll(init, v.value);
    }
  }

  /** The premises of one turn of the rank loop: the facts so far, and rank order around the new value. */
  ghost predicate StepPremises(values: seq<Option<real>>)
    requires values != []
  {
    var n := |values| - 1;
    var v := values[n];
    && RankFacts(values[..n], RankScan(values[..n]))
    && (v.Some? ==>
        && (n > 0 ==> values[n - 1].Some?)
        && (n > 0 && values[n - 1] == v ==> Above(values[..n], v.value) == Above(values[..n - 1], v.value))
        && (n == 0 || values[n - 1] != v ==> Above(values[..n], v.value) == n))
  }

  /** The new value's rank, and the loop variables after it. */
  lemma RankStepLast(values: seq<Option<real>>)
    requires values != []
    requires var n := |values| - 1; var v := values[n]; var st0 := RankScan(values[..n]);
      v.Some? ==>
        && (n > 0 ==> values[n - 1].Some? && st0.lastValue == values[n - 1]
                      && st0.lastRank == 1 + Above(values[..n - 1], values[n - 1].value))
        && (n > 0 && values[n - 1] == v ==> Above(values[..n], v.value) == Above(values[..n - 1], v.value))
        && (n == 0 || values[n - 1] != v ==> Above(values[..n], v.value) == n)
    ensures var n := |values| - 1; var st := RankScan(values);
      && RankAt(values, st.ranks, n)
      && (values[n].Some? ==> st.lastValue == values[n] && st.lastRank == 1 + Above(values[..n], values[n].value))
  {
    var n := |values| - 1;
    var init := values[..n];
    var v := values[n];
    var st0 := RankScan(init);
    var st := RankStep(st0, n + 1, v);
    assert st == RankScan(values);
    if v.Some? {
      if st0.lastValue.Some? && v == st0.lastValue {
        assert n > 0;
        assert st.ranks[n] == st0.lastRank;
      } else {
        assert st.ranks[n] == n + 1;
      }
    }
  }

  /** The earlier ranks are unchanged by a turn of the loop. */
  lemma RankStepPrefix(values: seq<Option<real>>)
    requires values != [] && StepPremises(values)
    ensures forall i :: 0 <= i < |values| - 1 ==> RankAt(values, RankScan(values).ranks, i)
  {
    var n := |values| - 1;
    var init := values[..n];
    var st0 := RankScan(init);
    var st := RankScan(values);
    assert st.ranks[..n] == st0.ranks;
    forall i | 0 <= i < n
      ensures RankAt(values, st.ranks, i)
    {
      RankAtPrefix(values, st.ranks, init, st0.ranks, i);
    }
  }

  /** One turn of the rank loop keeps `RankFacts`. */
  lemma RankFactsStep(values: seq<Option<real>>)
    requires values != [] && StepPremises(values)
    ensures RankFacts(values, RankScan(values))
  {
    var n := |values| - 1;
    var st := RankScan(values);
    if values[n].Some? && n > 0 {
      var init := values[..n];
      assert init[n - 1] == values[n - 1];
      assert init[..n - 1] == values[..n - 1];
    }
    RankStepLast(values);
    RankStepPrefix(values);
    forall i | 0 <= i < |values| ensures RankAt(values, st.ranks, i) {
      if i == n {
      }
    }
  }

  /** `RankAt` looks only at the values up to the position. */
  lemma RankAtPrefix(values: seq<Option<real>>, ranks: seq<nat>, init: seq<Option<real>>, ranks0: seq<nat>, i: int)
    requires |values| == |ranks| && 0 <= i < |init| == |ranks0| <= |values|
    requires init == values[..|init|] && ranks0 == ranks[..|init|]
    requires RankAt(init, ranks0, i)
    ensures RankAt(values, ranks, i)
  {
    assert init[..i] == values[..i];
  }

  /** In rank order, the loop's ranks and variables mean what `RankFacts` says. */
  lemma {:induction false} RankScanInOrder(values: seq<Option<real>>)
    requires RankOrder(values)
    ensures RankFacts(values, RankScan(values))
  {
    if values != [] {
      assert RankOrder(values[..|values| - 1]);
      RankScanInOrder(values[..|values| - 1]);
      if values[|values| - 1].Some? {
        AboveLast(values);
      }
      assert StepPremises(values);
      RankFactsStep(values);
    }
  }

  /** In rank order nothing after a number is greater than it. */
  lemma AboveWhole(values: seq<Option<real>>, i: int)
    requires RankOrder(values) && 0 <= i < |values| && values[i].Some?
    ensures Above(values, values[i].value) == Above(values[..i], values[i].value)
  {
    var v := values[i];
    assert values == values[..i] + values[i..];
    AboveAppend(values[..i], values[i..], v.value);
    forall j | 0 <= j < |values[i..]| ensures !ValueBefore(values[i..][j], v) {
      assert values[i..][j] == values[i + j];
    }
    AboveNone(values[i..], v.value);
  }

  /**
   * Standard competition ranking ("1224") on values in rank order: a number
   * is ranked one plus the count of strictly greater numbers, so equal
   * numbers share a rank; a missing value gets its 1-based position.
   */
  lemma CompetitionRanks(values: seq<Option<real>>)
    requires RankOrder(values)
    ensures var ranks := RankScan(values).ranks;
      && (forall i :: 0 <= i < |values| && values[i].None? ==> ranks[i] == i + 1)
      && (forall i :: 0 <= i < |values| && values[i].Some? ==> ranks[i] == 1 + Above(values, values[i].value))
  {
    var ranks := RankScan(values).ranks;
    RankScanInOrder(values);
    forall i | 0 <= i < |values|
      ensures values[i].None? ==> ranks[i] == i + 1
      ensures values[i].Some? ==> ranks[i] == 1 + Above(values, values[i].value)
    {
      assert RankAt(values, ranks, i);
      if values[i].Some? {
        AboveWhole(values, i);
      }
    }
  }

  lemma {:induction false} AboveMonotone(values: seq<Option<real>>, v: real, w: real)
    requires v >= w
    ensures Above(values, v) <= Above(values, w)
  {
    if values != [] {
      AboveMonotone(values[..|values| - 1], v, w);
    }
  }

  /** In rank order the ranks start at 1, never decrease, and never exceed the position. */
  lemma RanksNonDecreasing(values: seq<Option<real>>)
    requires RankOrder(values)
    ensures var ranks := RankScan(values).ranks;
      && (values != [] ==> ranks[0] == 1)
      && (forall i :: 0 <= i < |values| ==> 1 <= ranks[i] <= i + 1)
      && (forall i, j :: 0 <= i < j < |values| ==> ranks[i] <= ranks[j])
  {
    var ranks := RankScan(values).ranks;
    RankScanInOrder(values);
    forall i | 0 <= i < |values| ensures 1 <= ranks[i] <= i + 1 {
      assert RankAt(values, ranks, i);
    }
    if values != [] {
      assert RankAt(values, ranks, 0);
    }
    CompetitionRanks(values);
    forall i, j | 0 <= i < j < |values| && values[j].Some? ensures ranks[i] <= ranks[j] {
      AboveMonotone(values, values[i].value, values[j].value);
    }
  }

  /**
   * The rank loop of `rankedData`, writing `rank_position` onto each entry
   * of the sorted array.
   */
  method AssignRanks(a: array<Entry>)
    modifies a
    ensures forall i :: 0 <= i < a.Length ==>
      a[i] == old(a[i]).(rank := RankScan(ValuesOf(old(a[..]))).ranks[i])
  {
    ghost var values := ValuesOf(a[..]);
    ghost var st := RankScan([]);
    var lastValue: Option<real> := None;
    var lastRank := 0;
    var currentPos := 0;
    var i := 0;
    while i < a.Length
      invariant 0 <= i <= a.Length
      invariant st == RankScan(values[..i])
      invariant forall k :: i <= k < a.Length ==> a[k] == old(a[k])
      invariant forall k :: 0 <= k < i ==> a[k] == old(a[k]).(rank := st.ranks[k])
      invariant lastValue == st.lastValue && lastRank == st.lastRank
    {
      assert values[..i + 1][..i] == values[..i];
      assert a[i].value == values[i];
      currentPos := i + 1;
      var val := a[i].value;
      var rank;
      if val.None? {
        rank := currentPos;
      } else if lastValue.Some? && val == lastValue {
        rank := lastRank;
      } else {
        rank := currentPos;
        lastRank := currentPos;
        lastValue := val;
      }
      st := RankStep(st, i + 1, values[i]);
      assert rank == st.ranks[i];
      a[i] := a[i].(rank := rank);
      i := i + 1;
    }
    assert values[..a.Length] == values;
  }

  // ------------------------------------------------------------ ranked rows

  /** A name other than the marker comes only from an object row. */
  lemma ValidNameOfObject(h: Host, item: Value)
    requires ValidName(ClubName(h, item))
    ensures item.Obj?
  {
  }

  /** Setting a field the name chain does not read keeps the row's name. */
  lemma ClubNameOfSet(h: Host, item: Value, k: string, x: Value)
    requires item.Obj? && k !in {"club", "club_name", "name", "club_id"}
    ensures ClubName(h, Set(item, k, x)) == ClubName(h, item)
  {
    assert Get(Set(item, k, x), "club") == Get(item, "club");
    assert Get(Set(item, k, x), "club_name") == Get(item, "club_name");
    assert Get(Set(item, k, x), "name") == Get(item, "name");
    assert Get(Set(item, k, x), "club_id") == Get(item, "club_id");
  }

  /** `null` or the number, as the output row carries `_computed_value`. */
  function ValueOrNull(v: Option<real>): Value {
    match v
    case None => Null
    case Some(x) => Num(x)
  }

  /** `{ ...rawItem, rank_position, _computed_value }` */
  function OutputItem(e: Entry): Value {
    Set(Set(e.rawItem, "rank_position", Num(e.rank as real)), "_computed_value", ValueOrNull(e.value))
  }

  /** The output row is the chosen row with exactly the two fields set. */
  lemma OutputItemFields(h: Host, e: Entry)
    requires e.rawItem.Obj?
    ensures Get(OutputItem(e), "rank_position") == Num(e.rank as real)
    ensures Get(OutputItem(e), "_computed_value") == ValueOrNull(e.value)
    ensures forall k :: k != "rank_position" && k != "_computed_value" ==> Get(OutputItem(e), k) == Get(e.rawItem, k)
    ensures ClubName(h, OutputItem(e)) == ClubName(h, e.rawItem)
  {
    ClubNameOfSet(h, e.rawItem, "rank_position", Num(e.rank as real));
    ClubNameOfSet(h, Set(e.rawItem, "rank_position", Num(e.rank as real)), "_computed_value", ValueOrNull(e.value));
  }

  /** `Array.from(byClub.values())`: the entries in insertion order. */
  function EntriesInOrder(m: ClubMap): (r: seq<Entry>)
    requires forall c :: c in m.keys ==> c in m.entries
    ensures |r| == |m.keys| && forall i :: 0 <= i < |r| ==> r[i] == m.entries[m.keys[i]]
  {
    seq(|m.keys|, i requires 0 <= i < |m.keys| => m.entries[m.keys[i]])
  }

  /** The best entry of each club, in the order the clubs first appear. */
  function InsertionOrder(h: Host, items: seq<Value>): seq<Entry> {
    ByClubKeys(h, items);
    EntriesInOrder(ByClub(h, items))
  }

  /** The entries of `rankedData` once sorted, before ranking. */
  function SortedEntries(h: Host, items: seq<Value>): seq<Entry> {
    Sorting.SortBy(InsertionOrder(h, items), EntryBefore)
  }

  /** Sorted entries with the ranks of the rank loop written onto them. */
  function WithRanks(sorted: seq<Entry>): (r: seq<Entry>)
    ensures |r| == |sorted|
    ensures forall i :: 0 <= i < |r| ==> r[i] == sorted[i].(rank := r[i].rank)
  {
    var ranks := RankScan(ValuesOf(sorted)).ranks;
    seq(|sorted|, i requires 0 <= i < |sorted| => sorted[i].(rank := ranks[i]))
  }

  /** The entries of `rankedData` once sorted and ranked. */
  function RankedEntries(h: Host, items: seq<Value>): (r: seq<Entry>)
    ensures |r| == |SortedEntries(h, items)|
    ensures forall i :: 0 <= i < |r| ==> r[i] == SortedEntries(h, items)[i].(rank := r[i].rank)
  {
    WithRanks(SortedEntries(h, items))
  }

  /** `rankedData` for the rows of the daily ranking. */
  function Ranked(h: Host, items: seq<Value>): seq<Value> {
    var es := RankedEntries(h, items);
    seq(|es|, i requires 0 <= i < |es| => OutputItem(es[i]))
  }

  /** The sorted entries are the map's entries, each once. */
  lemma SortedEntriesPermute(h: Host, items: seq<Value>)
    ensures var m := ByClub(h, items);
      && WellFormed(m)
      && multiset(SortedEntries(h, items)) == multiset(EntriesInOrder(m))
      && Sorting.Distinct(SortedEntries(h, items))
  {
    var m := ByClub(h, items);
    ByClubKeys(h, items);
    var order := EntriesInOrder(m);
    Sorting.SortByPermutes(order, EntryBefore);
    assert Sorting.Distinct(order) by {
      forall i, j | 0 <= i < j < |order| ensures order[i] != order[j] {
        assert order[i].club == m.keys[i] && order[j].club == m.keys[j];
      }
    }
    Sorting.DistinctPermutation(order, SortedEntries(h, items));
  }

  /** Each ranked entry is the entry of its club in the map. */
  lemma SortedEntryOfClub(h: Host, items: seq<Value>, i: int)
    requires 0 <= i < |SortedEntries(h, items)|
    ensures var e := SortedEntries(h, items)[i]; var m := ByClub(h, items);
      e.club in m.entries && e == m.entries[e.club] && e.club in Names(h, items)
  {
    SortedEntriesPermute(h, items);
    ByClubKeys(h, items);
    var m := ByClub(h, items);
    var order := EntriesInOrder(m);
    var e := SortedEntries(h, items)[i];
    assert e in multiset(order);
    var k :| 0 <= k < |order| && order[k] == e;
  }

  /** Two sorted entries belong to two different clubs. */
  lemma SortedClubsDistinct(h: Host, items: seq<Value>, i: int, j: int)
    requires 0 <= i < j < |SortedEntries(h, items)|
    ensures SortedEntries(h, items)[i].club != SortedEntries(h, items)[j].club
  {
    SortedEntriesPermute(h, items);
    SortedEntryOfClub(h, items, i);
    SortedEntryOfClub(h, items, j);
  }

  /** Every usable name has its sorted entry. */
  lemma SortedCovers(h: Host, items: seq<Value>, c: Value)
    requires c in Names(h, items)
    ensures exists i :: 0 <= i < |SortedEntries(h, items)| && SortedEntries(h, items)[i].club == c
  {
    var sorted := SortedEntries(h, items);
    var m := ByClub(h, items);
    SortedEntriesPermute(h, items);
    ByClubKeys(h, items);
    var order := EntriesInOrder(m);
    var k :| 0 <= k < |m.keys| && m.keys[k] == c;
    assert order[k] in multiset(sorted);
    var i :| 0 <= i < |sorted| && sorted[i] == order[k];
  }

  /** One ranked entry per usable club name. */
  lemma RankedOnePerClub(h: Host, items: seq<Value>)
    ensures var es := RankedEntries(h, items);
      && (forall i, j :: 0 <= i < j < |es| ==> es[i].club != es[j].club)
      && (forall c :: c in Names(h, items) <==> exists i :: 0 <= i < |es| && es[i].club == c)
  {
    var es := RankedEntries(h, items);
    var sorted := SortedEntries(h, items);
    forall i, j | 0 <= i < j < |es| ensures es[i].club != es[j].club {
      SortedClubsDistinct(h, items, i, j);
    }
    forall c | c in Names(h, items) ensures exists i :: 0 <= i < |es| && es[i].club == c {
      SortedCovers(h, items, c);
      var i :| 0 <= i < |sorted| && sorted[i].club == c;
      assert es[i].club == c;
    }
    forall i | 0 <= i < |es| ensures es[i].club in Names(h, items) {
      SortedEntryOfClub(h, items, i);
    }
  }

  /** Each ranked entry stands for the best row of its club, an object. */
  lemma RankedBest(h: Host, items: seq<Value>)
    ensures var es := RankedEntries(h, items);
      forall i :: 0 <= i < |es| ==> IsBest(h, items, es[i].club, es[i].(rank := 0)) && es[i].rawItem.Obj?
  {
    var es := RankedEntries(h, items);
    var m := ByClub(h, items);
    ByClubBest(h, items);
    forall i | 0 <= i < |es| ensures IsBest(h, items, es[i].club, es[i].(rank := 0)) && es[i].rawItem.Obj? {
      SortedEntryOfClub(h, items, i);
      assert es[i].(rank := 0) == m.entries[es[i].club];
      ValidNameOfObject(h, es[i].rawItem);
    }
  }

  /**
   * The ranked entries are in rank order (numbers descending, missing values
   * last) and carry competition ranks.
   */
  lemma RankedOrderAndRanks(h: Host, items: seq<Value>)
    ensures var es := RankedEntries(h, items);
      && RankOrder(ValuesOf(es))
      && (forall i :: 0 <= i < |es| && es[i].value.None? ==> es[i].rank == i + 1)
      && (forall i :: 0 <= i < |es| && es[i].value.Some? ==> es[i].rank == 1 + Above(ValuesOf(es), es[i].value.value))
  {
    ByClubKeys(h, items);
    var order := EntriesInOrder(ByClub(h, items));
    var sorted := SortedEntries(h, items);
    var es := RankedEntries(h, items);
    EntryBeforeIsStrictWeakOrder();
    Sorting.SortBySorted(order, EntryBefore);
    SortedValues(sorted);
    assert ValuesOf(es) == ValuesOf(sorted);
    CompetitionRanks(ValuesOf(sorted));
  }

  /** Among entries of equal value (or all missing), the sort keeps the map's insertion order. */
  lemma RankedStable(h: Host, items: seq<Value>, e: Entry)
    ensures Sorting.Class(SortedEntries(h, items), e, EntryBefore)
         == Sorting.Class(InsertionOrder(h, items), e, EntryBefore)
  {
    EntryBeforeIsStrictWeakOrder();
    Sorting.SortByStable(InsertionOrder(h, items), e, EntryBefore);
  }

  /** The rank loop on the example of the source's comment: values 80, 80, 50, 30 in sorted order. */
  lemma RankExample()
    ensures RankScan([Some(80.0), Some(80.0), Some(50.0), Some(30.0)]).ranks == [1, 1, 3, 4]
  {
    var v1 := [Some(80.0)];
    var v2 := v1 + [Some(80.0)];
    var v3 := v2 + [Some(50.0)];
    var v4 := v3 + [Some(30.0)];
    assert v2[..1] == v1 && v3[..2] == v2 && v4[..3] == v3;
    assert RankScan(v1) == RankState([1], Some(80.0), 1);
    assert RankScan(v2) == RankState([1, 1], Some(80.0), 1);
    assert RankScan(v3) == RankState([1, 1, 3], Some(50.0), 3);
    assert v4 == [Some(80.0), Some(80.0), Some(50.0), Some(30.0)];
  }

  /**
   * The `rankedData` memo: anything but a non-empty array gives no rows;
   * otherwise the rows are merged per club, the representatives are sorted
   * in place, ranked in place, and written out with their two new fields.
   */
  method RankedData(h: Host, data: Value) returns (out: seq<Value>)
    ensures out == Ranked(h, Items(data))
  {
    var items := Items(data);
    if |items| == 0 {
      return [];
    }
    var keys, entries := Dedup(h, items);
    var order := EntriesInOrder(ClubMap(keys, entries));
    assert order == InsertionOrder(h, items);
    var ranked := SortAndRank(order);
    out := seq(|ranked|, i requires 0 <= i < |ranked| => OutputItem(ranked[i]));
  }

  /** `arr.sort(...)` followed by the rank loop, on a fresh array of the entries. */
  method SortAndRank(order: seq<Entry>) returns (ranked: seq<Entry>)
    ensures ranked == WithRanks(Sorting.SortBy(order, EntryBefore))
  {
    var arr := new Entry[|order|](i requires 0 <= i < |order| => order[i]);
    assert arr[..] == order;
    Sorting.SortInPlace(arr, EntryBefore);
    ghost var sorted := arr[..];
    AssignRanks(arr);
    ranked := arr[..];
    assert |ranked| == |sorted|;
    assert forall i :: 0 <= i < |ranked| ==> ranked[i] == WithRanks(sorted)[i];
  }

  /**
   * Each output row is the representative's row with `rank_position` and
   * `_computed_value` set and every other field as it was; its name is the
   * club's.
   */
  lemma RankedRows(h: Host, items: seq<Value>)
    ensures var out := Ranked(h, items); var es := RankedEntries(h, items);
      && |out| == |es|
      && forall i :: 0 <= i < |out| ==>
        && ClubName(h, out[i]) == es[i].club
        && Get(out[i], "rank_position") == Num(es[i].rank as real)
        && Get(out[i], "_computed_value") == ValueOrNull(es[i].value)
        && (forall k :: k != "rank_position" && k != "_computed_value" ==> Get(out[i], k) == Get(es[i].rawItem, k))
  {
    var out := Ranked(h, items);
    var es := RankedEntries(h, items);
    RankedBest(h, items);
    forall i | 0 <= i < |out|
      ensures ClubName(h, out[i]) == es[i].club
      ensures Get(out[i], "rank_position") == Num(es[i].rank as real)
      ensures Get(out[i], "_computed_value") == ValueOrNull(es[i].value)
      ensures forall k :: k != "rank_position" && k != "_computed_value" ==> Get(out[i], k) == Get(es[i].rawItem, k)
    {
      OutputItemFields(h, es[i]);
    }
  }

  /** The output has exactly one row per usable club name of the input. */
  lemma RankedNames(h: Host, items: seq<Value>)
    ensures var out := Ranked(h, items);
      && (forall i, j :: 0 <= i < j < |out| ==> ClubName(h, out[i]) != ClubName(h, out[j]))
      && (forall c :: c in Names(h, items) <==> exists i :: 0 <= i < |out| && ClubName(h, out[i]) == c)
  {
    var out := Ranked(h, items);
    var es := RankedEntries(h, items);
    RankedRows(h, items);
    RankedOnePerClub(h, items);
    forall c | c in Names(h, items) ensures exists i :: 0 <= i < |out| && ClubName(h, out[i]) == c {
      var i :| 0 <= i < |es| && es[i].club == c;
      assert ClubName(h, out[i]) == c;
    }
  }

  // ------------------------------------------------------------ display rows

  /** A display row: `{ club, value, rawItem, wasNull }`. */
  datatype BaseRow = BaseRow(club: Value, value: real, rawItem: Value, wasNull: bool)

  /** `item?.score ?? item?._computed_value ?? item?.iap ?? item?.iap_score`, through `toNumber`. */
  function DisplayValue(h: Host, item: Value): Option<real> {
    ToNumber(h, Coalesce(Coalesce(Coalesce(
      Get(item, "score"), Get(item, "_computed_value")), Get(item, "iap")), Get(item, "iap_score")))
  }

  /** One display row: a missing value is shown as 0 and flagged. */
  function BaseRowOf(h: Host, item: Value): BaseRow {
    var v := DisplayValue(h, item);
    BaseRow(ClubName(h, item), if v.None? then 0.0 else v.value, item, v.None?)
  }

  /** `.filter((r) => r.club && r.club !== '—')`: the rows with a usable name, in order. */
  function KeepNamed(rows: seq<BaseRow>): (r: seq<BaseRow>)
    ensures |r| <= |rows|
    ensures forall x :: x in r ==> ValidName(x.club)
  {
    if rows == [] then []
    else
      var row := rows[|rows| - 1];
      KeepNamed(rows[..|rows| - 1]) + (if ValidName(row.club) then [row] else [])
  }

  /** The filter only drops rows. */
  lemma {:induction false} KeepNamedSubset(rows: seq<BaseRow>)
    ensures forall x :: x in KeepNamed(rows) ==> x in rows
  {
    if rows != [] {
      var init, last := rows[..|rows| - 1], rows[|rows| - 1];
      KeepNamedSubset(init);
      assert rows == init + [last];
    }
  }

  /** Rows that all have a usable name are all kept, in order. */
  lemma {:induction false} KeepNamedAll(rows: seq<BaseRow>)
    requires forall i :: 0 <= i < |rows| ==> ValidName(rows[i].club)
    ensures KeepNamed(rows) == rows
  {
    if rows != [] {
      var init, last := rows[..|rows| - 1], rows[|rows| - 1];
      assert forall i :: 0 <= i < |init| ==> init[i] == rows[i];
      KeepNamedAll(init);
      assert ValidName(last.club);
      assert KeepNamed(rows) == KeepNamed(init) + [last];
      assert rows == init + [last];
    }
  }

  /** `baseRows`: the display rows of the ranked rows, without those with no usable name. */
  function BaseRows(h: Host, ranked: seq<Value>): (r: seq<BaseRow>)
    ensures |r| <= |ranked|
    ensures forall x :: x in r ==> ValidName(x.club) && x.rawItem in ranked && x == BaseRowOf(h, x.rawItem)
  {
    var mapped := seq(|ranked|, i requires 0 <= i < |ranked| => BaseRowOf(h, ranked[i]));
    assert forall x :: x in mapped ==> x.rawItem in ranked && x == BaseRowOf(h, x.rawItem);
    KeepNamedSubset(mapped);
    KeepNamed(mapped)
  }

  /**
   * The display value of an output row is the value the row was ranked by:
   * both chains start with `score`, and when it is nullish `_computed_value`
   * holds the ranked value, or is `null` exactly when `iap` and `iap_score`
   * gave no number either.
   */
  lemma DisplayValueOfOutput(h: Host, e: Entry)
    requires e.rawItem.Obj? && RowValue(h, e.rawItem) == e.value
    ensures DisplayValue(h, OutputItem(e)) == e.value
  {
    var out := OutputItem(e);
    OutputItemFields(h, e);
    assert Get(out, "score") == Get(e.rawItem, "score");
    assert Get(out, "iap") == Get(e.rawItem, "iap");
    assert Get(out, "iap_score") == Get(e.rawItem, "iap_score");
  }

  /** Every output row has a usable name. */
  lemma RankedValidName(h: Host, items: seq<Value>, i: int)
    requires 0 <= i < |Ranked(h, items)|
    ensures ValidName(ClubName(h, Ranked(h, items)[i]))
  {
    var es := RankedEntries(h, items);
    RankedBest(h, items);
    OutputItemFields(h, es[i]);
    SortedEntryOfClub(h, items, i);
  }

  /**
   * Every ranked row reaches the display, shown with its ranked value, or
   * with 0 and `wasNull` when it has none.
   */
  lemma BaseRowsOfRanked(h: Host, items: seq<Value>)
    ensures var out := Ranked(h, items); var es := RankedEntries(h, items); var rows := BaseRows(h, out);
      && |rows| == |es|
      && forall i :: 0 <= i < |rows| ==>
        && rows[i].club == es[i].club && rows[i].rawItem == out[i]
        && rows[i].wasNull == es[i].value.None?
        && rows[i].value == (if es[i].value.None? then 0.0 else es[i].value.value)
  {
    var out := Ranked(h, items);
    var es := RankedEntries(h, items);
    var mapped := seq(|out|, i requires 0 <= i < |out| => BaseRowOf(h, out[i]));
    forall i | 0 <= i < |mapped| ensures ValidName(mapped[i].club) {
      RankedValidName(h, items, i);
    }
    KeepNamedAll(mapped);
    forall i | 0 <= i < |out|
      ensures mapped[i] == BaseRow(es[i].club, if es[i].value.None? then 0.0 else es[i].value.value, out[i], es[i].value.None?)
    {
      RankedBaseRow(h, items, i);
    }
  }

  /** The display row of one output row. */
  lemma RankedBaseRow(h: Host, items: seq<Value>, i: int)
    requires 0 <= i < |RankedEntries(h, items)|
    ensures var e := RankedEntries(h, items)[i];
      BaseRowOf(h, Ranked(h, items)[i]) == BaseRow(e.club, if e.value.None? then 0.0 else e.value.value, OutputItem(e), e.value.None?)
  {
    var e := RankedEntries(h, items)[i];
    RankedBest(h, items);
    DisplayValueOfOutput(h, e);
    OutputItemFields(h, e);
  }
}
