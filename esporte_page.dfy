/**
 * The sport ranking page (pulso-publico/app/ranking/esporte/page.jsx): the
 * date the page shows, the previous-day rank map it hands to every rank
 * card, and the Top-N slice of the rows.
 */
module EsportePage {
  import opened Wrappers
  import opened Js
  import opened RankingUtils
  import opened RankingPrev
  import opened RankCard

  /**
   * A date as the page computes it: a string; the first ten items of an
   * array date (arrays have a `slice` too, and the result is truthy even
   * when empty); `undefined` when the first row's date fields are all
   * nullish; or a `TypeError` when the first row's date is a value with no
   * `slice` at all (a number, a boolean or a plain object).
   */
  datatype PageDate = Known(s: string) | Listed(items: seq<Value>) | Missing | Broken

  /** `resolvedDate`: the response's `resolved_date` cut to 10 characters, for a non-array response. */
  function ResolvedDate(h: Host, json: Value): string {
    if Truthy(json) && !json.Arr? && Truthy(Get(json, "resolved_date")) then Prefix(ToStr(h, Get(json, "resolved_date")), 10)
    else ""
  }

  /** `aggregation_date ?? metric_date ?? date` of a row. */
  function RowDate(row: Value): Value {
    Coalesce(Coalesce(Get(row, "aggregation_date"), Get(row, "metric_date")), Get(row, "date"))
  }

  /** `(aggregation_date ?? metric_date ?? date)?.slice(0, 10)` of the first row. */
  function FirstRowDate(first: Value): (r: PageDate)
    ensures r.Missing? <==> Nullish(RowDate(first))
    ensures r.Known? <==> RowDate(first).Str?
    ensures r.Known? ==>
      var d := RowDate(first).s;
      |r.s| == (if |d| < 10 then |d| else 10) && r.s == d[..|r.s|]
    ensures r.Listed? <==> RowDate(first).Arr?
    ensures r.Listed? ==>
      var d := RowDate(first).items;
      |r.items| == (if |d| < 10 then |d| else 10) && r.items == d[..|r.items|]
    ensures r.Broken? <==> !Nullish(RowDate(first)) && !RowDate(first).Str? && !RowDate(first).Arr?
  {
    var d := RowDate(first);
    if Nullish(d) then Missing
    else if d.Str? then Known(Prefix(d.s, 10))
    else if d.Arr? then Listed(if |d.items| <= 10 then d.items else d.items[..10])
    else Broken
  }

  /**
   * `effectiveDate`: the resolved date, else the selected date, else the
   * first row's date, else `''` when there is no truthy first row.
   */
  function EffectiveDate(h: Host, json: Value, selectedDate: string): (r: PageDate)
    ensures ResolvedDate(h, json) != "" ==> r == Known(ResolvedDate(h, json))
    ensures ResolvedDate(h, json) == "" && selectedDate != "" ==> r == Known(selectedDate)
    ensures ResolvedDate(h, json) == "" && selectedDate == "" ==>
      var rows := PrevRows(json);
      r == (if |rows| > 0 && Truthy(rows[0]) then FirstRowDate(rows[0]) else Known(""))
  {
    var resolved := ResolvedDate(h, json);
    var rows := PrevRows(json);
    if resolved != "" then Known(resolved)
    else if selectedDate != "" then Known(selectedDate)
    else if |rows| > 0 && Truthy(rows[0]) then FirstRowDate(rows[0])
    else Known("")
  }

  /** A date the page shows has at most 10 characters unless the user selected it. */
  lemma EffectiveDateShort(h: Host, json: Value, selectedDate: string)
    requires EffectiveDate(h, json, selectedDate).Known? && EffectiveDate(h, json, selectedDate).s != selectedDate
    ensures |EffectiveDate(h, json, selectedDate).s| <= 10
  {
  }

  // ------------------------------------------------------------ prevRankMap

  /**
   * The key of a previous-day row: `club.name` (when `club` is truthy),
   * then `club_name`, `name`, `club`, and finally the text of
   * `club_id ?? i`, so that every row has one.
   */
  function PageKey(h: Host, it: Value, i: nat): Value {
    var club := Get(it, "club");
    Or(Or(Or(Or(And(club, Get(club, "name")), Get(it, "club_name")), Get(it, "name")), club),
       Str(ToStr(h, Coalesce(Get(it, "club_id"), Num(i as real)))))
  }

  /** The rank of a previous-day row: `Number(rank_position) || i + 1`, the card's rule with `i + 1` as fallback. */
  function PageRank(h: Host, it: Value, i: nat): (r: real)
    ensures r != 0.0
  {
    CardRank(h, it, (i + 1) as real)
  }

  /** The map once the loop has seen `rows`: every row sets its key, a later row overwriting. */
  function PageRankMap(h: Host, rows: seq<Value>): map<Value, real> {
    if rows == [] then map[]
    else
      var i := |rows| - 1;
      PageRankMap(h, rows[..i])[PageKey(h, rows[i], i) := PageRank(h, rows[i], i)]
  }

  /** Every row's key is in the map: no row is skipped. */
  lemma {:induction false} PageKeyIn(h: Host, rows: seq<Value>, i: nat)
    requires i < |rows|
    ensures PageKey(h, rows[i], i) in PageRankMap(h, rows)
  {
    var n := |rows| - 1;
    if i < n {
      var init := rows[..n];
      assert init[i] == rows[i];
      PageKeyIn(h, init, i);
    }
  }

  /** Every key of the map is some row's key. */
  lemma {:induction false} PageKeyFrom(h: Host, rows: seq<Value>, k: Value)
    requires k in PageRankMap(h, rows)
    ensures exists i :: 0 <= i < |rows| && PageKey(h, rows[i], i) == k
  {
    var n := |rows| - 1;
    var init := rows[..n];
    if k != PageKey(h, rows[n], n) {
      PageKeyFrom(h, init, k);
      var i :| 0 <= i < |init| && PageKey(h, init[i], i) == k;
      assert init[i] == rows[i];
    }
  }

  /** The last row with a key decides its rank: later duplicates overwrite earlier ones. */
  lemma {:induction false} PageRankMapLastWins(h: Host, rows: seq<Value>, i: nat)
    requires i < |rows|
    requires forall j :: i < j < |rows| ==> PageKey(h, rows[j], j) != PageKey(h, rows[i], i)
    ensures PageKey(h, rows[i], i) in PageRankMap(h, rows)
    ensures PageRankMap(h, rows)[PageKey(h, rows[i], i)] == PageRank(h, rows[i], i)
  {
    var n := |rows| - 1;
    if i < n {
      var init := rows[..n];
      assert init[i] == rows[i];
      assert forall j :: i < j < |init| ==> init[j] == rows[j];
      PageRankMapLastWins(h, init, i);
    }
  }

  /** Every rank in the map is non-zero: `Number(rank_position) || i + 1` never gives 0. */
  lemma {:induction false} PageRanksNonZero(h: Host, rows: seq<Value>)
    ensures forall k :: k in PageRankMap(h, rows) ==> PageRankMap(h, rows)[k] != 0.0
  {
    if rows != [] {
      PageRanksNonZero(h, rows[..|rows| - 1]);
    }
  }

  /** The `prevRankMap` memo: one `m.set(name, rp)` per previous-day row, in order. */
  method BuildPageRankMap(h: Host, prevArr: seq<Value>) returns (m: map<Value, real>)
    ensures m == PageRankMap(h, prevArr)
  {
    m := map[];
    var i := 0;
    while i < |prevArr|
      invariant 0 <= i <= |prevArr|
      invariant m == PageRankMap(h, prevArr[..i])
    {
      assert prevArr[..i + 1][..i] == prevArr[..i];
      var it := prevArr[i];
      var club := Get(it, "club");
      var name := Or(Or(Or(Or(And(club, Get(club, "name")), Get(it, "club_name")), Get(it, "name")), club),
                     Str(ToStr(h, Coalesce(Get(it, "club_id"), Num(i as real)))));
      var n := NumberOf(h, Get(it, "rank_position"));
      var rp := if n.Some? && n.value != 0.0 then n.value else (i + 1) as real;
      m := m[name := rp];
      i := i + 1;
    }
    assert prevArr[..|prevArr|] == prevArr;
  }

  // ------------------------------------------------------------ itemsToShow

  /** `itemsToShow`: the first `modeTop` rows, in order, or all of them when there are fewer. */
  function ItemsToShow(rows: seq<Value>, modeTop: nat): (r: seq<Value>)
    ensures |r| == if modeTop < |rows| then modeTop else |rows|
    ensures forall i :: 0 <= i < |r| ==> r[i] == rows[i]
  {
    if modeTop < |rows| then rows[..modeTop] else rows
  }
}
