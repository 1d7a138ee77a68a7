/**
 * The previous-day side of the daily ranking page
 * (pulso-publico/components/Ranking.jsx): the name-to-rank and
 * name-to-metrics maps built from the previous day's rows, and the trend
 * badge of a row, `prevRank - currRank`.
 */
module RankingPrev {
  import opened Wrappers
  import opened Js
  import opened Trends
  import opened RankingUtils

  /** `{ rank, score, volume, sent }` of a club on the previous day. */
  datatype PrevMetrics = PrevMetrics(rank: real, score: Option<real>, volume: Option<real>, sent: Option<real>)

  /** The rows of the previous-day response: the array itself, else its `data` array, else none. */
  function PrevRows(json: Value): seq<Value> {
    if json.Arr? then json.items else Items(Get(json, "data"))
  }

  /** `rank_position` when it reads as a number, otherwise the 1-based position `i + 1`. */
  function PrevRank(h: Host, it: Value, i: nat): real {
    var rp := ToNumber(h, Get(it, "rank_position"));
    if rp.Some? then rp.value else (i + 1) as real
  }

  /** The metrics recorded for the row at index `i`. */
  function MetricsOf(h: Host, it: Value, i: nat): PrevMetrics {
    PrevMetrics(
      PrevRank(h, it, i),
      ToNumber(h, Coalesce(Coalesce(Get(it, "score"), Get(it, "iap")), Get(it, "iap_score"))),
      ToNumber(h, Get(it, "volume_total")),
      ToNumber(h, Get(it, "sentiment_score")))
  }

  /** The metrics map once the loop has seen `rows`: a later row of the same name overwrites. */
  function PrevMap(h: Host, rows: seq<Value>): map<Value, PrevMetrics> {
    if rows == [] then map[]
    else
      var i := |rows| - 1;
      var name := ClubName(h, rows[i]);
      var m := PrevMap(h, rows[..i]);
      if ValidName(name) then m[name := MetricsOf(h, rows[i], i)] else m
  }

  /** The rank map is the metrics map's ranks. */
  function RankMap(mm: map<Value, PrevMetrics>): (rm: map<Value, real>)
    ensures rm.Keys == mm.Keys
    ensures forall c :: c in rm ==> rm[c] == mm[c].rank
  {
    map c | c in mm :: mm[c].rank
  }

  /**
   * The loop of the previous-day fetch: rows without a usable name are
   * skipped; every other row sets its name in both maps.
   */
  method BuildPrevMaps(h: Host, arr: seq<Value>) returns (rm: map<Value, real>, mm: map<Value, PrevMetrics>)
    ensures mm == PrevMap(h, arr)
    ensures rm == RankMap(mm)
  {
    rm, mm := map[], map[];
    var i := 0;
    while i < |arr|
      invariant 0 <= i <= |arr|
      invariant mm == PrevMap(h, arr[..i])
      invariant rm == RankMap(mm)
    {
      assert arr[..i + 1][..i] == arr[..i];
      var it := arr[i];
      var name := ClubName(h, it);
      if ValidName(name) {
        var rp := ToNumber(h, Get(it, "rank_position"));
        var rankPos := if rp.Some? then rp.value else (i + 1) as real;
        var score := ToNumber(h, Coalesce(Coalesce(Get(it, "score"), Get(it, "iap")), Get(it, "iap_score")));
        var volume := ToNumber(h, Get(it, "volume_total"));
        var sent := ToNumber(h, Get(it, "sentiment_score"));
        rm := rm[name := rankPos];
        mm := mm[name := PrevMetrics(rankPos, score, volume, sent)];
      }
      i := i + 1;
    }
    assert arr[..|arr|] == arr;
  }

  /** A name is in the map exactly when some row carries it as a usable name. */
  lemma {:induction false} PrevMapKeys(h: Host, rows: seq<Value>)
    ensures forall c :: c in PrevMap(h, rows) <==> c in Names(h, rows)
  {
    if rows != [] {
      PrevMapKeys(h, rows[..|rows| - 1]);
    }
  }

  /** The last row of a name decides its entry: later duplicates overwrite earlier ones. */
  lemma {:induction false} PrevMapLastWins(h: Host, rows: seq<Value>, i: int)
    requires 0 <= i < |rows| && ValidName(ClubName(h, rows[i]))
    requires forall j :: i < j < |rows| ==> ClubName(h, rows[j]) != ClubName(h, rows[i])
    ensures ClubName(h, rows[i]) in PrevMap(h, rows)
    ensures PrevMap(h, rows)[ClubName(h, rows[i])] == MetricsOf(h, rows[i], i)
  {
    var n := |rows| - 1;
    if i < n {
      var init := rows[..n];
      assert init[i] == rows[i];
      assert forall j :: i < j < |init| ==> init[j] == rows[j];
      PrevMapLastWins(h, init, i);
    }
  }

  // ------------------------------------------------------------ trend

  /** `currRank`: the row's `rank_position` when it reads as a number, else its 1-based position. */
  function CurrRank(h: Host, item: Value, idx: nat): real {
    var rp := ToNumber(h, Get(item, "rank_position"));
    if rp.Some? then rp.value else (idx + 1) as real
  }

  /**
   * `renderTrend`: no badge (the dash) without a previous date, without a
   * previous rank for the row's name, or with a current rank of 0;
   * otherwise the badge of `prevRank - currRank`.
   */
  function RenderTrend(h: Host, item: Value, idx: nat, prevDateUsed: string, prevRankMap: map<Value, real>): (r: Option<Trend>)
    ensures r.None? <==>
      prevDateUsed == "" || ClubName(h, item) !in prevRankMap || CurrRank(h, item, idx) == 0.0
    ensures r.Some? ==> Signed(r.value) == prevRankMap[ClubName(h, item)] - CurrRank(h, item, idx)
  {
    var currRank := CurrRank(h, item, idx);
    var name := ClubName(h, item);
    if prevDateUsed == "" || name !in prevRankMap || currRank == 0.0 then None
    else
      ClassifySigned(prevRankMap[name], currRank);
      Some(Classify(prevRankMap[name], currRank))
  }

  /**
   * A missing badge is not a flat one: a row whose club held the same rank
   * the day before gets the flat badge, not the dash.
   */
  lemma SameRankIsFlat(h: Host, item: Value, idx: nat, prevDateUsed: string, prevRankMap: map<Value, real>)
    requires prevDateUsed != "" && ClubName(h, item) in prevRankMap
    requires prevRankMap[ClubName(h, item)] == CurrRank(h, item, idx) != 0.0
    ensures RenderTrend(h, item, idx, prevDateUsed, prevRankMap) == Some(Flat)
  {
  }
}
