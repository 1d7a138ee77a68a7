/**
 * The rank card (pulso-publico/components/RankCard.jsx): the card's club
 * name, its IAP number, its sparkline values, its displayed rank and its
 * trend badge against the previous day's ranks. The card's local
 * `getClubName` is the shared one, `RankingUtils.ClubName`.
 */
module RankCard {
  import opened Wrappers
  import opened Js
  import opened Trends
  import opened RankingUtils
  import opened RankingPrev

  /** `Number(String(v).replace(',', '.'))`, with `None` for NaN and the infinities. */
  function CommaNumber(h: Host, v: Value): Option<real> {
    h.parseNumber(ReplaceFirst(ToStr(h, v), ',', '.'))
  }

  /**
   * `iapNum`: no number when `score ?? iap` is nullish; otherwise that value
   * read as text, with its first comma turned into a dot.
   */
  function IapNum(h: Host, item: Value): (r: Option<real>)
    ensures Nullish(Get(item, "score")) && Nullish(Get(item, "iap")) ==> r.None?
    ensures !Nullish(Get(item, "score")) ==> r == CommaNumber(h, Get(item, "score"))
    ensures Nullish(Get(item, "score")) && !Nullish(Get(item, "iap")) ==> r == CommaNumber(h, Get(item, "iap"))
  {
    var iap := Coalesce(Coalesce(Get(item, "score"), Get(item, "iap")), Null);
    if Nullish(iap) then None else CommaNumber(h, iap)
  }

  /**
   * For a non-empty string the card reads the IAP as the shared `toNumber`
   * would; the two differ only on `''`, which the card hands to `Number`
   * while `toNumber` gives no number.
   */
  lemma IapNumAsToNumber(h: Host, item: Value)
    requires var iap := Coalesce(Get(item, "score"), Get(item, "iap")); iap.Str? && iap.s != ""
    ensures IapNum(h, item) == ToNumber(h, Coalesce(Get(item, "score"), Get(item, "iap")))
  {
  }

  /** One sparkline point: no number when the entry or its `value` is falsy, zero included. */
  function SparkPoint(h: Host, s: Value): (r: Option<real>)
    ensures !Truthy(s) || !Truthy(Get(s, "value")) ==> r.None?
    ensures Truthy(s) && Truthy(Get(s, "value")) ==> r == CommaNumber(h, Get(s, "value"))
  {
    if Truthy(s) && Truthy(Get(s, "value")) then CommaNumber(h, Get(s, "value")) else None
  }

  /** `series`: one point per entry of an array `series`, else no points. */
  function Sparkline(h: Host, item: Value): (r: seq<Option<real>>)
    ensures !Get(item, "series").Arr? ==> r == []
    ensures Get(item, "series").Arr? ==>
      && |r| == |Get(item, "series").items|
      && forall i :: 0 <= i < |r| ==> r[i] == SparkPoint(h, Get(item, "series").items[i])
  {
    var series := Get(item, "series");
    if series.Arr? then seq(|series.items|, i requires 0 <= i < |series.items| => SparkPoint(h, series.items[i]))
    else []
  }

  /** A zero value is a gap in the sparkline, not a point at zero. */
  lemma SparkZeroIsGap(h: Host, item: Value, i: nat)
    requires Get(item, "series").Arr? && i < |Get(item, "series").items|
    requires Get(Get(item, "series").items[i], "value") == Num(0.0)
    ensures Sparkline(h, item)[i].None?
  {
  }

  /** `currRank`: `Number(rank_position)` when that is a non-zero number, else the card's `rank`. */
  function CardRank(h: Host, item: Value, rank: real): (r: real)
    ensures NumberOf(h, Get(item, "rank_position")).Some? && NumberOf(h, Get(item, "rank_position")).value != 0.0
      ==> r == NumberOf(h, Get(item, "rank_position")).value
    ensures NumberOf(h, Get(item, "rank_position")).None? || NumberOf(h, Get(item, "rank_position")) == Some(0.0)
      ==> r == rank
  {
    var n := NumberOf(h, Get(item, "rank_position"));
    if n.Some? && n.value != 0.0 then n.value else rank
  }

  /**
   * The card's trend: none when its club has no previous rank or its rank
   * is 0; otherwise the badge of `prev - currRank`.
   */
  function CardTrend(h: Host, item: Value, rank: real, prevRankMap: map<Value, real>): (r: Option<Trend>)
    ensures r.None? <==> ClubName(h, item) !in prevRankMap || CardRank(h, item, rank) == 0.0
    ensures r.Some? ==> Signed(r.value) == prevRankMap[ClubName(h, item)] - CardRank(h, item, rank)
  {
    var name := ClubName(h, item);
    var currRank := CardRank(h, item, rank);
    if name in prevRankMap && currRank != 0.0 then
      ClassifySigned(prevRankMap[name], currRank);
      Some(Classify(prevRankMap[name], currRank))
    else None
  }

  /**
   * The card and the table agree: for a row whose `rank_position` is a
   * non-zero number, the card shows the same badge as the table row does
   * once a previous date is in use.
   */
  lemma CardTrendAgreesWithTable(h: Host, item: Value, idx: nat, rank: real, prevDateUsed: string, prevRankMap: map<Value, real>)
    requires Get(item, "rank_position").Num? && Get(item, "rank_position").n != 0.0
    requires prevDateUsed != ""
    ensures CardTrend(h, item, rank, prevRankMap) == RenderTrend(h, item, idx, prevDateUsed, prevRankMap)
  {
    assert CardRank(h, item, rank) == CurrRank(h, item, idx);
  }
}
