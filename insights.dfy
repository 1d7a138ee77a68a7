/**
 * The insights panel (pulso-publico/components/InsightsPanel.jsx): one pass
 * over the table rows that finds the leader, the row with the greatest
 * volume, the best and the worst sentiment, and the greatest rise and fall
 * of score against the previous day.
 */
module Insights {
  import opened Wrappers
  import opened Js
  import opened RankingUtils
  import opened RankingPrev
  import opened InsightsText

  /** A name with the value it was picked for. */
  datatype Named = Named(name: Value, value: real)

  /** A score change: `{ name, delta, prev, curr }`. */
  datatype Move = Move(name: Value, delta: real, prev: real, curr: real)

  /** `{ name, score }` of the first row. */
  datatype Leader = Leader(name: Value, score: Option<real>)

  /** The panel's summary; `null` fields are `None`. */
  datatype Summary = Summary(
    leader: Leader,
    maxVol: Option<Named>,
    bestSent: Option<Named>,
    worstSent: Option<Named>,
    bestUp: Option<Move>,
    bestDown: Option<Move>,
    hasPrev: bool,
    effectiveDate: string,
    prevDateUsed: string)

  // ------------------------------------------------------------ first best

  /** `a` beats `b`: strictly greater when looking `up`, strictly smaller otherwise. */
  predicate Better(a: real, b: real, up: bool) {
    if up then a > b else a < b
  }

  /**
   * The index of the best present value among the first `n`, as a scan
   * that takes a value only when it strictly beats the one held.
   */
  function ArgBest(xs: seq<Option<real>>, n: nat, up: bool): (r: Option<nat>)
    requires n <= |xs|
    ensures r.Some? ==> r.value < n && xs[r.value].Some?
  {
    if n == 0 then None
    else
      var m := ArgBest(xs, n - 1, up);
      if xs[n - 1].Some? && (m.None? || Better(xs[n - 1].value, xs[m.value].value, up)) then Some(n - 1) else m
  }

  /**
   * `k` holds the first best present value among the first `n`: no present
   * value beats it, and every present value before it is beaten by it.
   */
  ghost predicate IsFirstBest(xs: seq<Option<real>>, n: nat, k: nat, up: bool)
    requires n <= |xs|
  {
    && k < n && xs[k].Some?
    && (forall j :: 0 <= j < n && xs[j].Some? ==> !Better(xs[j].value, xs[k].value, up))
    && (forall j :: 0 <= j < k && xs[j].Some? ==> Better(xs[k].value, xs[j].value, up))
  }

  /** The scan finds nothing exactly when no value is present, and otherwise finds the first best one. */
  lemma {:induction false} ArgBestFinds(xs: seq<Option<real>>, n: nat, up: bool)
    requires n <= |xs|
    ensures ArgBest(xs, n, up).None? <==> forall j :: 0 <= j < n ==> xs[j].None?
    ensures ArgBest(xs, n, up).Some? ==> IsFirstBest(xs, n, ArgBest(xs, n, up).value, up)
  {
    if n > 0 {
      ArgBestFinds(xs, n - 1, up);
    }
  }

  /** The scan's index is the first best one, and the first best one is what the scan finds. */
  lemma ArgBestIsFirstBest(xs: seq<Option<real>>, n: nat, k: nat, up: bool)
    requires n <= |xs|
    ensures ArgBest(xs, n, up) == Some(k) <==> IsFirstBest(xs, n, k, up)
  {
    ArgBestFinds(xs, n, up);
  }

  // ------------------------------------------------------------ per-row readings

  /** A row that takes part: its display name is not the marker. */
  predicate Counted(it: Value) {
    DisplayName(it) != Str(Dash)
  }

  /** The row's `volume_total` as a number, for a counted row. */
  function VolumeOf(h: Host, it: Value): Option<real> {
    if Counted(it) then ToNumber(h, Get(it, "volume_total")) else None
  }

  /** The row's `sentiment_score` as a number, for a counted row. */
  function SentimentOf(h: Host, it: Value): Option<real> {
    if Counted(it) then ToNumber(h, Get(it, "sentiment_score")) else None
  }

  /** The previous-day record of a row: by display name first, then by lookup key. */
  function PrevOf(prevMap: map<Value, PrevMetrics>, name: Value, key: string): (r: Option<PrevMetrics>)
    ensures name in prevMap ==> r == Some(prevMap[name])
    ensures name !in prevMap && Str(key) in prevMap ==> r == Some(prevMap[Str(key)])
    ensures r.None? <==> name !in prevMap && Str(key) !in prevMap
  {
    if name in prevMap then Some(prevMap[name])
    else if Str(key) in prevMap then Some(prevMap[Str(key)])
    else None
  }

  /** The previous score of a row: the `score` of its previous-day record. */
  function PrevScore(h: Host, prevMap: map<Value, PrevMetrics>, it: Value): Option<real> {
    var name := DisplayName(it);
    var prev := PrevOf(prevMap, name, ClubKey(h, it, name));
    if prev.Some? then prev.value.score else None
  }

  /** The change of a counted row whose current and previous scores are both numbers. */
  function MoveOf(h: Host, prevMap: map<Value, PrevMetrics>, it: Value): Option<Move> {
    var curr := PickScore(h, it);
    var prev := PrevScore(h, prevMap, it);
    if Counted(it) && curr.Some? && prev.Some?
    then Some(Move(DisplayName(it), curr.value - prev.value, prev.value, curr.value))
    else None
  }

  function Volumes(h: Host, items: seq<Value>): (r: seq<Option<real>>)
    ensures |r| == |items| && forall i :: 0 <= i < |items| ==> r[i] == VolumeOf(h, items[i])
  {
    seq(|items|, i requires 0 <= i < |items| => VolumeOf(h, items[i]))
  }

  function Sentiments(h: Host, items: seq<Value>): (r: seq<Option<real>>)
    ensures |r| == |items| && forall i :: 0 <= i < |items| ==> r[i] == SentimentOf(h, items[i])
  {
    seq(|items|, i requires 0 <= i < |items| => SentimentOf(h, items[i]))
  }

  /** The change of every row, in order. */
  function Moves(h: Host, prevMap: map<Value, PrevMetrics>, items: seq<Value>): (r: seq<Option<Move>>)
    ensures |r| == |items| && forall i :: 0 <= i < |items| ==> r[i] == MoveOf(h, prevMap, items[i])
  {
    seq(|items|, i requires 0 <= i < |items| => MoveOf(h, prevMap, items[i]))
  }

  /** The deltas of the rows that have a change. */
  function Deltas(moves: seq<Option<Move>>): (r: seq<Option<real>>)
    ensures |r| == |moves|
    ensures forall i :: 0 <= i < |moves| ==> r[i] == (if moves[i].Some? then Some(moves[i].value.delta) else None)
  {
    seq(|moves|, i requires 0 <= i < |moves| => if moves[i].Some? then Some(moves[i].value.delta) else None)
  }

  /** The named value at the index a scan found. */
  function NamedAt(items: seq<Value>, xs: seq<Option<real>>, k: Option<nat>): Option<Named>
    requires |xs| == |items|
    requires k.Some? ==> k.value < |xs| && xs[k.value].Some?
  {
    if k.None? then None else Some(Named(DisplayName(items[k.value]), xs[k.value].value))
  }

  /** The change at the index a scan found. */
  function MoveAt(moves: seq<Option<Move>>, k: Option<nat>): Option<Move>
    requires k.Some? ==> k.value < |moves|
  {
    if k.None? then None else moves[k.value]
  }

  // ------------------------------------------------------------ the pass, as a fold

  /** A reading replaces the held one only when there is none or it strictly beats it. */
  function Keep(held: Option<Named>, name: Value, v: Option<real>, up: bool): Option<Named> {
    if v.Some? && (held.None? || Better(v.value, held.value.value, up)) then Some(Named(name, v.value)) else held
  }

  /** A change replaces the held one only when there is none or its delta strictly beats it. */
  function KeepChange(held: Option<Move>, m: Option<Move>, up: bool): Option<Move> {
    if m.Some? && (held.None? || Better(m.value.delta, held.value.delta, up)) then m else held
  }

  /** The named reading the pass holds once it has kept the first `n` readings of `xs`. */
  function ScanNamed(items: seq<Value>, xs: seq<Option<real>>, n: nat, up: bool): Option<Named>
    requires n <= |xs| == |items|
  {
    if n == 0 then None else Keep(ScanNamed(items, xs, n - 1, up), DisplayName(items[n - 1]), xs[n - 1], up)
  }

  /** The change the pass holds once it has kept the first `n` changes. */
  function ScanChange(moves: seq<Option<Move>>, n: nat, up: bool): Option<Move>
    requires n <= |moves|
  {
    if n == 0 then None else KeepChange(ScanChange(moves, n - 1, up), moves[n - 1], up)
  }

  /** Keeping the next reading moves the scan on by one row. */
  lemma NamedStep(items: seq<Value>, xs: seq<Option<real>>, n: nat, up: bool)
    requires 0 < n <= |xs| == |items|
    ensures Keep(NamedAt(items, xs, ArgBest(xs, n - 1, up)), DisplayName(items[n - 1]), xs[n - 1], up) ==
      NamedAt(items, xs, ArgBest(xs, n, up))
  {
  }

  /** Keeping the next change moves the scan over the deltas on by one row. */
  lemma MoveStep(moves: seq<Option<Move>>, n: nat, up: bool)
    requires 0 < n <= |moves|
    ensures KeepChange(MoveAt(moves, ArgBest(Deltas(moves), n - 1, up)), moves[n - 1], up) ==
      MoveAt(moves, ArgBest(Deltas(moves), n, up))
  {
    var ds := Deltas(moves);
    assert ds[n - 1] == (if moves[n - 1].Some? then Some(moves[n - 1].value.delta) else None);
    var m := ArgBest(ds, n - 1, up);
    if m.Some? {
      assert ds[m.value] == Some(moves[m.value].value.delta);
    }
  }

  /** The reading the pass holds is the one at the first best index. */
  lemma {:induction false} ScanNamedFindsBest(items: seq<Value>, xs: seq<Option<real>>, n: nat, up: bool)
    requires n <= |xs| == |items|
    ensures ScanNamed(items, xs, n, up) == NamedAt(items, xs, ArgBest(xs, n, up))
  {
    if n > 0 {
      ScanNamedFindsBest(items, xs, n - 1, up);
      NamedStep(items, xs, n, up);
    }
  }

  /** The change the pass holds is the one at the first best delta. */
  lemma {:induction false} ScanChangeFindsBest(moves: seq<Option<Move>>, n: nat, up: bool)
    requires n <= |moves|
    ensures ScanChange(moves, n, up) == MoveAt(moves, ArgBest(Deltas(moves), n, up))
  {
    if n > 0 {
      ScanChangeFindsBest(moves, n - 1, up);
      MoveStep(moves, n, up);
    }
  }

  /**
   * The panel's summary: `null` for no rows; otherwise the first row as
   * leader, the accumulators after the whole pass, and `hasPrev` when a
   * previous date was used and the previous-day map is not empty.
   */
  function SummaryOf(h: Host, items: seq<Value>, prevMap: map<Value, PrevMetrics>, prevDateUsed: string, effectiveDate: string): (r: Option<Summary>)
    ensures r.None? <==> items == []
  {
    if items == [] then None
    else
      var n := |items|;
      var moves := Moves(h, prevMap, items);
      Some(Summary(
        Leader(DisplayName(items[0]), PickScore(h, items[0])),
        ScanNamed(items, Volumes(h, items), n, true),
        ScanNamed(items, Sentiments(h, items), n, true),
        ScanNamed(items, Sentiments(h, items), n, false),
        ScanChange(moves, n, true),
        ScanChange(moves, n, false),
        prevDateUsed != "" && |prevMap| > 0,
        effectiveDate,
        prevDateUsed))
  }

  // ------------------------------------------------------------ what the summary promises

  /**
   * `maxVol` is the first row with the greatest volume among the counted
   * rows that have one, and is `null` exactly when none has one.
   */
  lemma InsightsMaxVol(h: Host, items: seq<Value>, prevMap: map<Value, PrevMetrics>, prevDateUsed: string, effectiveDate: string, k: nat)
    requires items != []
    ensures SummaryOf(h, items, prevMap, prevDateUsed, effectiveDate).value.maxVol.None? <==>
      forall j :: 0 <= j < |items| ==> VolumeOf(h, items[j]).None?
    ensures IsFirstBest(Volumes(h, items), |items|, k, true) ==>
      SummaryOf(h, items, prevMap, prevDateUsed, effectiveDate).value.maxVol ==
        Some(Named(DisplayName(items[k]), VolumeOf(h, items[k]).value))
  {
    var vols := Volumes(h, items);
    ScanNamedFindsBest(items, vols, |items|, true);
    ArgBestFinds(vols, |items|, true);
    ArgBestIsFirstBest(vols, |items|, k, true);
  }

  /**
   * `bestSent` and `worstSent` are the first rows with the greatest and the
   * smallest sentiment among the counted rows that have one, and are `null`
   * exactly when none has one.
   */
  lemma InsightsSentiment(h: Host, items: seq<Value>, prevMap: map<Value, PrevMetrics>, prevDateUsed: string, effectiveDate: string, k: nat)
    requires items != []
    ensures SummaryOf(h, items, prevMap, prevDateUsed, effectiveDate).value.bestSent.None? <==>
      forall j :: 0 <= j < |items| ==> SentimentOf(h, items[j]).None?
    ensures SummaryOf(h, items, prevMap, prevDateUsed, effectiveDate).value.worstSent.None? <==>
      forall j :: 0 <= j < |items| ==> SentimentOf(h, items[j]).None?
    ensures IsFirstBest(Sentiments(h, items), |items|, k, true) ==>
      SummaryOf(h, items, prevMap, prevDateUsed, effectiveDate).value.bestSent ==
        Some(Named(DisplayName(items[k]), SentimentOf(h, items[k]).value))
    ensures IsFirstBest(Sentiments(h, items), |items|, k, false) ==>
      SummaryOf(h, items, prevMap, prevDateUsed, effectiveDate).value.worstSent ==
        Some(Named(DisplayName(items[k]), SentimentOf(h, items[k]).value))
  {
    var sents := Sentiments(h, items);
    ScanNamedFindsBest(items, sents, |items|, true);
    ScanNamedFindsBest(items, sents, |items|, false);
    ArgBestFinds(sents, |items|, true);
    ArgBestFinds(sents, |items|, false);
    ArgBestIsFirstBest(sents, |items|, k, true);
    ArgBestIsFirstBest(sents, |items|, k, false);
  }

  /**
   * `bestUp` and `bestDown` are the changes of the first rows with the
   * greatest and the smallest delta among the counted rows whose current
   * and previous scores are both numbers, and are `null` exactly when no
   * row has both.
   */
  lemma InsightsMoves(h: Host, items: seq<Value>, prevMap: map<Value, PrevMetrics>, prevDateUsed: string, effectiveDate: string, k: nat)
    requires items != []
    ensures SummaryOf(h, items, prevMap, prevDateUsed, effectiveDate).value.bestUp.None? <==>
      forall j :: 0 <= j < |items| ==> MoveOf(h, prevMap, items[j]).None?
    ensures SummaryOf(h, items, prevMap, prevDateUsed, effectiveDate).value.bestDown.None? <==>
      forall j :: 0 <= j < |items| ==> MoveOf(h, prevMap, items[j]).None?
    ensures IsFirstBest(Deltas(Moves(h, prevMap, items)), |items|, k, true) ==>
      SummaryOf(h, items, prevMap, prevDateUsed, effectiveDate).value.bestUp == MoveOf(h, prevMap, items[k])
    ensures IsFirstBest(Deltas(Moves(h, prevMap, items)), |items|, k, false) ==>
      SummaryOf(h, items, prevMap, prevDateUsed, effectiveDate).value.bestDown == MoveOf(h, prevMap, items[k])
  {
    var deltas := Deltas(Moves(h, prevMap, items));
    ScanChangeFindsBest(Moves(h, prevMap, items), |items|, true);
    ScanChangeFindsBest(Moves(h, prevMap, items), |items|, false);
    ArgBestFinds(deltas, |items|, true);
    ArgBestFinds(deltas, |items|, false);
    ArgBestIsFirstBest(deltas, |items|, k, true);
    ArgBestIsFirstBest(deltas, |items|, k, false);
  }

  /** A change compares the current score with the previous-day record found by name, then by key. */
  lemma MoveOfMeaning(h: Host, prevMap: map<Value, PrevMetrics>, it: Value)
    ensures MoveOf(h, prevMap, it).Some? <==>
      Counted(it) && PickScore(h, it).Some? && PrevScore(h, prevMap, it).Some?
    ensures MoveOf(h, prevMap, it).Some? ==>
      && MoveOf(h, prevMap, it).value.name == DisplayName(it)
      && MoveOf(h, prevMap, it).value.curr == PickScore(h, it).value
      && MoveOf(h, prevMap, it).value.prev == PrevScore(h, prevMap, it).value
      && MoveOf(h, prevMap, it).value.delta == MoveOf(h, prevMap, it).value.curr - MoveOf(h, prevMap, it).value.prev
  {
  }

  /** The leader is the first row, skipped or not, and `hasPrev` needs a previous date and a non-empty map. */
  lemma InsightsLeaderAndPrev(h: Host, items: seq<Value>, prevMap: map<Value, PrevMetrics>, prevDateUsed: string, effectiveDate: string)
    requires items != []
    ensures SummaryOf(h, items, prevMap, prevDateUsed, effectiveDate).value.leader ==
      Leader(DisplayName(items[0]), PickScore(h, items[0]))
    ensures SummaryOf(h, items, prevMap, prevDateUsed, effectiveDate).value.hasPrev <==>
      prevDateUsed != "" && |prevMap| > 0
  {
  }

  // ------------------------------------------------------------ the pass

  /** `if (held === null || v > held) held = { name, value: v }` (with `<` when looking down). */
  method KeepNamed(held: Option<Named>, name: Value, v: real, up: bool) returns (r: Option<Named>)
    ensures r == Keep(held, name, Some(v), up)
  {
    r := held;
    if held.None? || Better(v, held.value.value, up) {
      r := Some(Named(name, v));
    }
  }

  /** `if (!held || move.delta > held.delta) held = move` (with `<` when looking down). */
  method KeepMove(held: Option<Move>, move: Move, up: bool) returns (r: Option<Move>)
    ensures r == KeepChange(held, Some(move), up)
  {
    r := held;
    if held.None? || Better(move.delta, held.value.delta, up) {
      r := Some(move);
    }
  }

  /** The change of a counted row, in terms of what the pass reads from it. */
  lemma MoveOfRow(h: Host, prevMap: map<Value, PrevMetrics>, it: Value, name: Value, prev: Option<PrevMetrics>, delta: real)
    requires Counted(it) && name == DisplayName(it)
    requires prev == PrevOf(prevMap, name, ClubKey(h, it, name))
    requires PickScore(h, it).Some? && prev.Some? && prev.value.score.Some? ==>
      delta == PickScore(h, it).value - prev.value.score.value
    ensures PickScore(h, it).Some? && prev.Some? && prev.value.score.Some? ==>
      MoveOf(h, prevMap, it) == Some(Move(name, delta, prev.value.score.value, PickScore(h, it).value))
    ensures !(PickScore(h, it).Some? && prev.Some? && prev.value.score.Some?) ==> MoveOf(h, prevMap, it).None?
  {
    var p := PrevScore(h, prevMap, it);
    assert p == (if prev.Some? then prev.value.score else None);
    if PickScore(h, it).Some? && p.Some? {
      var c := PickScore(h, it);
      assert MoveOf(h, prevMap, it) == Some(Move(name, c.value - p.value, p.value, c.value));
    }
  }

  /** The summary of some rows, field by field. */
  lemma SummaryOfRows(h: Host, items: seq<Value>, prevMap: map<Value, PrevMetrics>, prevDateUsed: string, effectiveDate: string)
    requires items != []
    ensures SummaryOf(h, items, prevMap, prevDateUsed, effectiveDate) == Some(Summary(
      Leader(DisplayName(items[0]), PickScore(h, items[0])),
      ScanNamed(items, Volumes(h, items), |items|, true),
      ScanNamed(items, Sentiments(h, items), |items|, true),
      ScanNamed(items, Sentiments(h, items), |items|, false),
      ScanChange(Moves(h, prevMap, items), |items|, true),
      ScanChange(Moves(h, prevMap, items), |items|, false),
      prevDateUsed != "" && |prevMap| > 0, effectiveDate, prevDateUsed))
  {
  }

  /**
   * The measures part of one visit: a row with a usable name offers its
   * volume and its sentiment to the three running bests.
   */
  method VisitMeasures(h: Host, it: Value, maxVol0: Option<Named>, bestSent0: Option<Named>, worstSent0: Option<Named>)
    returns (maxVol: Option<Named>, bestSent: Option<Named>, worstSent: Option<Named>)
    ensures maxVol == Keep(maxVol0, DisplayName(it), VolumeOf(h, it), true)
    ensures bestSent == Keep(bestSent0, DisplayName(it), SentimentOf(h, it), true)
    ensures worstSent == Keep(worstSent0, DisplayName(it), SentimentOf(h, it), false)
  {
    maxVol, bestSent, worstSent := maxVol0, bestSent0, worstSent0;
    var name := DisplayName(it);
    if Truthy(name) && name != Str(Dash) {
      var currVol := ToNumber(h, Get(it, "volume_total"));
      var currSent := ToNumber(h, Get(it, "sentiment_score"));
      if currVol.Some? {
        maxVol := KeepNamed(maxVol, name, currVol.value, true);
      }
      if currSent.Some? {
        bestSent := KeepNamed(bestSent, name, currSent.value, true);
        worstSent := KeepNamed(worstSent, name, currSent.value, false);
      }
    }
  }

  /**
   * The movement part of one visit: a row with a usable name, a score and
   * a previous score offers its score change to the two running bests.
   */
  method VisitMove(h: Host, prevMap: map<Value, PrevMetrics>, it: Value, bestUp0: Option<Move>, bestDown0: Option<Move>)
    returns (bestUp: Option<Move>, bestDown: Option<Move>)
    ensures bestUp == KeepChange(bestUp0, MoveOf(h, prevMap, it), true)
    ensures bestDown == KeepChange(bestDown0, MoveOf(h, prevMap, it), false)
  {
    bestUp, bestDown := bestUp0, bestDown0;
    var name := DisplayName(it);
    if Truthy(name) && name != Str(Dash) {
      var key := ClubKey(h, it, name);
      var currScore := PickScore(h, it);
      var prev := PrevOf(prevMap, name, key);
      var prevScore := if prev.Some? then prev.value.score else None;
      if currScore.Some? && prevScore.Some? {
        var delta := currScore.value - prevScore.value;
        MoveOfRow(h, prevMap, it, name, prev, delta);
        bestUp := KeepMove(bestUp, Move(name, delta, prevScore.value, currScore.value), true);
        bestDown := KeepMove(bestDown, Move(name, delta, prevScore.value, currScore.value), false);
      } else {
        MoveOfRow(h, prevMap, it, name, prev, 0.0);
      }
    } else {
      assert MoveOf(h, prevMap, it).None?;
    }
  }

  /** One more row moves each of the five running bests on by that row's reading. */
  lemma ScanRowsStep(h: Host, items: seq<Value>, prevMap: map<Value, PrevMetrics>, i: nat)
    requires i < |items|
    ensures ScanNamed(items, Volumes(h, items), i + 1, true) ==
      Keep(ScanNamed(items, Volumes(h, items), i, true), DisplayName(items[i]), VolumeOf(h, items[i]), true)
    ensures ScanNamed(items, Sentiments(h, items), i + 1, true) ==
      Keep(ScanNamed(items, Sentiments(h, items), i, true), DisplayName(items[i]), SentimentOf(h, items[i]), true)
    ensures ScanNamed(items, Sentiments(h, items), i + 1, false) ==
      Keep(ScanNamed(items, Sentiments(h, items), i, false), DisplayName(items[i]), SentimentOf(h, items[i]), false)
    ensures ScanChange(Moves(h, prevMap, items), i + 1, true) ==
      KeepChange(ScanChange(Moves(h, prevMap, items), i, true), MoveOf(h, prevMap, items[i]), true)
    ensures ScanChange(Moves(h, prevMap, items), i + 1, false) ==
      KeepChange(ScanChange(Moves(h, prevMap, items), i, false), MoveOf(h, prevMap, items[i]), false)
  {
  }

  /** The loop of the `insights` memo: after it, each running best is the first best over all rows. */
  method ScanRows(h: Host, items: seq<Value>, prevMap: map<Value, PrevMetrics>)
    returns (maxVol: Option<Named>, bestSent: Option<Named>, worstSent: Option<Named>,
             bestUp: Option<Move>, bestDown: Option<Move>)
    ensures maxVol == ScanNamed(items, Volumes(h, items), |items|, true)
    ensures bestSent == ScanNamed(items, Sentiments(h, items), |items|, true)
    ensures worstSent == ScanNamed(items, Sentiments(h, items), |items|, false)
    ensures bestUp == ScanChange(Moves(h, prevMap, items), |items|, true)
    ensures bestDown == ScanChange(Moves(h, prevMap, items), |items|, false)
  {
    maxVol, bestSent, worstSent, bestUp, bestDown := None, None, None, None, None;
    ghost var vols, sents, moves := Volumes(h, items), Sentiments(h, items), Moves(h, prevMap, items);
    var i := 0;
    while i < |items|
      invariant 0 <= i <= |items|
      invariant maxVol == ScanNamed(items, vols, i, true)
      invariant bestSent == ScanNamed(items, sents, i, true)
      invariant worstSent == ScanNamed(items, sents, i, false)
      invariant bestUp == ScanChange(moves, i, true)
      invariant bestDown == ScanChange(moves, i, false)
    {
      ScanRowsStep(h, items, prevMap, i);
      maxVol, bestSent, worstSent := VisitMeasures(h, items[i], maxVol, bestSent, worstSent);
      bestUp, bestDown := VisitMove(h, prevMap, items[i], bestUp, bestDown);
      i := i + 1;
    }
    assert i == |items|;
  }

  /** The `insights` memo: one pass over the rows, keeping the first best of each measure. */
  method ComputeInsights(h: Host, items: seq<Value>, prevMap: map<Value, PrevMetrics>, prevDateUsed: string, effectiveDate: string)
    returns (r: Option<Summary>)
    ensures r == SummaryOf(h, items, prevMap, prevDateUsed, effectiveDate)
  {
    if items == [] {
      return None;
    }
    var first := items[0];
    var leader := Leader(DisplayName(first), PickScore(h, first));
    var maxVol, bestSent, worstSent, bestUp, bestDown := ScanRows(h, items, prevMap);
    SummaryOfRows(h, items, prevMap, prevDateUsed, effectiveDate);
    r := Some(Summary(leader, maxVol, bestSent, worstSent, bestUp, bestDown,
                      prevDateUsed != "" && |prevMap| > 0, effectiveDate, prevDateUsed));
  }
}
