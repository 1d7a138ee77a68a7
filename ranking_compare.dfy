/**
 * The series comparison of the daily ranking page
 * (pulso-publico/components/Ranking.jsx): the cleaned series of the selected
 * labels are laid on one daily UTC axis from the earliest to the latest date,
 * each series becoming an array of the axis' length with `null` on the days
 * it has no point; and the day/month form of the axis' labels.
 */
module RankingCompare {
  import opened Wrappers
  import opened Js
  import opened Calendar
  import opened RankingUtils
  import Sorting

  /** `formatDayMonth`: `DD/MM` of a `YYYY-MM-DD` prefix, the prefix itself otherwise, `''` for `''`. */
  function FormatDayMonth(s: string): (r: string)
    ensures s == "" <==> r == ""
    ensures |r| <= 10
  {
    if s == "" then ""
    else
      var p := Prefix(s, 10);
      if YmdShape(p) then p[8..10] + "/" + p[5..7] else p
  }

  /** On the axis' labels, the day and month of the date, each with two digits. */
  lemma FormatDayMonthOfIso(d: Date)
    requires Valid(d) && 0 <= d.year <= 9999
    ensures FormatDayMonth(IsoDay(d)) == Fixed(d.day, 2) + "/" + Fixed(d.month, 2)
  {
    IsoDayParts(d);
    var s := IsoDay(d);
    assert Prefix(s, 10) == s;
    assert s[8..10] == Fixed(d.day, 2) && s[5..7] == Fixed(d.month, 2);
  }

  // ------------------------------------------------------------ the axis

  /** The days from `start` to `stop`, both included, one after the other. */
  function DayRange(start: Date, stop: Date): (r: seq<Date>)
    requires Valid(start) && Valid(stop)
    ensures forall i :: 0 <= i < |r| ==> Valid(r[i])
    decreases stop.year - start.year, 12 - start.month, 31 - start.day
  {
    if Before(stop, start) then []
    else [start] + DayRange(Next(start), stop)
  }

  /** Chronological order is total on dates. */
  lemma BeforeTotal(a: Date, b: Date)
    ensures a == b || Before(a, b) || Before(b, a)
  {
  }

  /** A date not before a date after `a` is after `a`. */
  lemma BeforeStep(a: Date, b: Date, c: Date)
    requires Before(a, b) && !Before(c, b)
    ensures Before(a, c)
  {
    BeforeTotal(b, c);
  }

  /**
   * The axis is contiguous: it starts at `start`, each day is followed by the
   * next one, and (when `start` is not after `stop`) it ends at `stop`.
   */
  lemma {:induction false} DayRangeContiguous(start: Date, stop: Date)
    requires Valid(start) && Valid(stop)
    ensures var r := DayRange(start, stop);
      && (r == [] <==> Before(stop, start))
      && (r != [] ==> r[0] == start && r[|r| - 1] == stop)
      && (forall i :: 0 <= i < |r| - 1 ==> r[i + 1] == Next(r[i]))
    decreases stop.year - start.year, 12 - start.month, 31 - start.day
  {
    if !Before(stop, start) {
      var next := Next(start);
      DayRangeContiguous(next, stop);
      if Before(stop, next) {
        NextIsImmediate(start, stop);
        BeforeTotal(start, stop);
      }
    }
  }

  /** Every day of the axis lies between `start` and `stop`, and the days strictly increase. */
  lemma {:induction false} DayRangeIncreasing(start: Date, stop: Date)
    requires Valid(start) && Valid(stop)
    ensures forall i :: 0 <= i < |DayRange(start, stop)| ==> !Before(DayRange(start, stop)[i], start)
    ensures forall i :: 0 <= i < |DayRange(start, stop)| ==> !Before(stop, DayRange(start, stop)[i])
    ensures forall i, j :: 0 <= i < j < |DayRange(start, stop)| ==> Before(DayRange(start, stop)[i], DayRange(start, stop)[j])
    decreases stop.year - start.year, 12 - start.month, 31 - start.day
  {
    if !Before(stop, start) {
      var r := DayRange(start, stop);
      var nx := Next(start);
      var rest := DayRange(nx, stop);
      DayRangeIncreasing(nx, stop);
      assert r == [start] + rest;
      forall k | 0 <= k < |rest| ensures Before(start, rest[k]) {
        BeforeStep(start, nx, rest[k]);
      }
      forall i, j | 0 <= i < j < |r| ensures Before(r[i], r[j]) {
        if i == 0 {
          assert r[j] == rest[j - 1];
        } else {
          assert r[i] == rest[i - 1] && r[j] == rest[j - 1];
        }
      }
    }
  }

  /** No day between `start` and `stop` is missing from the axis. */
  lemma {:induction false} DayRangeComplete(start: Date, stop: Date, x: Date)
    requires Valid(start) && Valid(stop) && Valid(x)
    requires !Before(x, start) && !Before(stop, x)
    ensures x in DayRange(start, stop)
    decreases stop.year - start.year, 12 - start.month, 31 - start.day
  {
    if x != start {
      BeforeTotal(x, start);
      NextIsImmediate(start, x);
      BeforeTotal(x, Next(start));
      if x != Next(start) {
        DayRangeComplete(Next(start), stop, x);
      } else {
        DayRangeContiguous(Next(start), stop);
      }
    }
  }

  /** Distinct dates of years 0 to 9999 have distinct ISO days. */
  lemma IsoDayInjective(d: Date, e: Date)
    requires Valid(d) && Valid(e) && 0 <= d.year <= 9999 && 0 <= e.year <= 9999
    requires IsoDay(d) == IsoDay(e)
    ensures d == e
  {
    IsoDayParts(d);
    IsoDayParts(e);
  }

  /**
   * `toUTCDate` of a `YYYY-MM-DD` string: `Date.UTC(y, m - 1, d)` of its
   * three numbers, normalised as `Date.UTC` does.
   */
  function ParseUtcDay(s: string): Option<Date> {
    if YmdShape(s) then Some(FromUtc(YearPart(s), MonthPart(s) - 1, DayPart(s))) else None
  }

  // ------------------------------------------------------------ the series

  /** One dataset of the chart: its label (`name`) and one value or `null` per axis day. */
  datatype Dataset = Dataset(name: string, data: seq<Option<real>>)

  /** `compareSelected.filter((label) => compareMap[label])`: the labels whose series is loaded. */
  function Selected(labels: seq<string>, series: map<string, seq<Point>>): (r: seq<string>)
    ensures forall l :: l in r ==> l in series
    ensures forall l :: l in labels && l in series ==> l in r
  {
    if labels == [] then []
    else
      var l := labels[|labels| - 1];
      Selected(labels[..|labels| - 1], series) + (if l in series then [l] else [])
  }

  /** The dates of the points of one series, in order. */
  function PointDates(points: seq<Point>): (r: seq<string>)
    ensures |r| == |points| && forall i :: 0 <= i < |r| ==> r[i] == points[i].date
  {
    seq(|points|, i requires 0 <= i < |points| => points[i].date)
  }

  /**
   * The dates of the points of the given series, series by series (the
   * `allDatesSet` of the source, with its repetitions kept: they change
   * neither the least nor the greatest date).
   */
  function DatesOf(selected: seq<string>, series: map<string, seq<Point>>): seq<string>
    requires forall l :: l in selected ==> l in series
  {
    if selected == [] then []
    else
      var l := selected[|selected| - 1];
      assert forall x :: x in selected[..|selected| - 1] ==> x in selected;
      DatesOf(selected[..|selected| - 1], series) + PointDates(series[l])
  }

  /** Every point of a selected series has its date collected. */
  lemma {:induction false} DatesOfComplete(selected: seq<string>, series: map<string, seq<Point>>, k: int, i: int)
    requires forall l :: l in selected ==> l in series
    requires 0 <= k < |selected| && 0 <= i < |series[selected[k]]|
    ensures series[selected[k]][i].date in DatesOf(selected, series)
  {
    var n := |selected| - 1;
    var init := selected[..n];
    assert forall x :: x in init ==> x in selected;
    if k < n {
      assert selected[k] == init[k];
      DatesOfComplete(init, series, k, i);
    } else {
      assert PointDates(series[selected[n]])[i] == series[selected[k]][i].date;
    }
  }

  /** Every collected date is the date of a point of a selected series. */
  lemma {:induction false} DatesOfSound(selected: seq<string>, series: map<string, seq<Point>>, j: int)
    requires forall l :: l in selected ==> l in series
    requires 0 <= j < |DatesOf(selected, series)|
    ensures exists k, i ::
      0 <= k < |selected| && 0 <= i < |series[selected[k]]| && series[selected[k]][i].date == DatesOf(selected, series)[j]
  {
    var n := |selected| - 1;
    var init := selected[..n];
    assert forall x :: x in init ==> x in selected;
    var d := DatesOf(selected, series)[j];
    var front := DatesOf(init, series);
    if j < |front| {
      assert front[j] == d;
      DatesOfSound(init, series, j);
      var k, i :| 0 <= k < |init| && 0 <= i < |series[init[k]]| && series[init[k]][i].date == d;
      assert selected[k] == init[k];
    } else {
      var i := j - |front|;
      assert PointDates(series[selected[n]])[i] == d;
    }
  }

  /** `new Map(points.map((r) => [r.date, r.value]))`: a later point of the same date overwrites. */
  function SeriesIndex(points: seq<Point>): map<string, real> {
    if points == [] then map[]
    else
      var p := points[|points| - 1];
      SeriesIndex(points[..|points| - 1])[p.date := p.value]
  }

  /** A date is indexed exactly when some point carries it, with the value of the last such point. */
  lemma {:induction false} SeriesIndexLast(points: seq<Point>, i: int)
    requires 0 <= i < |points|
    requires forall j :: i < j < |points| ==> points[j].date != points[i].date
    ensures points[i].date in SeriesIndex(points) && SeriesIndex(points)[points[i].date] == points[i].value
  {
    var n := |points| - 1;
    if i < n {
      var init := points[..n];
      assert init[i] == points[i];
      assert forall j :: i < j < |init| ==> init[j] == points[j];
      SeriesIndexLast(init, i);
    }
  }

  lemma {:induction false} SeriesIndexKeys(points: seq<Point>)
    ensures forall d :: d in SeriesIndex(points) <==> exists p :: p in points && p.date == d
  {
    if points != [] {
      var init := points[..|points| - 1];
      SeriesIndexKeys(init);
      assert points == init + [points[|points| - 1]];
    }
  }

  /** `labels.map((d) => (map.has(d) ? map.get(d) : null))`. */
  function Align(labels: seq<string>, index: map<string, real>): (r: seq<Option<real>>)
    ensures |r| == |labels|
    ensures forall i :: 0 <= i < |r| ==> (r[i].Some? <==> labels[i] in index)
    ensures forall i :: 0 <= i < |r| && r[i].Some? ==> r[i].value == index[labels[i]]
  {
    seq(|labels|, i requires 0 <= i < |labels| => if labels[i] in index then Some(index[labels[i]]) else None)
  }

  /**
   * The aligned data of one series: as long as the axis, and holding a number
   * on a day exactly when the series has a point of that day.
   */
  lemma AlignSeries(labels: seq<string>, points: seq<Point>)
    ensures var data := Align(labels, SeriesIndex(points));
      && |data| == |labels|
      && forall i :: 0 <= i < |data| ==> (data[i].Some? <==> exists p :: p in points && p.date == labels[i])
  {
    SeriesIndexKeys(points);
  }

  /** The axis' days: from the earliest to the latest date, when both read as dates. */
  function Axis(dates: seq<string>): (r: seq<Date>)
    ensures forall i :: 0 <= i < |r| ==> Valid(r[i])
  {
    if dates == [] then []
    else
      var sorted := Sorting.SortBy(dates, LexLess);
      Sorting.SortByPermutes(dates, LexLess);
      var lo, hi := ParseUtcDay(sorted[0]), ParseUtcDay(sorted[|sorted| - 1]);
      if lo.Some? && hi.Some? then DayRange(lo.value, hi.value) else []
  }

  /** Scalar-value order on strings is a strict weak ordering. */
  lemma LexLessIsStrictWeakOrder()
    ensures Sorting.StrictWeakOrder(LexLess)
  {
    forall x: string ensures !LexLess(x, x) {
      LexIrreflexive(x);
    }
    forall x: string, y: string, z: string | LexLess(x, y) && LexLess(y, z) ensures LexLess(x, z) {
      LexTransitive(x, y, z);
    }
    forall x: string, y: string, z: string | !LexLess(x, y) && !LexLess(y, z) ensures !LexLess(x, z) {
      LexNegTransitive(x, y, z);
    }
  }

  /**
   * The ends of the axis are the least and the greatest date string: the
   * first and last elements of the sorted dates are dates of the input, and
   * no date is below the first or above the last.
   */
  lemma SortedEnds(dates: seq<string>)
    requires dates != []
    ensures var sorted := Sorting.SortBy(dates, LexLess);
      && |sorted| == |dates|
      && sorted[0] in dates && sorted[|sorted| - 1] in dates
      && forall d :: d in dates ==> !LexLess(d, sorted[0]) && !LexLess(sorted[|sorted| - 1], d)
  {
    var sorted := Sorting.SortBy(dates, LexLess);
    Sorting.SortByPermutes(dates, LexLess);
    LexLessIsStrictWeakOrder();
    Sorting.SortBySorted(dates, LexLess);
    assert sorted[0] in multiset(dates) && sorted[|sorted| - 1] in multiset(dates);
    forall d | d in dates ensures !LexLess(d, sorted[0]) && !LexLess(sorted[|sorted| - 1], d) {
      assert d in multiset(sorted);
      var k :| 0 <= k < |sorted| && sorted[k] == d;
      if k > 0 {
        assert !LexLess(sorted[k], sorted[0]);
      }
      if k < |sorted| - 1 {
        assert !LexLess(sorted[|sorted| - 1], sorted[k]);
      }
    }
  }

  /** The label loop: `cur` runs from `lo` to `hi` one UTC day at a time. */
  method DayLabels(lo: Date, hi: Date) returns (labels: seq<string>)
    requires Valid(lo) && Valid(hi)
    ensures |labels| == |DayRange(lo, hi)|
    ensures forall i :: 0 <= i < |labels| ==> labels[i] == IsoDay(DayRange(lo, hi)[i])
  {
    labels := [];
    var cur := lo;
    ghost var days: seq<Date> := [];
    while !Before(hi, cur)
      invariant Valid(cur)
      invariant DayRange(lo, hi) == days + DayRange(cur, hi)
      invariant |labels| == |days|
      invariant forall i :: 0 <= i < |days| ==> Valid(days[i]) && labels[i] == IsoDay(days[i])
      decreases hi.year - cur.year, 12 - cur.month, 31 - cur.day
    {
      assert DayRange(cur, hi) == [cur] + DayRange(Next(cur), hi);
      assert days + DayRange(cur, hi) == (days + [cur]) + DayRange(Next(cur), hi);
      labels := labels + [IsoDay(cur)];
      days := days + [cur];
      cur := Next(cur);
    }
    assert DayRange(cur, hi) == [];
    assert days == DayRange(lo, hi);
  }

  /** `selected.map(...)`: one dataset per selected label, aligned on `labels`. */
  method AlignAll(selected: seq<string>, compareMap: map<string, seq<Point>>, labels: seq<string>)
    returns (datasets: seq<Dataset>)
    requires forall l :: l in selected ==> l in compareMap
    ensures |datasets| == |selected|
    ensures forall k :: 0 <= k < |datasets| ==>
      datasets[k] == Dataset(selected[k], Align(labels, SeriesIndex(compareMap[selected[k]])))
  {
    datasets := [];
    var k := 0;
    while k < |selected|
      invariant 0 <= k <= |selected|
      invariant |datasets| == k
      invariant forall j :: 0 <= j < k ==>
        datasets[j] == Dataset(selected[j], Align(labels, SeriesIndex(compareMap[selected[j]])))
    {
      var name := selected[k];
      var index := SeriesIndex(compareMap[name]);
      datasets := datasets + [Dataset(name, Align(labels, index))];
      k := k + 1;
    }
  }

  /**
   * `compareAligned`: no labels and no datasets when no selected label has
   * its series loaded or when those series have no point; otherwise one
   * label per day from the earliest to the latest date, and one dataset
   * per selected label, aligned on those days.
   */
  method CompareAligned(compareSelected: seq<string>, compareMap: map<string, seq<Point>>)
    returns (labels: seq<string>, datasets: seq<Dataset>)
    ensures var selected := Selected(compareSelected, compareMap);
      var dates := DatesOf(selected, compareMap);
      && (dates == [] ==> labels == [] && datasets == [])
      && (dates != [] ==>
        && |labels| == |Axis(dates)|
        && (forall i :: 0 <= i < |labels| ==> labels[i] == IsoDay(Axis(dates)[i]))
        && |datasets| == |selected|
        && forall k :: 0 <= k < |datasets| ==>
          datasets[k] == Dataset(selected[k], Align(labels, SeriesIndex(compareMap[selected[k]]))))
  {
    var selected := Selected(compareSelected, compareMap);
    if |selected| == 0 {
      return [], [];
    }
    var dates := DatesOf(selected, compareMap);
    if |dates| == 0 {
      return [], [];
    }
    var dateArr := Sorting.SortBy(dates, LexLess);
    Sorting.SortByPermutes(dates, LexLess);
    var lo, hi := ParseUtcDay(dateArr[0]), ParseUtcDay(dateArr[|dateArr| - 1]);
    ghost var axis := Axis(dates);
    assert axis == if lo.Some? && hi.Some? then DayRange(lo.value, hi.value) else [];
    if lo.Some? && hi.Some? {
      labels := DayLabels(lo.value, hi.value);
    } else {
      labels := [];
    }
    datasets := AlignAll(selected, compareMap, labels);
  }
}
