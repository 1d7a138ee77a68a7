/**
 * The shared row helpers of the dashboard (pulso-publico/lib/rankingUtils.js):
 * reading a club name from differently shaped rows, A/B label suffixes,
 * series cleanup, calendar-date strings, and the Top-N A/B comparison.
 */
module RankingUtils {
  import opened Wrappers
  import opened Js
  import opened Calendar
  import Sorting

  /** The "no name" marker. */
  const Dash: string := "\U{2014}"

  /** A name that is usable as a club key: truthy and not the marker. */
  predicate ValidName(n: Value) {
    Truthy(n) && n != Str(Dash)
  }

  /** A nested `club` object (or array) with a truthy `name` or `club_name`. */
  predicate NestedNamed(club: Value) {
    (club.Obj? || club.Arr?) && (Truthy(Get(club, "name")) || Truthy(Get(club, "club_name")))
  }

  /**
   * `getClubName`: nested `club.name ?? club.club_name` (when either is truthy),
   * then `club_name`, then `name`, then `club` as a string or its JSON, then the
   * first eight characters of `club_id` followed by an ellipsis, else the marker.
   * The result is never nullish; it is falsy only when a nested `club.name` is
   * defined but falsy while `club.club_name` is truthy (`??` keeps the former),
   * or when `JSON.stringify` gives an empty string (which it never does for a
   * truthy value).
   */
  function ClubName(h: Host, item: Value): (r: Value)
    ensures !Nullish(r)
    ensures !Truthy(r) ==>
      var club := Get(item, "club");
      || ((club.Obj? || club.Arr?) && !Nullish(Get(club, "name")) && !Truthy(Get(club, "name")))
      || h.stringify(club) == ""
    ensures Truthy(item) && !Truthy(Get(item, "club")) && !Truthy(Get(item, "club_name"))
            && !Truthy(Get(item, "name")) && Truthy(Get(item, "club_id"))
            ==> r.Str? && 1 <= |r.s| <= 9 && r.s[|r.s| - 1] == '\U{2026}'
  {
    var club := Get(item, "club");
    if !Truthy(item) then Str(Dash)
    else if NestedNamed(club) then Coalesce(Get(club, "name"), Get(club, "club_name"))
    else if Truthy(Get(item, "club_name")) then Get(item, "club_name")
    else if Truthy(Get(item, "name")) then Get(item, "name")
    else if Truthy(club) then (if club.Str? then club else Str(h.stringify(club)))
    else if Truthy(Get(item, "club_id")) then Str(Prefix(ToStr(h, Get(item, "club_id")), 8) + "\U{2026}")
    else Str(Dash)
  }

  /**
   * The order in which `getClubName` looks for a name: each clause is one
   * step of the fallback, and holds when no earlier step applies.
   */
  lemma ClubNameOrder(h: Host, item: Value)
    ensures !Truthy(item) ==> ClubName(h, item) == Str(Dash)
    ensures var club := Get(item, "club");
      Truthy(item) && NestedNamed(club) ==>
        ClubName(h, item) == if Nullish(Get(club, "name")) then Get(club, "club_name") else Get(club, "name")
    ensures Truthy(item) && !NestedNamed(Get(item, "club")) && Truthy(Get(item, "club_name"))
            ==> ClubName(h, item) == Get(item, "club_name")
    ensures Truthy(item) && !NestedNamed(Get(item, "club")) && !Truthy(Get(item, "club_name"))
            && Truthy(Get(item, "name"))
            ==> ClubName(h, item) == Get(item, "name")
    ensures var club := Get(item, "club");
      Truthy(item) && !NestedNamed(club) && !Truthy(Get(item, "club_name")) && !Truthy(Get(item, "name"))
      && Truthy(club)
      ==> ClubName(h, item) == if club.Str? then club else Str(h.stringify(club))
    ensures Truthy(item) && !Truthy(Get(item, "club")) && !Truthy(Get(item, "club_name"))
            && !Truthy(Get(item, "name")) && Truthy(Get(item, "club_id"))
            ==> ClubName(h, item) == Str(Prefix(ToStr(h, Get(item, "club_id")), 8) + "\U{2026}")
    ensures Truthy(item) && !Truthy(Get(item, "club")) && !Truthy(Get(item, "club_name"))
            && !Truthy(Get(item, "name")) && !Truthy(Get(item, "club_id"))
            ==> ClubName(h, item) == Str(Dash)
  {
  }

  /** `s` without its trailing `\s` characters. */
  function TrimEnd(s: string): (r: string)
    ensures |r| <= |s| && r == s[..|r|]
    ensures r == [] || !IsSpace(r[|r| - 1])
  {
    if s != [] && IsSpace(s[|s| - 1]) then TrimEnd(s[..|s| - 1]) else s
  }

  /** `/\((A|B)\)\s*$/` with the given letter. */
  predicate HasSuffix(text: string, tag: char) {
    var t := TrimEnd(text);
    |t| >= 3 && t[|t| - 3..] == ['(', tag, ')']
  }

  /** `isLabelA` */
  predicate IsLabelA(text: string) {
    HasSuffix(text, 'A')
  }

  /** `isLabelB` */
  predicate IsLabelB(text: string) {
    HasSuffix(text, 'B')
  }

  /** `stripAB`: drops one trailing "(A)" or "(B)" with the whitespace around it. */
  function StripAB(text: string): string {
    if IsLabelA(text) || IsLabelB(text) then
      var t := TrimEnd(text);
      TrimEnd(t[..|t| - 3])
    else text
  }

  predicate AllSpace(s: string) {
    forall i :: 0 <= i < |s| ==> IsSpace(s[i])
  }

  lemma {:induction false} TrimEndSpaces(n: string, pad: string)
    requires n == [] || !IsSpace(n[|n| - 1])
    requires AllSpace(pad)
    ensures TrimEnd(n + pad) == n
  {
    if pad == [] {
      assert n + pad == n;
    } else {
      assert (n + pad)[..|n + pad| - 1] == n + pad[..|pad| - 1];
      TrimEndSpaces(n, pad[..|pad| - 1]);
    }
  }

  /**
   * A label made of a name, optional whitespace and "(A)" or "(B)" (with
   * optional trailing whitespace) is recognised as an A or a B label, and
   * stripping it gives the name back.
   */
  lemma {:induction false} StripABRoundTrip(name: string, pad: string, tag: char, tail: string)
    requires name == [] || !IsSpace(name[|name| - 1])
    requires AllSpace(pad) && AllSpace(tail)
    requires tag == 'A' || tag == 'B'
    ensures var text := name + pad + ['(', tag, ')'] + tail;
      && IsLabelA(text) == (tag == 'A')
      && IsLabelB(text) == (tag == 'B')
      && StripAB(text) == name
  {
    var core := name + pad + ['(', tag, ')'];
    TrimEndSpaces(core, tail);
    assert core + tail == name + pad + ['(', tag, ')'] + tail;
    assert core[..|core| - 3] == name + pad;
    TrimEndSpaces(name, pad);
  }

  /** A label without either suffix is left as it is. */
  lemma StripABPlain(text: string)
    requires !IsLabelA(text) && !IsLabelB(text)
    ensures StripAB(text) == text
  {
  }

  // ---------------------------------------------------------------- series

  /** A cleaned series point. */
  datatype Point = Point(date: string, value: real)

  /** The items of a JSON array; anything else reads as no items. */
  function Items(v: Value): seq<Value> {
    if v.Arr? then v.items else []
  }

  /**
   * One input row as `normalizeSeries` maps and filters it: the date (when
   * truthy) as a string cut to ten characters, the value through `toNumber`;
   * the point is kept only when the date string is non-empty and the value
   * is a number.
   */
  function CleanPoint(h: Host, r: Value): Option<Point> {
    var date := Get(r, "date");
    var value := ToNumber(h, Get(r, "value"));
    if Truthy(date) && Prefix(ToStr(h, date), 10) != "" && value.Some? then
      Some(Point(Prefix(ToStr(h, date), 10), value.value))
    else None
  }

  function Cleaned(h: Host, rows: seq<Value>): (r: seq<Point>)
    ensures |r| <= |rows|
    ensures forall p :: p in r ==> 1 <= |p.date| <= 10
  {
    if rows == [] then []
    else
      Cleaned(h, rows[..|rows| - 1])
      + (match CleanPoint(h, rows[|rows| - 1]) case Some(p) => [p] case None => [])
  }

  /** Lexicographic order of Unicode scalar values, standing for `localeCompare` on date strings. */
  predicate LexLess(a: string, b: string) {
    if a == [] then b != []
    else if b == [] then false
    else if a[0] != b[0] then a[0] < b[0]
    else LexLess(a[1..], b[1..])
  }

  lemma {:induction false} LexIrreflexive(a: string)
    ensures !LexLess(a, a)
  {
    if a != [] {
      LexIrreflexive(a[1..]);
    }
  }

  lemma {:induction false} LexTransitive(a: string, b: string, c: string)
    requires LexLess(a, b) && LexLess(b, c)
    ensures LexLess(a, c)
  {
    if a != [] && b != [] && c != [] && a[0] == b[0] && b[0] == c[0] {
      LexTransitive(a[1..], b[1..], c[1..]);
    }
  }

  lemma {:induction false} LexTotal(a: string, b: string)
    ensures a == b || LexLess(a, b) || LexLess(b, a)
  {
    if a != [] && b != [] && a[0] == b[0] {
      LexTotal(a[1..], b[1..]);
      if a[1..] == b[1..] {
        assert a == [a[0]] + a[1..] && b == [b[0]] + b[1..];
      }
    }
  }

  /** The comparator of `normalizeSeries`: ascending by date. */
  predicate DateBefore(p: Point, q: Point) {
    LexLess(p.date, q.date)
  }

  lemma {:induction false} LexAsymmetric(a: string, b: string)
    requires LexLess(a, b)
    ensures !LexLess(b, a)
  {
    if a != [] && b != [] && a[0] == b[0] {
      LexAsymmetric(a[1..], b[1..]);
    }
  }

  lemma LexNegTransitive(a: string, b: string, c: string)
    requires !LexLess(a, b) && !LexLess(b, c)
    ensures !LexLess(a, c)
  {
    LexTotal(a, b);
    LexTotal(b, c);
    if a == b {
      if b == c { LexIrreflexive(a); } else { LexAsymmetric(c, b); }
    } else if b == c {
      LexAsymmetric(b, a);
    } else {
      LexTransitive(c, b, a);
      LexAsymmetric(c, a);
    }
  }

  lemma DateBeforeIsStrictWeakOrder()
    ensures Sorting.StrictWeakOrder(DateBefore)
  {
    forall x: Point ensures !DateBefore(x, x) {
      LexIrreflexive(x.date);
    }
    forall x: Point, y: Point, z: Point | DateBefore(x, y) && DateBefore(y, z)
      ensures DateBefore(x, z)
    {
      LexTransitive(x.date, y.date, z.date);
    }
    forall x: Point, y: Point, z: Point | !DateBefore(x, y) && !DateBefore(y, z)
      ensures !DateBefore(x, z)
    {
      LexNegTransitive(x.date, y.date, z.date);
    }
  }

  /**
   * `normalizeSeries`: the rows of an array with a date and a numeric value,
   * sorted in place by date, stably. The result is sorted ascending, is a
   * permutation of the kept points, keeps input order among equal dates, and
   * is no longer than the input.
   */
  method NormalizeSeries(h: Host, series: Value) returns (out: seq<Point>)
    ensures out == Sorting.SortBy(Cleaned(h, Items(series)), DateBefore)
    ensures Sorting.Sorted(out, DateBefore)
    ensures multiset(out) == multiset(Cleaned(h, Items(series)))
    ensures forall p: Point :: Sorting.Class(out, p, DateBefore) == Sorting.Class(Cleaned(h, Items(series)), p, DateBefore)
    ensures |out| <= |Items(series)|
    ensures forall p :: p in out ==> 1 <= |p.date| <= 10
  {
    var kept := Cleaned(h, Items(series));
    var arr := new Point[|kept|](k requires 0 <= k < |kept| => kept[k]);
    assert arr[..] == kept;
    Sorting.SortInPlace(arr, DateBefore);
    out := arr[..];
    DateBeforeIsStrictWeakOrder();
    Sorting.SortBySorted(kept, DateBefore);
    Sorting.SortByPermutes(kept, DateBefore);
    forall p: Point ensures Sorting.Class(out, p, DateBefore) == Sorting.Class(kept, p, DateBefore) {
      Sorting.SortByStable(kept, p, DateBefore);
    }
    forall p | p in out ensures 1 <= |p.date| <= 10 {
      assert p in multiset(kept);
    }
  }

  // ------------------------------------------------------------------ dates

  /**
   * `parseYYYYMMDD`: a string of the shape `YYYY-MM-DD` with a non-zero year,
   * month and day, read through `Date.UTC` (which normalises overflowing
   * months and days and reads years 1 to 99 as 1901 to 1999).
   */
  function ParseYmd(s: string): (r: Option<Date>)
    ensures r.Some? ==> Valid(r.value)
  {
    if s == "" || !YmdShape(s) then None
    else if YearPart(s) == 0 || MonthPart(s) == 0 || DayPart(s) == 0 then None
    else Some(FromUtc(YearPart(s), MonthPart(s) - 1, DayPart(s)))
  }

  /** `formatYYYYMMDD`: the year as `String` writes it, month and day padded to two digits. */
  function FormatYmd(d: Date): string
    requires Valid(d)
  {
    IntToString(d.year) + "-" + PadStart2(NatToString(d.month)) + "-" + PadStart2(NatToString(d.day))
  }

  /** `prevDay`: the day before, or the empty string when the input does not parse. */
  function PrevDay(s: string): string {
    match ParseYmd(s)
    case None => ""
    case Some(d) => FormatYmd(Prev(d))
  }

  /** Month and day are always written with two digits; a four-digit year makes the ISO form. */
  lemma FormatYmdPadded(d: Date)
    requires Valid(d)
    ensures FormatYmd(d) == IntToString(d.year) + "-" + Fixed(d.month, 2) + "-" + Fixed(d.day, 2)
    ensures 1000 <= d.year <= 9999 ==> FormatYmd(d) == IsoDay(d) && |FormatYmd(d)| == 10
  {
    PadStart2Fixed(d.month);
    PadStart2Fixed(d.day);
    if 1000 <= d.year <= 9999 {
      NatToStringFourDigits(d.year);
    }
  }

  /** The ISO form of a date of years 1 to 9999 parses through `Date.UTC` with its own parts. */
  lemma ParseIso(d: Date)
    requires Valid(d) && 1 <= d.year <= 9999
    ensures ParseYmd(IsoDay(d)) == Some(FromUtc(d.year, d.month - 1, d.day))
  {
    IsoDayParts(d);
  }

  /** Parsing the ISO form of a real date of years 100 to 9999 gives that date back. */
  lemma ParseIsoDay(d: Date)
    requires Valid(d) && 100 <= d.year <= 9999
    ensures ParseYmd(IsoDay(d)) == Some(d)
  {
    ParseIso(d);
    FromUtcOfValid(d);
  }

  /** Years 1 to 99 are read as 1901 to 1999, as `Date.UTC` does. */
  lemma ParseTwoDigitYear(d: Date)
    requires Valid(d) && 1 <= d.year <= 99
    ensures ParseYmd(IsoDay(d)) == Some(Date(1900 + d.year, d.month, d.day))
  {
    ParseIso(d);
    FromUtcTwoDigitDate(d);
  }

  /** The empty string, a wrong shape, or a zero part gives no date, and then no previous day. */
  lemma PrevDayRejects(s: string)
    ensures (s == "" || !YmdShape(s)) ==> ParseYmd(s) == None
    ensures YmdShape(s) && (YearPart(s) == 0 || MonthPart(s) == 0 || DayPart(s) == 0) ==> ParseYmd(s) == None
    ensures PrevDay(s) == "" <==> ParseYmd(s) == None
  {
    match ParseYmd(s)
    case None =>
    case Some(d) =>
      assert |FormatYmd(Prev(d))| > 0;
  }

  /**
   * For a real date with four-digit years on both sides, `prevDay` gives the
   * preceding calendar day in `YYYY-MM-DD` form, across month and year ends,
   * and that string parses back to the preceding day.
   */
  lemma PrevDayOfIso(d: Date)
    requires Valid(d) && d.year <= 9999 && Prev(d).year >= 1000
    ensures PrevDay(IsoDay(d)) == IsoDay(Prev(d))
    ensures ParseYmd(PrevDay(IsoDay(d))) == Some(Prev(d))
  {
    ParseIsoDay(d);
    FormatYmdPadded(Prev(d));
    ParseIsoDay(Prev(d));
  }

  /** `formatDateBR`: `DD/MM/YYYY`, the marker for an empty input, otherwise the first ten characters. */
  function FormatDateBR(s: string): (r: string)
    ensures s == "" ==> r == Dash
    ensures s != "" && !YmdShape(Prefix(s, 10)) ==> r == Prefix(s, 10)
  {
    if s == "" then Dash
    else
      var t := Prefix(s, 10);
      if YmdShape(t) then t[8..10] + "/" + t[5..7] + "/" + t[..4] else t
  }

  /** A date in ISO form is shown day first. */
  lemma FormatDateBROfIso(d: Date)
    requires Valid(d) && 0 <= d.year <= 9999
    ensures FormatDateBR(IsoDay(d)) == Fixed(d.day, 2) + "/" + Fixed(d.month, 2) + "/" + Fixed(d.year, 4)
  {
    IsoDayParts(d);
    var s := IsoDay(d);
    assert s[8..10] == Fixed(d.day, 2) && s[5..7] == Fixed(d.month, 2) && s[..4] == Fixed(d.year, 4);
  }

  // ------------------------------------------------------------ A/B summary

  /** The usable names of a slice, in order (`items.map(getClubName).filter(...)`). */
  function Names(h: Host, items: seq<Value>): (r: seq<Value>)
    ensures forall i :: 0 <= i < |r| ==> ValidName(r[i])
  {
    if items == [] then []
    else
      var n := ClubName(h, items[|items| - 1]);
      Names(h, items[..|items| - 1]) + (if ValidName(n) then [n] else [])
  }

  /** The elements of `xs` that are not in `ys`, in the order of `xs`. */
  function Absent(xs: seq<Value>, ys: seq<Value>): (r: seq<Value>) {
    if xs == [] then []
    else Absent(xs[..|xs| - 1], ys) + (if xs[|xs| - 1] in ys then [] else [xs[|xs| - 1]])
  }

  /** The elements of `xs` that are in `ys`, in the order of `xs`. */
  function Present(xs: seq<Value>, ys: seq<Value>): (r: seq<Value>) {
    if xs == [] then []
    else Present(xs[..|xs| - 1], ys) + (if xs[|xs| - 1] in ys then [xs[|xs| - 1]] else [])
  }

  /** `Absent` keeps exactly the elements missing from the other list. */
  lemma {:induction false} AbsentMembers(xs: seq<Value>, ys: seq<Value>)
    ensures forall x :: x in Absent(xs, ys) <==> x in xs && x !in ys
    ensures |Absent(xs, ys)| <= |xs|
  {
    if xs != [] {
      AbsentMembers(xs[..|xs| - 1], ys);
      assert xs == xs[..|xs| - 1] + [xs[|xs| - 1]];
    }
  }

  /** The per-name score and rank that the comparison reads. */
  datatype Stats = Stats(score: Option<real>, rank: Option<real>)

  /** `new Map(items.map(...))`: a later row with the same name overwrites an earlier one. */
  function StatsMap(h: Host, items: seq<Value>): map<Value, Stats> {
    if items == [] then map[]
    else
      var it := items[|items| - 1];
      StatsMap(h, items[..|items| - 1])[ClubName(h, it) :=
        Stats(ToNumber(h, Coalesce(Get(it, "score"), Get(it, "iap"))), ToNumber(h, Get(it, "rank_position")))]
  }

  datatype DeltaRow = DeltaRow(name: Value, delta: real, aScore: real, bScore: real, aRank: Option<real>, bRank: Option<real>)

  datatype Mover = Mover(name: Value, delta: real)

  datatype AbSummary = AbSummary(
    entered: seq<Value>,
    exited: seq<Value>,
    bestUp: Option<Mover>,
    bestDown: Option<Mover>,
    deltas: seq<DeltaRow>)

  /** The row of one common name, when both of its scores are numbers. */
  function DeltaRowFor(n: Value, am: map<Value, Stats>, bm: map<Value, Stats>): seq<DeltaRow> {
    if n in am && n in bm && am[n].score.Some? && bm[n].score.Some? then
      [DeltaRow(n, bm[n].score.value - am[n].score.value, am[n].score.value, bm[n].score.value, am[n].rank, bm[n].rank)]
    else []
  }

  /** The computable rows of the common names, in the order of the names. */
  function DeltaRows(names: seq<Value>, am: map<Value, Stats>, bm: map<Value, Stats>): seq<DeltaRow> {
    if names == [] then []
    else DeltaRows(names[..|names| - 1], am, bm) + DeltaRowFor(names[|names| - 1], am, bm)
  }

  /** Every row is for a common name with numbers on both sides, and its delta is B minus A. */
  lemma {:induction false} DeltaRowsMeaning(names: seq<Value>, am: map<Value, Stats>, bm: map<Value, Stats>)
    ensures forall r :: r in DeltaRows(names, am, bm) ==>
      && r.name in names && r.name in am && r.name in bm
      && am[r.name].score == Some(r.aScore) && bm[r.name].score == Some(r.bScore)
      && r.delta == r.bScore - r.aScore
    ensures forall n :: n in names && n in am && n in bm && am[n].score.Some? && bm[n].score.Some? ==>
      exists r :: r in DeltaRows(names, am, bm) && r.name == n
  {
    if names != [] {
      var init := names[..|names| - 1];
      DeltaRowsMeaning(init, am, bm);
      assert names == init + [names[|names| - 1]];
      forall n | n in names && n in am && n in bm && am[n].score.Some? && bm[n].score.Some?
        ensures exists r :: r in DeltaRows(names, am, bm) && r.name == n
      {
        if n in init {
          var r :| r in DeltaRows(init, am, bm) && r.name == n;
          assert r in DeltaRows(names, am, bm);
        } else {
          assert DeltaRowFor(n, am, bm)[0] in DeltaRows(names, am, bm);
        }
      }
    }
  }

  /** The comparator of the `deltas` sort: descending by delta. */
  predicate DeltaBefore(x: DeltaRow, y: DeltaRow) {
    x.delta > y.delta
  }

  lemma DeltaBeforeIsStrictWeakOrder()
    ensures Sorting.StrictWeakOrder(DeltaBefore)
  {
  }

  /** `k` is the first row with the greatest delta. */
  ghost predicate FirstMaxDelta(rows: seq<DeltaRow>, k: int) {
    && 0 <= k < |rows|
    && (forall j :: 0 <= j < |rows| ==> rows[j].delta <= rows[k].delta)
    && (forall j :: 0 <= j < k ==> rows[j].delta < rows[k].delta)
  }

  /** `k` is the first row with the least delta. */
  ghost predicate FirstMinDelta(rows: seq<DeltaRow>, k: int) {
    && 0 <= k < |rows|
    && (forall j :: 0 <= j < |rows| ==> rows[k].delta <= rows[j].delta)
    && (forall j :: 0 <= j < k ==> rows[k].delta < rows[j].delta)
  }

  /** The running "best up" of the scan: replaced only on a strictly greater delta. */
  function BestUp(rows: seq<DeltaRow>): Option<Mover> {
    if rows == [] then None
    else
      var p := BestUp(rows[..|rows| - 1]);
      var last := rows[|rows| - 1];
      if p.None? || last.delta > p.value.delta then Some(Mover(last.name, last.delta)) else p
  }

  /** The running "best down" of the scan: replaced only on a strictly smaller delta. */
  function BestDown(rows: seq<DeltaRow>): Option<Mover> {
    if rows == [] then None
    else
      var p := BestDown(rows[..|rows| - 1]);
      var last := rows[|rows| - 1];
      if p.None? || last.delta < p.value.delta then Some(Mover(last.name, last.delta)) else p
  }

  /** One more delta row replaces each running best only on a strictly better delta. */
  lemma BestStep(rows: seq<DeltaRow>, row: DeltaRow)
    ensures var p := BestUp(rows);
      BestUp(rows + [row]) == if p.None? || row.delta > p.value.delta then Some(Mover(row.name, row.delta)) else p
    ensures var p := BestDown(rows);
      BestDown(rows + [row]) == if p.None? || row.delta < p.value.delta then Some(Mover(row.name, row.delta)) else p
  {
    assert (rows + [row])[..|rows|] == rows;
  }

  /** The best up is absent only without rows, and otherwise is the first row of greatest delta. */
  lemma {:induction false} BestUpIsFirstMax(rows: seq<DeltaRow>)
    ensures BestUp(rows).None? <==> rows == []
    ensures rows != [] ==> exists k :: FirstMaxDelta(rows, k) && BestUp(rows).value == Mover(rows[k].name, rows[k].delta)
  {
    if rows != [] {
      var init := rows[..|rows| - 1];
      var last := rows[|rows| - 1];
      BestUpIsFirstMax(init);
      if init == [] {
        assert FirstMaxDelta(rows, 0);
      } else {
        var k :| FirstMaxDelta(init, k) && BestUp(init).value == Mover(init[k].name, init[k].delta);
        assert forall j :: 0 <= j < |init| ==> rows[j] == init[j];
        if last.delta > init[k].delta {
          assert FirstMaxDelta(rows, |rows| - 1);
        } else {
          assert FirstMaxDelta(rows, k);
        }
      }
    }
  }

  /** The best down is absent only without rows, and otherwise is the first row of least delta. */
  lemma {:induction false} BestDownIsFirstMin(rows: seq<DeltaRow>)
    ensures BestDown(rows).None? <==> rows == []
    ensures rows != [] ==> exists k :: FirstMinDelta(rows, k) && BestDown(rows).value == Mover(rows[k].name, rows[k].delta)
  {
    if rows != [] {
      var init := rows[..|rows| - 1];
      var last := rows[|rows| - 1];
      BestDownIsFirstMin(init);
      if init == [] {
        assert FirstMinDelta(rows, 0);
      } else {
        var k :| FirstMinDelta(init, k) && BestDown(init).value == Mover(init[k].name, init[k].delta);
        assert forall j :: 0 <= j < |init| ==> rows[j] == init[j];
        if last.delta < init[k].delta {
          assert FirstMinDelta(rows, |rows| - 1);
        } else {
          assert FirstMinDelta(rows, k);
        }
      }
    }
  }

  /** One computable row of the scan: each running best moves to the row only on a strictly better delta. */
  method KeepDelta(rows: seq<DeltaRow>, bestUp0: Option<Mover>, bestDown0: Option<Mover>, row: DeltaRow)
    returns (bestUp: Option<Mover>, bestDown: Option<Mover>)
    requires bestUp0 == BestUp(rows) && bestDown0 == BestDown(rows)
    ensures bestUp == BestUp(rows + [row]) && bestDown == BestDown(rows + [row])
  {
    BestStep(rows, row);
    bestUp, bestDown := bestUp0, bestDown0;
    if bestUp.None? || row.delta > bestUp.value.delta {
      bestUp := Some(Mover(row.name, row.delta));
    }
    if bestDown.None? || row.delta < bestDown.value.delta {
      bestDown := Some(Mover(row.name, row.delta));
    }
  }

  /**
   * The loop of `buildAbSummary` over the common names: it collects the rows
   * whose two scores are numbers and keeps the first-occurring greatest and
   * least delta (strict comparisons), or none when no row is computable.
   */
  method ScanDeltas(common: seq<Value>, aMap: map<Value, Stats>, bMap: map<Value, Stats>)
    returns (deltas: seq<DeltaRow>, bestUp: Option<Mover>, bestDown: Option<Mover>)
    ensures deltas == DeltaRows(common, aMap, bMap)
    ensures bestUp == BestUp(deltas) && bestDown == BestDown(deltas)
  {
    bestUp, bestDown := None, None;
    deltas := [];
    var i := 0;
    while i < |common|
      invariant 0 <= i <= |common|
      invariant deltas == DeltaRows(common[..i], aMap, bMap)
      invariant bestUp == BestUp(deltas)
      invariant bestDown == BestDown(deltas)
    {
      var name := common[i];
      assert common[..i + 1] == common[..i] + [name];
      var add := DeltaRowFor(name, aMap, bMap);
      assert DeltaRows(common[..i + 1], aMap, bMap) == deltas + add;
      if add != [] {
        bestUp, bestDown := KeepDelta(deltas, bestUp, bestDown, add[0]);
        deltas := deltas + [add[0]];
      }
      i := i + 1;
    }
    assert common[..|common|] == common;
  }

  /** Sorts the delta rows in place, descending by delta and stably. */
  method SortDeltas(deltas: seq<DeltaRow>) returns (sorted: seq<DeltaRow>)
    ensures sorted == Sorting.SortBy(deltas, DeltaBefore)
    ensures Sorting.Sorted(sorted, DeltaBefore)
    ensures multiset(sorted) == multiset(deltas)
  {
    var arr := new DeltaRow[|deltas|](k requires 0 <= k < |deltas| => deltas[k]);
    assert arr[..] == deltas;
    Sorting.SortInPlace(arr, DeltaBefore);
    sorted := arr[..];
    DeltaBeforeIsStrictWeakOrder();
    Sorting.SortBySorted(deltas, DeltaBefore);
    Sorting.SortByPermutes(deltas, DeltaBefore);
  }

  /**
   * `buildAbSummary`: names entering and leaving the Top-N slice, and the
   * deltas of the common names (see `ScanDeltas`) sorted descending.
   */
  method BuildAbSummary(h: Host, aItems: seq<Value>, bItems: seq<Value>) returns (s: AbSummary)
    ensures s.entered == Absent(Names(h, bItems), Names(h, aItems))
    ensures s.exited == Absent(Names(h, aItems), Names(h, bItems))
    ensures var rows := DeltaRows(Present(Names(h, aItems), Names(h, bItems)), StatsMap(h, aItems), StatsMap(h, bItems));
      && s.deltas == Sorting.SortBy(rows, DeltaBefore)
      && Sorting.Sorted(s.deltas, DeltaBefore)
      && multiset(s.deltas) == multiset(rows)
      && s.bestUp == BestUp(rows) && s.bestDown == BestDown(rows)
  {
    var aNames := Names(h, aItems);
    var bNames := Names(h, bItems);
    var deltas, bestUp, bestDown := ScanDeltas(Present(aNames, bNames), StatsMap(h, aItems), StatsMap(h, bItems));
    var sorted := SortDeltas(deltas);
    s := AbSummary(Absent(bNames, aNames), Absent(aNames, bNames), bestUp, bestDown, sorted);
  }
}
