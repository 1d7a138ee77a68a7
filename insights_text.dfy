/**
 * The local helpers of the insights panel
 * (pulso-publico/components/InsightsPanel.jsx): the display name of a row,
 * the normalized club key used as a second lookup key, and the score a row
 * is read with.
 */
module InsightsText {
  import opened Wrappers
  import opened Js
  import opened RankingUtils

  // ------------------------------------------------------------ display name

  /** The fields `getDisplayName` tries, in order. */
  function NameCandidates(it: Value): seq<Value> {
    var club := Get(it, "club");
    [Get(club, "name"), Get(it, "club_name"), Get(it, "name"), club, Get(it, "label")]
  }

  /** The first truthy value of `xs`, or `fallback` when there is none. */
  function FirstTruthy(xs: seq<Value>, fallback: Value): (r: Value)
    ensures r in xs || r == fallback
  {
    if xs == [] then fallback
    else if Truthy(xs[0]) then xs[0]
    else FirstTruthy(xs[1..], fallback)
  }

  /** The fallback chain of five values, one value at a time. */
  lemma FirstTruthyUnfold(xs: seq<Value>, fallback: Value)
    requires |xs| == 5
    ensures FirstTruthy(xs, fallback) ==
      if Truthy(xs[0]) then xs[0] else if Truthy(xs[1]) then xs[1] else if Truthy(xs[2]) then xs[2]
      else if Truthy(xs[3]) then xs[3] else if Truthy(xs[4]) then xs[4] else fallback
  {
    assert xs[4..][1..] == [];
    assert FirstTruthy(xs[4..], fallback) == if Truthy(xs[4]) then xs[4] else fallback;
    assert xs[3..][1..] == xs[4..];
    assert FirstTruthy(xs[3..], fallback) == if Truthy(xs[3]) then xs[3] else FirstTruthy(xs[4..], fallback);
    assert xs[2..][1..] == xs[3..];
    assert FirstTruthy(xs[2..], fallback) == if Truthy(xs[2]) then xs[2] else FirstTruthy(xs[3..], fallback);
    assert xs[1..][1..] == xs[2..];
    assert FirstTruthy(xs[1..], fallback) == if Truthy(xs[1]) then xs[1] else FirstTruthy(xs[2..], fallback);
  }

  /**
   * `getDisplayName`: `club.name`, `club_name`, `name`, `club`, `label`,
   * whichever is truthy first, else the marker. The result is always truthy.
   */
  function DisplayName(it: Value): (r: Value)
    ensures Truthy(r)
  {
    var club := Get(it, "club");
    Or(And(it, Or(Or(Or(Or(And(club, Get(club, "name")), Get(it, "club_name")), Get(it, "name")), club), Get(it, "label"))),
       Str(Dash))
  }

  /** The display name is the first truthy candidate field, else the marker. */
  lemma DisplayNameIsFirstTruthy(it: Value)
    ensures DisplayName(it) == FirstTruthy(NameCandidates(it), Str(Dash))
  {
    FirstTruthyUnfold(NameCandidates(it), Str(Dash));
  }

  // ------------------------------------------------------------ club key

  /** `s` without its leading `\s` characters. */
  function DropSpaces(s: string): (r: string)
    ensures |r| <= |s| && r == s[|s| - |r|..]
    ensures r == [] || !IsSpace(r[0])
    ensures forall i :: 0 <= i < |s| - |r| ==> IsSpace(s[i])
  {
    if s != [] && IsSpace(s[0]) then DropSpaces(s[1..]) else s
  }

  /** `s.trim()` */
  function Trim(s: string): (r: string)
    ensures r == [] || (!IsSpace(r[0]) && !IsSpace(r[|r| - 1]))
  {
    DropSpaces(TrimEnd(s))
  }

  /** `s.replace(/\s+/g, ' ')`: every run of `\s` characters becomes one space. */
  function Collapse(s: string): (r: string)
    ensures |r| <= |s|
    decreases |s|
  {
    if s == [] then []
    else if IsSpace(s[0]) then [' '] + Collapse(DropSpaces(s[1..]))
    else [s[0]] + Collapse(s[1..])
  }

  /** Every `\s` character is a plain space and no two of them are adjacent. */
  predicate SingleSpaced(s: string) {
    && (forall i :: 0 <= i < |s| && IsSpace(s[i]) ==> s[i] == ' ')
    && (forall i :: 0 <= i < |s| - 1 ==> !IsSpace(s[i]) || !IsSpace(s[i + 1]))
  }

  /** Single-spaced, with no space at either end. */
  predicate Tidy(s: string) {
    SingleSpaced(s) && (s != [] ==> !IsSpace(s[0]) && !IsSpace(s[|s| - 1]))
  }

  /** The non-space characters of `s`, in order. */
  function NonSpaces(s: string): (r: string)
    ensures forall i :: 0 <= i < |r| ==> !IsSpace(r[i])
  {
    if s == [] then []
    else (if IsSpace(s[0]) then [] else [s[0]]) + NonSpaces(s[1..])
  }

  /** Collapsing keeps the first and the last character's kind (space or not). */
  lemma {:induction false} CollapseEnds(s: string)
    ensures Collapse(s) == [] <==> s == []
    ensures s != [] ==> (IsSpace(Collapse(s)[0]) <==> IsSpace(s[0]))
    ensures s != [] ==> (IsSpace(Collapse(s)[|Collapse(s)| - 1]) <==> IsSpace(s[|s| - 1]))
    decreases |s|
  {
    if s != [] {
      if IsSpace(s[0]) {
        var t := DropSpaces(s[1..]);
        CollapseEnds(t);
        if t != [] {
          assert t[|t| - 1] == s[|s| - 1];
        } else {
          assert IsSpace(s[|s| - 1]) by {
            if |s| > 1 {
              assert s[1..][|s| - 2] == s[|s| - 1];
            }
          }
        }
      } else {
        CollapseEnds(s[1..]);
        if |s| > 1 {
          assert s[1..][|s| - 2] == s[|s| - 1];
        }
      }
    }
  }

  /** Collapsing leaves single spaces only. */
  lemma {:induction false} CollapseSingleSpaced(s: string)
    ensures SingleSpaced(Collapse(s))
    decreases |s|
  {
    if s != [] {
      var r := Collapse(s);
      if IsSpace(s[0]) {
        var t := DropSpaces(s[1..]);
        CollapseSingleSpaced(t);
        CollapseEnds(t);
        assert r == [' '] + Collapse(t);
      } else {
        CollapseSingleSpaced(s[1..]);
        assert r == [s[0]] + Collapse(s[1..]);
      }
    }
  }

  /** Concatenation regrouped: a prefix taken out of a three-part sequence. */
  lemma Regroup(p: string, q: string, u: string, v: string)
    ensures p + (q + u + v) == (p + q) + u + v
  {
  }

  /** Dropping leading spaces stops inside `x` when `x` ends with a non-space, so `y` is untouched. */
  lemma {:induction false} DropSpacesAppend(x: string, y: string)
    requires x != [] && !IsSpace(x[|x| - 1])
    ensures DropSpaces(x + y) == DropSpaces(x) + y
    decreases |x|
  {
    if IsSpace(x[0]) {
      assert (x + y)[1..] == x[1..] + y;
      DropSpacesAppend(x[1..], y);
    }
  }

  /** A run of spaces in front of text that does not start with one is dropped whole. */
  lemma {:induction false} DropSpacesRun(w: string, b: string)
    requires forall i :: 0 <= i < |w| ==> IsSpace(w[i])
    requires b == [] || !IsSpace(b[0])
    ensures DropSpaces(w + b) == b
    decreases |w|
  {
    if w == [] {
      assert w + b == b;
    } else {
      assert (w + b)[1..] == w[1..] + b;
      DropSpacesRun(w[1..], b);
    }
  }

  /**
   * A whitespace run between two pieces of text becomes exactly one space:
   * it neither vanishes nor stays longer, so the words on either side of
   * it stay apart.
   */
  lemma {:induction false} CollapseGap(a: string, w: string, b: string)
    requires w != [] && forall i :: 0 <= i < |w| ==> IsSpace(w[i])
    requires a == [] || !IsSpace(a[|a| - 1])
    requires b == [] || !IsSpace(b[0])
    ensures Collapse(a + (w + b)) == Collapse(a) + [' '] + Collapse(b)
    decreases |a|, 1
  {
    if a == [] {
      assert Collapse(a + (w + b)) == [' '] + Collapse(b) by {
        var s := w + b;
        assert a + s == s && s[0] == w[0];
        assert s[1..] == w[1..] + b;
        DropSpacesRun(w[1..], b);
      }
      assert Collapse(a) + [' '] + Collapse(b) == [' '] + Collapse(b);
    } else if IsSpace(a[0]) {
      CollapseGapAfterSpace(a, w, b);
    } else {
      CollapseGapAfterWord(a, w, b);
    }
  }

  /**
   * Text that starts with whitespace and ends with a non-space collapses,
   * in front of anything, to one space and the collapse of the text past
   * its leading run.
   */
  lemma CollapseLeadingRun(a: string, rest: string)
    requires a != [] && IsSpace(a[0]) && !IsSpace(a[|a| - 1])
    ensures DropSpaces(a[1..]) != [] && !IsSpace(DropSpaces(a[1..])[|DropSpaces(a[1..])| - 1])
    ensures |DropSpaces(a[1..])| < |a|
    ensures Collapse(a + rest) == [' '] + Collapse(DropSpaces(a[1..]) + rest)
    ensures Collapse(a) == [' '] + Collapse(DropSpaces(a[1..]))
  {
    var t := a[1..];
    assert t != [] && t[|t| - 1] == a[|a| - 1];
    assert (a + rest)[0] == a[0] && (a + rest)[1..] == t + rest;
    DropSpacesAppend(t, rest);
  }

  /** `CollapseGap` when the text before the run starts with whitespace. */
  lemma {:induction false} CollapseGapAfterSpace(a: string, w: string, b: string)
    requires w != [] && forall i :: 0 <= i < |w| ==> IsSpace(w[i])
    requires a != [] && IsSpace(a[0]) && !IsSpace(a[|a| - 1])
    requires b == [] || !IsSpace(b[0])
    ensures Collapse(a + (w + b)) == Collapse(a) + [' '] + Collapse(b)
    decreases |a|, 0
  {
    var d := DropSpaces(a[1..]);
    CollapseLeadingRun(a, w + b);
    CollapseGap(d, w, b);
    Regroup([' '], Collapse(d), [' '], Collapse(b));
  }

  /** `CollapseGap` when the text before the run starts with a non-space. */
  lemma {:induction false} CollapseGapAfterWord(a: string, w: string, b: string)
    requires w != [] && forall i :: 0 <= i < |w| ==> IsSpace(w[i])
    requires a != [] && !IsSpace(a[0]) && !IsSpace(a[|a| - 1])
    requires b == [] || !IsSpace(b[0])
    ensures Collapse(a + (w + b)) == Collapse(a) + [' '] + Collapse(b)
    decreases |a|, 0
  {
    assert Collapse(a + (w + b)) == [a[0]] + Collapse(a[1..] + (w + b)) by {
      var s := a + (w + b);
      assert s[0] == a[0] && s[1..] == a[1..] + (w + b);
    }
    CollapseGap(a[1..], w, b);
    assert Collapse(a) == [a[0]] + Collapse(a[1..]);
    Regroup([a[0]], Collapse(a[1..]), [' '], Collapse(b));
  }

  /** Collapsing keeps every non-space character, in order. */
  lemma {:induction false} CollapseKeepsText(s: string)
    ensures NonSpaces(Collapse(s)) == NonSpaces(s)
    decreases |s|
  {
    if s != [] {
      if IsSpace(s[0]) {
        var t := DropSpaces(s[1..]);
        CollapseKeepsText(t);
        DropSpacesText(s[1..]);
        assert ([' '] + Collapse(t))[1..] == Collapse(t);
      } else {
        CollapseKeepsText(s[1..]);
        assert ([s[0]] + Collapse(s[1..]))[1..] == Collapse(s[1..]);
      }
    }
  }

  /** Dropping leading spaces keeps the text. */
  lemma {:induction false} DropSpacesText(s: string)
    ensures NonSpaces(DropSpaces(s)) == NonSpaces(s)
  {
    if s != [] && IsSpace(s[0]) {
      DropSpacesText(s[1..]);
    }
  }

  /** Trimming keeps the text. */
  lemma {:induction false} TrimEndText(s: string)
    ensures NonSpaces(TrimEnd(s)) == NonSpaces(s)
  {
    if s != [] && IsSpace(s[|s| - 1]) {
      var init := s[..|s| - 1];
      TrimEndText(init);
      NonSpacesAppend(init, [s[|s| - 1]]);
      assert s == init + [s[|s| - 1]];
    }
  }

  lemma {:induction false} NonSpacesAppend(a: string, b: string)
    ensures NonSpaces(a + b) == NonSpaces(a) + NonSpaces(b)
  {
    if a != [] {
      NonSpacesAppend(a[1..], b);
      assert (a + b)[1..] == a[1..] + b;
    } else {
      assert a + b == b;
    }
  }

  /**
   * Trimming and collapsing tidy the spaces of a name, and keep its text:
   * no space at either end, no two spaces together, only plain spaces.
   */
  lemma SpacesTidied(s: string)
    ensures Tidy(Collapse(Trim(s)))
    ensures NonSpaces(Collapse(Trim(s))) == NonSpaces(s)
  {
    TrimCollapseTidy(Trim(s));
    CollapseKeepsText(Trim(s));
    TrimText(s);
  }

  /** Collapsing text with no space at either end gives tidy text. */
  lemma TrimCollapseTidy(t: string)
    requires t == [] || (!IsSpace(t[0]) && !IsSpace(t[|t| - 1]))
    ensures Tidy(Collapse(t))
  {
    CollapseEnds(t);
    CollapseSingleSpaced(t);
  }

  /** Trimming keeps the text. */
  lemma TrimText(s: string)
    ensures NonSpaces(Trim(s)) == NonSpaces(s)
  {
    DropSpacesText(TrimEnd(s));
    TrimEndText(s);
  }

  /** Tidy text is left as it is: trimming and collapsing are idempotent. */
  lemma {:induction false} CollapseTidy(s: string)
    requires SingleSpaced(s) && (s == [] || !IsSpace(s[0]))
    ensures Collapse(s) == s
    decreases |s|
  {
    if s != [] {
      if |s| > 1 {
        CollapseTail(s[1..]);
      }
    }
  }

  /** The tail of single-spaced text after a non-space character. */
  lemma {:induction false} CollapseTail(s: string)
    requires SingleSpaced(s)
    ensures Collapse(s) == s
    decreases |s|
  {
    if s != [] {
      assert SingleSpaced(s[1..]);
      if IsSpace(s[0]) {
        assert s[0] == ' ';
        assert DropSpaces(s[1..]) == s[1..] by {
          if |s| > 1 {
            assert !IsSpace(s[1]);
          }
        }
      }
      CollapseTail(s[1..]);
    }
  }

  lemma TrimTidy(s: string)
    requires Tidy(s)
    ensures Trim(s) == s
  {
  }

  /** A combining diacritic, U+0300 to U+036F. */
  predicate IsMark(c: char) {
    '\U{0300}' <= c <= '\U{036F}'
  }

  /** `s.replace(/[\u0300-\u036f]/g, '')` */
  function StripMarks(s: string): (r: string)
    ensures |r| <= |s|
    ensures forall i :: 0 <= i < |r| ==> !IsMark(r[i])
  {
    if s == [] then []
    else (if IsMark(s[0]) then [] else [s[0]]) + StripMarks(s[1..])
  }

  /** Text without diacritics is left as it is. */
  lemma {:induction false} StripMarksNone(s: string)
    requires forall i :: 0 <= i < |s| ==> !IsMark(s[i])
    ensures StripMarks(s) == s
  {
    if s != [] {
      StripMarksNone(s[1..]);
    }
  }

  /**
   * `normalizeClubKey`: `String(name || '')`, trimmed, its space runs
   * collapsed, lower-cased, decomposed, and its combining diacritics removed.
   */
  function NormalizeClubKey(h: Host, name: Value): (r: string)
    ensures forall i :: 0 <= i < |r| ==> !IsMark(r[i])
  {
    StripMarks(h.nfd(h.lower(Collapse(Trim(ToStr(h, Or(name, Str(""))))))))
  }

  /** A falsy name is read as `''`: every falsy name gets the key of the empty text. */
  lemma NormalizeFalsyName(h: Host, name: Value)
    requires !Truthy(name)
    ensures NormalizeClubKey(h, name) == StripMarks(h.nfd(h.lower("")))
  {
    assert ToStr(h, Or(name, Str(""))) == "";
    assert Collapse(Trim("")) == "";
  }

  /**
   * A key that is already normal is its own key: a tidy, diacritic-free
   * string that lower-casing and decomposition leave alone.
   */
  lemma NormalizeClubKeyFixed(h: Host, s: string)
    requires Tidy(s) && s != []
    requires forall i :: 0 <= i < |s| ==> !IsMark(s[i])
    requires h.lower(s) == s && h.nfd(s) == s
    ensures NormalizeClubKey(h, Str(s)) == s
  {
    assert ToStr(h, Or(Str(s), Str(""))) == s;
    TrimTidy(s);
    CollapseTidy(s);
    assert Collapse(Trim(s)) == s;
    StripMarksNone(s);
  }

  /**
   * Tidiness is not kept by the last step: a lone combining mark between
   * two spaces leaves two spaces together once it is stripped.
   */
  lemma StripMarksCanUntidy()
    ensures Tidy("a \U{0301} b")
    ensures !Tidy(StripMarks("a \U{0301} b"))
  {
    var s := "a \U{0301} b";
    assert StripMarks(s) == "a  b" by {
      assert StripMarks(s[4..]) == "b";
      assert StripMarks(s[3..]) == " b";
      assert StripMarks(s[2..]) == " b";
      assert StripMarks(s[1..]) == "  b";
    }
    assert IsSpace(StripMarks(s)[1]) && IsSpace(StripMarks(s)[2]);
  }

  /**
   * The row's lookup key: its `__club_key`, else its `_club_key`, as a
   * string when truthy, else the normalized display name.
   */
  function ClubKey(h: Host, it: Value, name: Value): string {
    var k := And(it, Or(Get(it, "__club_key"), Get(it, "_club_key")));
    if Truthy(k) then ToStr(h, Or(Get(it, "__club_key"), Get(it, "_club_key"))) else NormalizeClubKey(h, name)
  }

  /** The precedence of the lookup key: `__club_key`, then `_club_key`, then the normalized name. */
  lemma ClubKeyOrder(h: Host, it: Value, name: Value)
    ensures Truthy(Get(it, "__club_key")) ==> ClubKey(h, it, name) == ToStr(h, Get(it, "__club_key"))
    ensures !Truthy(Get(it, "__club_key")) && Truthy(Get(it, "_club_key"))
            ==> ClubKey(h, it, name) == ToStr(h, Get(it, "_club_key"))
    ensures !Truthy(Get(it, "__club_key")) && !Truthy(Get(it, "_club_key"))
            ==> ClubKey(h, it, name) == NormalizeClubKey(h, name)
  {
    if !Truthy(it) {
      assert Get(it, "__club_key") == Undefined && Get(it, "_club_key") == Undefined;
    }
  }

  // ------------------------------------------------------------ score

  /** The first value of `xs` that is not nullish, else `null`. */
  function FirstDefined(xs: seq<Value>): (r: Value)
    ensures r in xs || r == Null
  {
    if xs == [] then Null
    else if !Nullish(xs[0]) then xs[0]
    else FirstDefined(xs[1..])
  }

  /** The `??` chain of five values, one value at a time. */
  lemma FirstDefinedUnfold(xs: seq<Value>)
    requires |xs| == 5
    ensures FirstDefined(xs) ==
      if !Nullish(xs[0]) then xs[0] else if !Nullish(xs[1]) then xs[1] else if !Nullish(xs[2]) then xs[2]
      else if !Nullish(xs[3]) then xs[3] else if !Nullish(xs[4]) then xs[4] else Null
  {
    assert xs[4..][1..] == [];
    assert FirstDefined(xs[4..]) == if !Nullish(xs[4]) then xs[4] else Null;
    assert xs[3..][1..] == xs[4..];
    assert FirstDefined(xs[3..]) == if !Nullish(xs[3]) then xs[3] else FirstDefined(xs[4..]);
    assert xs[2..][1..] == xs[3..];
    assert FirstDefined(xs[2..]) == if !Nullish(xs[2]) then xs[2] else FirstDefined(xs[3..]);
    assert xs[1..][1..] == xs[2..];
    assert FirstDefined(xs[1..]) == if !Nullish(xs[1]) then xs[1] else FirstDefined(xs[2..]);
  }

  /**
   * `pickScore`: `value`, `_computed_value`, `iap_score`, `score`, `iap`,
   * whichever is defined first, read with `toNumber`.
   */
  function PickScore(h: Host, it: Value): (r: Option<real>)
    ensures
      (Nullish(Get(it, "value")) && Nullish(Get(it, "_computed_value")) && Nullish(Get(it, "iap_score"))
       && Nullish(Get(it, "score")) && Nullish(Get(it, "iap")))
      ==> r.None?
  {
    ToNumber(h, Coalesce(Coalesce(Coalesce(Coalesce(Coalesce(
      Get(it, "value"), Get(it, "_computed_value")), Get(it, "iap_score")), Get(it, "score")), Get(it, "iap")), Null))
  }

  /** The score is the first defined candidate field, read as a number. */
  lemma PickScoreIsFirstDefined(h: Host, it: Value)
    ensures PickScore(h, it) == ToNumber(h, FirstDefined(
      [Get(it, "value"), Get(it, "_computed_value"), Get(it, "iap_score"), Get(it, "score"), Get(it, "iap")]))
  {
    FirstDefinedUnfold([Get(it, "value"), Get(it, "_computed_value"), Get(it, "iap_score"), Get(it, "score"), Get(it, "iap")]);
  }
}
