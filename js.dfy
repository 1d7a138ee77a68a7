/**
 * The JavaScript values the dashboard reads from backend rows, and the few
 * language primitives the ranking code relies on: nullish and truthy tests,
 * `??` and `||`, optional field access, `String(x)`, `Number(x)` and the
 * shared `toNumber` helper.
 */
module Js {
  import opened Wrappers

  /** A JSON-like JavaScript value. `Num` always holds a finite number. */
  datatype Value =
    | Undefined
    | Null
    | Bool(b: bool)
    | Num(n: real)
    | Str(s: string)
    | Obj(fields: map<string, Value>)
    | Arr(items: seq<Value>)

  /**
   * Host primitives the model leaves uninterpreted:
   * `parseNumber(s)` is `Number(s)` on a string when the result is finite
   * (`None` for NaN and the infinities); `show(v)` is `String(v)` for a number,
   * object or array; `stringify(v)` is `JSON.stringify(v)`; `lower` is
   * `toLowerCase()`; `nfd` is `normalize('NFD')`.
   */
  datatype Host = Host(
    parseNumber: string -> Option<real>,
    show: Value -> string,
    stringify: Value -> string,
    lower: string -> string,
    nfd: string -> string)

  predicate Nullish(v: Value) {
    v.Undefined? || v.Null?
  }

  /** JavaScript truthiness. */
  predicate Truthy(v: Value) {
    match v
    case Undefined => false
    case Null => false
    case Bool(b) => b
    case Num(n) => n != 0.0
    case Str(s) => s != ""
    case Obj(_) => true
    case Arr(_) => true
  }

  /** `a ?? b` */
  function Coalesce(a: Value, b: Value): Value {
    if Nullish(a) then b else a
  }

  /** `a || b` */
  function Or(a: Value, b: Value): Value {
    if Truthy(a) then a else b
  }

  /** `a && b` */
  function And(a: Value, b: Value): Value {
    if Truthy(a) then b else a
  }

  /** `v?.k`: a missing field, or a field of a non-object, reads as `undefined`. */
  function Get(v: Value, k: string): Value {
    if v.Obj? && k in v.fields then v.fields[k] else Undefined
  }

  /** `{ ...v, k: x }` for an object (a non-object spreads to no fields). */
  function Set(v: Value, k: string, x: Value): Value {
    Obj((if v.Obj? then v.fields else map[])[k := x])
  }

  /** `String(v)`. */
  function ToStr(h: Host, v: Value): string {
    match v
    case Undefined => "undefined"
    case Null => "null"
    case Bool(b) => if b then "true" else "false"
    case Str(s) => s
    case _ => h.show(v)
  }

  /** `Number(v)` when finite; `None` stands for NaN and the infinities. */
  function NumberOf(h: Host, v: Value): Option<real> {
    match v
    case Undefined => None
    case Null => Some(0.0)
    case Bool(b) => Some(if b then 1.0 else 0.0)
    case Num(n) => Some(n)
    case Str(s) => h.parseNumber(s)
    case _ => h.parseNumber(h.show(v))
  }

  /** `s.replace(a, b)` with a one-character string pattern. */
  function ReplaceFirst(s: string, a: char, b: char): (r: string)
    ensures |r| == |s|
  {
    if s == [] then []
    else if s[0] == a then [b] + s[1..]
    else [s[0]] + ReplaceFirst(s[1..], a, b)
  }

  /** Only the first occurrence of `a` is replaced; everything else is kept. */
  lemma {:induction false} ReplaceFirstAt(s: string, a: char, b: char, i: nat)
    requires i < |s| && s[i] == a && a !in s[..i]
    ensures ReplaceFirst(s, a, b) == s[..i] + [b] + s[i + 1..]
  {
    if i > 0 {
      assert s[0] in s[..i];
      assert s[1..][..i - 1] == s[1..i];
      assert a !in s[1..][..i - 1];
      ReplaceFirstAt(s[1..], a, b, i - 1);
      assert s[..i] == [s[0]] + s[1..][..i - 1];
      assert s[1..][i..] == s[i + 1..];
    }
  }

  /** A string without `a` is left unchanged. */
  lemma {:induction false} ReplaceFirstAbsent(s: string, a: char, b: char)
    requires a !in s
    ensures ReplaceFirst(s, a, b) == s
  {
    if s != [] {
      assert s[0] in s;
      assert forall c :: c in s[1..] ==> c in s;
      ReplaceFirstAbsent(s[1..], a, b);
    }
  }

  /**
   * The shared `toNumber` helper: `null`, `undefined` and `''` give no number;
   * a string has its first comma turned into a dot before `Number` is applied;
   * a non-finite result gives no number. A finite number, zero included, is
   * kept as it is.
   */
  function ToNumber(h: Host, x: Value): (r: Option<real>)
    ensures Nullish(x) || x == Str("") ==> r == None
    ensures x.Num? ==> r == Some(x.n)
    ensures x.Str? && x.s != "" ==> r == h.parseNumber(ReplaceFirst(x.s, ',', '.'))
    ensures x.Bool? ==> r == Some(if x.b then 1.0 else 0.0)
  {
    if Nullish(x) || x == Str("") then None
    else if x.Str? then h.parseNumber(ReplaceFirst(x.s, ',', '.'))
    else NumberOf(h, x)
  }

  /** `String(s).slice(0, n)`. */
  function Prefix(s: string, n: nat): string {
    if |s| <= n then s else s[..n]
  }

  /** The characters matched by the regular-expression class `\s` (and removed by `trim`). */
  predicate IsSpace(c: char) {
    c == ' ' || c == '\t' || c == '\n' || c == '\r' || c == '\U{000B}' || c == '\U{000C}'
    || c == '\U{00A0}' || c == '\U{1680}' || ('\U{2000}' <= c <= '\U{200A}')
    || c == '\U{2028}' || c == '\U{2029}' || c == '\U{202F}' || c == '\U{205F}'
    || c == '\U{3000}' || c == '\U{FEFF}'
  }

  predicate IsDigit(c: char) {
    '0' <= c <= '9'
  }

  function DigitChar(d: nat): (c: char)
    requires d < 10
    ensures IsDigit(c)
  {
    ('0' as int + d) as char
  }

  /** The decimal numeral of `n`, as `String(n)` writes a non-negative integer. */
  function NatToString(n: nat): (r: string)
    ensures |r| >= 1
    ensures forall i :: 0 <= i < |r| ==> IsDigit(r[i])
  {
    if n < 10 then [DigitChar(n)] else NatToString(n / 10) + [DigitChar(n % 10)]
  }

  /** `String(i)` for an integer. */
  function IntToString(i: int): string {
    if i < 0 then "-" + NatToString(-i) else NatToString(i)
  }

  /** `s.padStart(2, '0')`. */
  function PadStart2(s: string): string {
    if |s| >= 2 then s else seq(2 - |s|, _ => '0') + s
  }
}
