/**
 * The JavaScript library behaviour the filter effect of IndexDisplay relies on,
 * restricted to the values a JSON document can hold: `String(val)`,
 * `toLowerCase`, `String.prototype.includes` and `parseInt`.
 */
module JsValues {

  /** A number that may be NaN: `None` stands for NaN. */
  datatype Option<+T> = None | Some(value: T)

  /**
   * A value as it comes out of a parsed JSON document. Numbers are modelled
   * as integers only.
   */
  datatype Value =
    | Str(s: string)
    | Num(n: int)
    | Bool(b: bool)
    | Null
    | Arr(items: seq<Value>)
    | Obj(fields: map<string, Value>)

  // ---------------------------------------------------------------------------
  // Decimal digits
  // ---------------------------------------------------------------------------

  predicate IsDigit(c: char) { '0' <= c <= '9' }

  function DigitValue(c: char): (d: nat)
    requires IsDigit(c)
    ensures d < 10
  {
    (c as int - '0' as int) as nat
  }

  function DigitChar(d: nat): (c: char)
    requires d < 10
    ensures IsDigit(c) && DigitValue(c) == d
  {
    ('0' as int + d) as char
  }

  predicate AllDigits(s: string) { forall i :: 0 <= i < |s| ==> IsDigit(s[i]) }

  /** The value of a string of decimal digits, most significant first. */
  function DigitsValue(ds: string): nat
    requires AllDigits(ds)
  {
    if ds == [] then 0
    else DigitsValue(ds[..|ds| - 1]) * 10 + DigitValue(ds[|ds| - 1])
  }

  /** The shortest decimal numeral of n, as `String(n)` writes it. */
  function NatToDecimal(n: nat): (r: string)
    ensures |r| > 0 && AllDigits(r)
    ensures |r| > 1 ==> r[0] != '0'
  {
    if n < 10 then [DigitChar(n)] else NatToDecimal(n / 10) + [DigitChar(n % 10)]
  }

  /** `String(n)` for an integer n: an optional minus sign, then the numeral. */
  function IntToString(n: int): (r: string)
    ensures r != [] && (r[0] == '-' <==> n < 0)
    ensures AllDigits(if n < 0 then r[1..] else r)
  {
    if n < 0 then "-" + NatToDecimal(-n) else NatToDecimal(n)
  }

  lemma {:induction false} DigitsValueOfDecimal(n: nat)
    ensures DigitsValue(NatToDecimal(n)) == n
  {
    if n >= 10 {
      var ds := NatToDecimal(n);
      assert ds[..|ds| - 1] == NatToDecimal(n / 10);
      DigitsValueOfDecimal(n / 10);
    }
  }

  // ---------------------------------------------------------------------------
  // parseInt(s) with no radix
  // ---------------------------------------------------------------------------

  /** The white space and line terminators `parseInt` skips before the number. */
  predicate IsJsWhitespace(c: char)
  {
    c == ' ' || c == '\t' || c == '\n' || c == '\U{000B}' || c == '\U{000C}' || c == '\r'
    || c == '\U{00A0}' || c == '\U{1680}' || ('\U{2000}' <= c <= '\U{200A}')
    || c == '\U{2028}' || c == '\U{2029}' || c == '\U{202F}' || c == '\U{205F}'
    || c == '\U{3000}' || c == '\U{FEFF}'
  }

  /** s without its leading white space. */
  function TrimStart(s: string): (r: string)
    ensures |r| <= |s| && r == s[|s| - |r|..]
    ensures forall i :: 0 <= i < |s| - |r| ==> IsJsWhitespace(s[i])
    ensures r != [] ==> !IsJsWhitespace(r[0])
  {
    if s != [] && IsJsWhitespace(s[0]) then TrimStart(s[1..]) else s
  }

  /** The longest prefix of s made of decimal digits. */
  function DigitPrefix(s: string): (r: string)
    ensures AllDigits(r) && |r| <= |s| && r == s[..|r|]
    ensures |r| < |s| ==> !IsDigit(s[|r|])
  {
    if s != [] && IsDigit(s[0]) then [s[0]] + DigitPrefix(s[1..]) else []
  }

  /** The numeral at the head of s, or NaN when s does not start with a digit. */
  function ParseDigits(s: string): Option<nat>
  {
    var ds := DigitPrefix(s);
    if ds == [] then None else Some(DigitsValue(ds))
  }

  /**
   * `parseInt(s)`: leading white space is skipped, then an optional sign, then
   * the longest run of decimal digits; anything after it is ignored. No digit
   * at all gives NaN.
   */
  function ParseInt(s: string): (r: Option<int>)
    ensures var t := TrimStart(s);
      var u := if t != [] && (t[0] == '-' || t[0] == '+') then t[1..] else t;
      r == None <==> u == [] || !IsDigit(u[0])
    ensures r.Some? && r.value < 0 ==> TrimStart(s)[0] == '-'
  {
    var t := TrimStart(s);
    if t != [] && (t[0] == '-' || t[0] == '+') then
      match ParseDigits(t[1..])
      case None => None
      case Some(d) => var v: int := d; Some(if t[0] == '-' then -v else v)
    else
      match ParseDigits(t)
      case None => None
      case Some(d) => Some(d)
  }

  lemma {:induction false} DigitPrefixOfDigits(s: string)
    requires AllDigits(s)
    ensures DigitPrefix(s) == s
  {
    if s != [] {
      DigitPrefixOfDigits(s[1..]);
    }
  }

  /** `parseInt` reads back every integer that `String` writes. */
  lemma ParseIntOfString(n: int)
    ensures ParseInt(IntToString(n)) == Some(n)
  {
    var m: nat := if n < 0 then -n else n;
    var ds := NatToDecimal(m);
    ParseDigitsOfDecimal(m);
    var s := IntToString(n);
    assert s[0] == '-' || IsDigit(s[0]);
    assert !IsJsWhitespace(s[0]);
    assert TrimStart(s) == s;
    if n < 0 {
      assert s[1..] == ds;
      assert ParseInt(s) == Some(n);
    } else {
      assert s == ds;
      assert !(s[0] == '-' || s[0] == '+');
      assert ParseInt(s) == Some(n);
    }
  }

  lemma ParseDigitsOfDecimal(m: nat)
    ensures ParseDigits(NatToDecimal(m)) == Some(m)
  {
    DigitPrefixOfDigits(NatToDecimal(m));
    DigitsValueOfDecimal(m);
  }

  // ---------------------------------------------------------------------------
  // String(val)
  // ---------------------------------------------------------------------------

  /**
   * `String(val)`. An array is written as its elements joined by commas, a
   * null element as the empty string; every other object is "[object Object]".
   */
  function Stringify(v: Value): (r: string)
    ensures r == [] ==> v.Str? || v.Arr?
    decreases v, 1
  {
    match v
    case Str(s) => s
    case Num(n) => IntToString(n)
    case Bool(b) => if b then "true" else "false"
    case Null => "null"
    case Arr(items) => JoinItems(v, items)
    case Obj(_) => "[object Object]"
  }

  /** `items.join(",")` for the elements of the array `whole`. */
  function JoinItems(ghost whole: Value, items: seq<Value>): (r: string)
    requires forall i :: 0 <= i < |items| ==> items[i] < whole
    ensures |r| >= |items| - 1
    decreases whole, 0, |items|
  {
    if items == [] then ""
    else
      var first := if items[0].Null? then "" else Stringify(items[0]);
      if |items| == 1 then first else first + "," + JoinItems(whole, items[1..])
  }

  // ---------------------------------------------------------------------------
  // toLowerCase and includes
  // ---------------------------------------------------------------------------

  function LowerChar(c: char): (r: char)
  {
    if 'A' <= c <= 'Z' then (c as int + 32) as char else c
  }

  /** `s.toLowerCase()`, folding the ASCII letters only. */
  function Lower(s: string): (r: string)
    ensures |r| == |s|
    ensures forall i :: 0 <= i < |r| ==> !('A' <= r[i] <= 'Z')
  {
    seq(|s|, i requires 0 <= i < |s| => LowerChar(s[i]))
  }

  /** Lower-casing a lower-cased string changes nothing. */
  lemma LowerIdempotent(s: string)
    ensures Lower(Lower(s)) == Lower(s)
  {
    assert forall i :: 0 <= i < |s| ==> LowerChar(LowerChar(s[i])) == LowerChar(s[i]);
  }

  /**
   * Lower keeps the length, turns each upper-case ASCII letter into its
   * lower-case letter and keeps every other character.
   */
  lemma LowerSpec(s: string)
    ensures |Lower(s)| == |s|
    ensures forall i :: 0 <= i < |s| ==> !('A' <= Lower(s)[i] <= 'Z')
    ensures forall i :: 0 <= i < |s| && 'A' <= s[i] <= 'Z' ==> Lower(s)[i] == (s[i] as int + 32) as char
    ensures forall i :: 0 <= i < |s| && !('A' <= s[i] <= 'Z') ==> Lower(s)[i] == s[i]
  {
  }

  /** needle occurs in hay starting at position i. */
  predicate OccursAt(hay: string, needle: string, i: int)
  {
    0 <= i <= |hay| - |needle| && hay[i..i + |needle|] == needle
  }

  /** `hay.includes(needle)`: needle occurs in hay as a contiguous block. */
  predicate Includes(hay: string, needle: string)
    ensures Includes(hay, needle) ==> |needle| <= |hay|
    ensures needle == [] ==> Includes(hay, needle)
  {
    assert needle == [] ==> OccursAt(hay, needle, 0);
    exists i | 0 <= i <= |hay| - |needle| :: OccursAt(hay, needle, i)
  }

  /** Every string includes itself. */
  lemma IncludesSelf(hay: string)
    ensures Includes(hay, hay)
  {
    assert OccursAt(hay, hay, 0);
  }

  /** includes holds exactly when hay splits as prefix + needle + suffix. */
  lemma IncludesIffSplit(hay: string, needle: string)
    ensures Includes(hay, needle) <==> exists p, q :: hay == p + needle + q
  {
    if Includes(hay, needle) {
      var i :| 0 <= i <= |hay| - |needle| && OccursAt(hay, needle, i);
      assert hay == hay[..i] + needle + hay[i + |needle|..];
    }
    if exists p, q :: hay == p + needle + q {
      var p, q :| hay == p + needle + q;
      assert OccursAt(hay, needle, |p|);
    }
  }
}
