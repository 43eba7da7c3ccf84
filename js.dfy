/**
 * The pieces of JavaScript's runtime semantics that the modelled code leans
 * on: the values `response.json()` can produce, truthiness (what `!x`
 * tests), reading a property of a value, `String.prototype.trim`, `parseInt`
 * with no radix, and the decimal rendering of a number in a template string.
 */
module Js {

  import opened Wrappers

  /** A value as `JSON.parse` produces it, plus `undefined`, which is what reading a missing property gives. */
  datatype JsValue =
    | Undefined
    | Null
    | Bool(b: bool)
    | Num(n: real)
    | Str(s: string)
    | Array(elems: seq<JsValue>)
    | Object(fields: map<string, JsValue>)

  /** A thrown value: an `Error` instance (`TypeError` and `SyntaxError` included) has a message; anything else is `NonError`. */
  datatype Exception = Error(message: string) | NonError

  /** The numbers the modelled code can derive from its inputs: `parseInt` yields an integer or `NaN`. */
  datatype Number = NaN | Int(value: int)

  /** `!!v`: `undefined`, `null`, `false`, `0` and `""` are falsy, every array and object is truthy. */
  predicate Truthy(v: JsValue)
  {
    match v
    case Undefined => false
    case Null => false
    case Bool(b) => b
    case Num(n) => n != 0.0
    case Str(s) => s != ""
    case Array(_) => true
    case Object(_) => true
  }

  /** Exactly five values are falsy. */
  lemma FalsyValues(v: JsValue)
    ensures !Truthy(v) <==> v == Undefined || v == Null || v == Bool(false) || v == Num(0.0) || v == Str("")
  {
  }

  /** The message V8 puts in the `TypeError` thrown when a property of `null` or `undefined` is read. */
  function ReadPropertyMessage(v: JsValue, key: string): string
  {
    "Cannot read properties of " + (if v.Null? then "null" else "undefined") + " (reading '" + key + "')"
  }

  /**
   * `v.name` for a property name that no built-in prototype defines
   * (`data`, `embedding`): found only among an object's own keys.
   */
  function GetField(v: JsValue, name: string): (r: Result<JsValue, Exception>)
    ensures r.Failure? <==> v.Undefined? || v.Null?
    ensures v.Object? ==> r == Success(if name in v.fields then v.fields[name] else Undefined)
    ensures r.Success? && !v.Object? ==> r.value == Undefined
  {
    match v
    case Undefined => Failure(Error(ReadPropertyMessage(v, name)))
    case Null => Failure(Error(ReadPropertyMessage(v, name)))
    case Object(m) => Success(if name in m then m[name] else Undefined)
    case _ => Success(Undefined)
  }

  /** `v[i]`: an element of an array, a one-character string of a string, the key `"i"` of an object. */
  function GetIndex(v: JsValue, i: nat): (r: Result<JsValue, Exception>)
    ensures r.Failure? <==> v.Undefined? || v.Null?
    ensures v.Array? ==> r == Success(if i < |v.elems| then v.elems[i] else Undefined)
    ensures v.Object? ==> r == Success(if Decimal(i) in v.fields then v.fields[Decimal(i)] else Undefined)
  {
    match v
    case Undefined => Failure(Error(ReadPropertyMessage(v, Decimal(i))))
    case Null => Failure(Error(ReadPropertyMessage(v, Decimal(i))))
    case Array(a) => Success(if i < |a| then a[i] else Undefined)
    case Str(s) => Success(if i < |s| then Str([s[i]]) else Undefined)
    case Object(m) => Success(if Decimal(i) in m then m[Decimal(i)] else Undefined)
    case _ => Success(Undefined)
  }

  // ----- Decimal rendering -----

  predicate IsDecimalDigit(c: char) { '0' <= c <= '9' }

  function DigitChar(d: nat): char
    requires d < 10
  {
    "0123456789"[d]
  }

  /** The decimal text of `n`, as a template string renders a non-negative integer. */
  function Decimal(n: nat): (s: string)
    ensures |s| >= 1
    ensures forall i :: 0 <= i < |s| ==> IsDecimalDigit(s[i])
    ensures |s| > 1 ==> s[0] != '0'
  {
    if n < 10 then [DigitChar(n)] else Decimal(n / 10) + [DigitChar(n % 10)]
  }

  // ----- Whitespace and trim -----

  /** ECMAScript WhiteSpace and LineTerminator code points: what `trim` strips and `parseInt` skips. */
  predicate IsWhiteSpace(c: char)
  {
    c == '\t' || c == '\n' || c == '\U{000B}' || c == '\U{000C}' || c == '\r' || c == ' '
    || c == '\U{00A0}' || c == '\U{1680}' || ('\U{2000}' <= c <= '\U{200A}')
    || c == '\U{2028}' || c == '\U{2029}' || c == '\U{202F}' || c == '\U{205F}'
    || c == '\U{3000}' || c == '\U{FEFF}'
  }

  predicate AllWhiteSpace(s: string)
  {
    forall i :: 0 <= i < |s| ==> IsWhiteSpace(s[i])
  }

  /** `s.trimStart()`: the suffix left after the longest all-whitespace prefix. */
  function TrimStart(s: string): (r: string)
    ensures |r| <= |s| && r == s[|s| - |r|..]
    ensures AllWhiteSpace(s[..|s| - |r|])
    ensures r != [] ==> !IsWhiteSpace(r[0])
  {
    if s != [] && IsWhiteSpace(s[0]) then
      var r := TrimStart(s[1..]);
      assert s[..|s| - |r|] == [s[0]] + s[1..][..|s| - 1 - |r|];
      r
    else s
  }

  /** `s.trimEnd()`: the prefix left after the longest all-whitespace suffix. */
  function TrimEnd(s: string): (r: string)
    ensures |r| <= |s| && r == s[..|r|]
    ensures AllWhiteSpace(s[|r|..])
    ensures r != [] ==> !IsWhiteSpace(r[|r| - 1])
  {
    if s != [] && IsWhiteSpace(s[|s| - 1]) then
      var init := s[..|s| - 1];
      var r := TrimEnd(init);
      assert s[..|r|] == init[..|r|];
      assert s[|r|..] == init[|r|..] + [s[|s| - 1]];
      WhiteSpaceSnoc(init[|r|..], s[|s| - 1]);
      r
    else s
  }

  lemma WhiteSpaceSnoc(s: string, c: char)
    requires AllWhiteSpace(s) && IsWhiteSpace(c)
    ensures AllWhiteSpace(s + [c])
  {
    assert forall i :: 0 <= i < |s| ==> (s + [c])[i] == s[i];
  }

  /**
   * `s.trim()`: the text between the leading and the trailing whitespace.
   * That the parts removed are whitespace only is stated by the contracts of
   * `TrimStart` and `TrimEnd`, each for its own side.
   */
  function Trim(s: string): (r: string)
    ensures |r| <= |s|
    ensures r != [] ==> !IsWhiteSpace(r[0]) && !IsWhiteSpace(r[|r| - 1])
  {
    var t := TrimStart(s);
    var r := TrimEnd(t);
    TrimmedEdge(t, r);
    r
  }

  lemma TrimmedEdge(t: string, r: string)
    requires |r| <= |t| && r == t[..|r|]
    ensures r != [] ==> r[0] == t[0]
  {
  }

  /** A text with no whitespace at either end is its own `trim`, so `trim` is idempotent. */
  lemma TrimOfTrimmed(s: string)
    ensures s == [] || (!IsWhiteSpace(s[0]) && !IsWhiteSpace(s[|s| - 1])) ==> Trim(s) == s
    ensures Trim(Trim(s)) == Trim(s)
  {
    var r := Trim(s);
    assert TrimStart(r) == r;
    assert TrimEnd(r) == r;
  }

  /** Padding a trimmed text with whitespace on both sides and trimming gives the text back. */
  lemma TrimOfPadded(before: string, s: string, after: string)
    requires AllWhiteSpace(before) && AllWhiteSpace(after)
    requires s == [] || (!IsWhiteSpace(s[0]) && !IsWhiteSpace(s[|s| - 1]))
    ensures Trim(before + s + after) == s
  {
    var x := s + after;
    assert before + s + after == before + x;
    TrimStartOfWhiteSpace(before, x);
    if s == [] {
      PaddingOnly(after);
      assert x == after;
    } else {
      TrimOfPaddedEnd(s, after);
    }
  }

  lemma PaddingOnly(w: string)
    requires AllWhiteSpace(w)
    ensures TrimEnd(TrimStart(w)) == []
  {
    TrimStartOfWhiteSpace(w, []);
    assert w + [] == w;
  }

  lemma TrimOfPaddedEnd(s: string, after: string)
    requires AllWhiteSpace(after)
    requires s != [] && !IsWhiteSpace(s[0]) && !IsWhiteSpace(s[|s| - 1])
    ensures TrimEnd(TrimStart(s + after)) == s
  {
    var x := s + after;
    assert x[0] == s[0];
    assert TrimStart(x) == x;
    TrimEndOfWhiteSpace(s, after);
    assert TrimEnd(s) == s;
  }

  lemma {:induction false} TrimEndOfWhiteSpace(s: string, w: string)
    requires AllWhiteSpace(w)
    ensures TrimEnd(s + w) == TrimEnd(s)
  {
    if w == [] {
      assert s + w == s;
    } else {
      var x := s + w;
      assert x[|x| - 1] == w[|w| - 1];
      assert IsWhiteSpace(w[|w| - 1]);
      assert x[..|x| - 1] == s + w[..|w| - 1];
      TrimEndOfWhiteSpace(s, w[..|w| - 1]);
    }
  }

  /** `!s.trim()` holds exactly for the strings made of whitespace only (the empty string included). */
  lemma TrimEmptyIffWhiteSpace(s: string)
    ensures Trim(s) == "" <==> AllWhiteSpace(s)
  {
    var t := TrimStart(s);
    if Trim(s) == "" {
      assert t == [];
      assert s[..|s|] == s;
    }
  }

  // ----- parseInt -----

  predicate IsHexDigit(c: char)
  {
    IsDecimalDigit(c) || 'a' <= c <= 'f' || 'A' <= c <= 'F'
  }

  function DigitValue(c: char): nat
  {
    if IsDecimalDigit(c) then c as nat - '0' as nat
    else if 'a' <= c <= 'f' then c as nat - 'a' as nat + 10
    else if 'A' <= c <= 'F' then c as nat - 'A' as nat + 10
    else 0
  }

  predicate IsDigitIn(c: char, radix: nat)
  {
    if radix == 16 then IsHexDigit(c) else IsDecimalDigit(c)
  }

  /** The longest prefix of `s` made of digits of `radix` (10 or 16). */
  function DigitPrefix(s: string, radix: nat): (d: string)
    ensures |d| <= |s| && d == s[..|d|]
    ensures forall i :: 0 <= i < |d| ==> IsDigitIn(d[i], radix)
    ensures |d| < |s| ==> !IsDigitIn(s[|d|], radix)
  {
    if s != [] && IsDigitIn(s[0], radix) then [s[0]] + DigitPrefix(s[1..], radix) else []
  }

  /** The value of the digit string `d` read in `radix`, most significant digit first. */
  function DigitsValue(d: string, radix: nat): nat
  {
    if d == [] then 0 else DigitsValue(d[..|d| - 1], radix) * radix + DigitValue(d[|d| - 1])
  }

  /**
   * The unsigned part of `parseInt`: hexadecimal after `0x`/`0X`, decimal
   * otherwise, up to the first character that is not a digit; `None` when
   * no digit is read.
   */
  function ParseMagnitude(u: string): (r: Option<nat>)
  {
    var hex := |u| >= 2 && u[0] == '0' && (u[1] == 'x' || u[1] == 'X');
    var radix := if hex then 16 else 10;
    var digits := DigitPrefix(if hex then u[2..] else u, radix);
    if digits == [] then None else Some(DigitsValue(digits, radix))
  }

  /**
   * `parseInt(s)` with the radix left out: skip leading whitespace, take an
   * optional sign, then read the magnitude. `NaN` when no digit is read.
   */
  function ParseInt(s: string): (r: Number)
    ensures TrimStart(s) == [] ==> r == NaN
    ensures r.Int? && r.value < 0 ==> TrimStart(s)[0] == '-'
    ensures var t := TrimStart(s);
      t != [] && IsDecimalDigit(t[0]) && !(|t| >= 2 && t[0] == '0' && (t[1] == 'x' || t[1] == 'X')) ==>
      r.Int? && r.value >= 0
  {
    var t := TrimStart(s);
    var negative := t != [] && t[0] == '-';
    var u := if t != [] && (t[0] == '-' || t[0] == '+') then t[1..] else t;
    match ParseMagnitude(u)
    case None => NaN
    case Some(m) => Int(if negative then 0 - m else m)
  }

  lemma {:induction false} DecimalValue(n: nat)
    ensures DigitsValue(Decimal(n), 10) == n
  {
    if n >= 10 {
      var s := Decimal(n);
      var q, d := n / 10, n % 10;
      assert s == Decimal(q) + [DigitChar(d)];
      assert s[..|s| - 1] == Decimal(q);
      DecimalValue(q);
      DigitCharValue(d);
    }
  }

  lemma DigitCharValue(d: nat)
    requires d < 10
    ensures DigitValue(DigitChar(d)) == d
  {
  }

  lemma {:induction false} DigitPrefixOfDigits(s: string)
    requires forall i :: 0 <= i < |s| ==> IsDecimalDigit(s[i])
    ensures DigitPrefix(s, 10) == s
  {
    if s != [] { DigitPrefixOfDigits(s[1..]); }
  }

  /** The magnitude of a decimal text is its value. */
  lemma MagnitudeOfDecimal(n: nat)
    ensures ParseMagnitude(Decimal(n)) == Some(n)
  {
    var s := Decimal(n);
    assert |s| < 2 || IsDecimalDigit(s[1]);
    DigitPrefixOfDigits(s);
    DecimalValue(n);
  }

  /** `parseInt` reads back the decimal text of every non-negative integer. */
  lemma ParseIntDecimal(n: nat)
    ensures ParseInt(Decimal(n)) == Int(n)
  {
    var s := Decimal(n);
    DigitIsNotWhiteSpace(s[0]);
    NoLeadingWhiteSpace(s);
    assert s[0] != '-' && s[0] != '+';
    MagnitudeOfDecimal(n);
  }

  lemma DigitIsNotWhiteSpace(c: char)
    requires IsDecimalDigit(c)
    ensures !IsWhiteSpace(c)
  {
  }

  lemma NoLeadingWhiteSpace(s: string)
    requires s != [] && !IsWhiteSpace(s[0])
    ensures TrimStart(s) == s
  {
  }

  /** ... and of every negative one, written with a leading minus sign. */
  lemma ParseIntNegative(n: nat)
    requires n > 0
    ensures ParseInt("-" + Decimal(n)) == Int(0 - n)
  {
    var t := "-" + Decimal(n);
    NoLeadingWhiteSpace(t);
    assert t[1..] == Decimal(n);
    MagnitudeOfDecimal(n);
  }

  /** A string with no digit where the number should start gives `NaN`, the empty string included. */
  lemma ParseIntNoDigits(s: string)
    requires forall i :: 0 <= i < |s| ==> !IsDecimalDigit(s[i])
    ensures ParseInt(s) == NaN
  {
    var t := TrimStart(s);
    var k := |s| - |t|;
    if t != [] {
      assert t[0] == s[k];
      if |t| > 1 { assert t[1] == s[k + 1]; }
    }
  }

  /** Leading whitespace makes no difference. */
  lemma ParseIntSkipsWhiteSpace(w: string, s: string)
    requires AllWhiteSpace(w)
    ensures ParseInt(w + s) == ParseInt(s)
  {
    TrimStartOfWhiteSpace(w, s);
  }

  lemma {:induction false} TrimStartOfWhiteSpace(w: string, s: string)
    requires AllWhiteSpace(w)
    ensures TrimStart(w + s) == TrimStart(s)
  {
    if w == [] {
      assert w + s == s;
    } else {
      assert (w + s)[0] == w[0];
      assert IsWhiteSpace(w[0]);
      assert (w + s)[1..] == w[1..] + s;
      TrimStartOfWhiteSpace(w[1..], s);
    }
  }

  /**
   * Reading stops at the first character that is not a digit: a decimal
   * number followed by anything else (`"12abc"`, `"7.5"`, `"200px"`) gives
   * that number, unless the text is `0x`/`0X`, the hexadecimal prefix.
   */
  lemma ParseIntStopsAtNonDigit(n: nat, rest: string)
    requires rest != [] ==> !IsDecimalDigit(rest[0])
    requires n == 0 && rest != [] ==> rest[0] != 'x' && rest[0] != 'X'
    ensures ParseInt(Decimal(n) + rest) == Int(n)
  {
    var d := Decimal(n);
    var s := d + rest;
    assert s[0] == d[0];
    DigitIsNotWhiteSpace(s[0]);
    NoLeadingWhiteSpace(s);
    assert s[0] != '-' && s[0] != '+';
    assert |s| >= 2 ==> s[1] == (if |d| >= 2 then d[1] else rest[0]);
    DigitPrefixOfDigitsThen(d, rest);
    DecimalValue(n);
  }

  /** The digit prefix of a digit string followed by a non-digit is that digit string. */
  lemma {:induction false} DigitPrefixOfDigitsThen(d: string, rest: string)
    requires forall i :: 0 <= i < |d| ==> IsDecimalDigit(d[i])
    requires rest != [] ==> !IsDecimalDigit(rest[0])
    ensures DigitPrefix(d + rest, 10) == d
  {
    if d != [] {
      assert (d + rest)[0] == d[0];
      assert (d + rest)[1..] == d[1..] + rest;
      DigitPrefixOfDigitsThen(d[1..], rest);
    } else {
      assert d + rest == rest;
    }
  }
}
