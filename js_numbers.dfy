/**
 * The parts of JavaScript's value and number semantics that the modelled code
 * relies on: truthiness, strict equality with 0, `parseInt`, `parseFloat`, the
 * `Number(...)` coercion that `/` applies to its operands, and `String(n)` for
 * integers. Numbers are reals: double rounding, overflow to Infinity and the
 * sign of zero are not modelled.
 */
module JsNumbers {
  import opened Wrappers

  /** A JavaScript number: a finite value, NaN, or an infinity of either sign. */
  datatype Number = Finite(value: real) | NaN | Infinity(negative: bool)

  /** A property of a parsed JSON body: `Arr` is an array, `Obj` any other object. */
  datatype JsValue = Undefined | Null | Bool(b: bool) | Num(n: real) | Str(s: string) | Arr(elems: seq<JsValue>) | Obj

  /** `!!v` for a JSON value: false exactly for undefined, null, false, 0 and "". */
  predicate Truthy(v: JsValue)
  {
    match v
    case Undefined => false
    case Null => false
    case Bool(b) => b
    case Num(n) => n != 0.0
    case Str(s) => s != ""
    case Arr(_) => true
    case Obj => true
  }

  /** `!!x` for a number: false exactly for 0 and NaN. */
  predicate NumberTruthy(x: Number)
  {
    match x
    case Finite(v) => v != 0.0
    case NaN => false
    case Infinity(_) => true
  }

  /** How `JSON.stringify` writes a number: NaN and the infinities become null. */
  function NumberToJson(x: Number): (v: JsValue)
    ensures v.Num? <==> x.Finite?
    ensures x.Finite? ==> v == Num(x.value)
    ensures !x.Finite? ==> v == Null
  {
    if x.Finite? then Num(x.value) else Null
  }

  /** JavaScript's `a < b` on numbers; every comparison with NaN is false. */
  predicate NumberLess(a: Number, b: Number)
  {
    match (a, b)
    case (Finite(x), Finite(y)) => x < y
    case (Infinity(n), Finite(_)) => n
    case (Finite(_), Infinity(n)) => !n
    case (Infinity(n), Infinity(m)) => n && !m
    case _ => false
  }

  /** `a / b` (the sign of zero is not modelled, so 0 counts as +0). */
  function Divide(a: Number, b: Number): Number
  {
    match (a, b)
    case (Finite(x), Finite(y)) =>
      if y != 0.0 then Finite(x / y) else if x == 0.0 then NaN else Infinity(x < 0.0)
    case (Finite(_), Infinity(_)) => Finite(0.0)
    case (Infinity(n), Finite(y)) => Infinity(n != (y < 0.0))
    case _ => NaN
  }

  /** `a * b`. */
  function Multiply(a: Number, b: Number): Number
  {
    match (a, b)
    case (Finite(x), Finite(y)) => Finite(x * y)
    case (Infinity(n), Finite(y)) => if y == 0.0 then NaN else Infinity(n != (y < 0.0))
    case (Finite(x), Infinity(n)) => if x == 0.0 then NaN else Infinity(n != (x < 0.0))
    case (Infinity(n), Infinity(m)) => Infinity(n != m)
    case _ => NaN
  }

  // ---------------------------------------------------------------------------
  // Decimal digits

  predicate IsDigit(c: char)
  {
    '0' <= c <= '9'
  }

  predicate AllDigits(s: string)
  {
    forall i :: 0 <= i < |s| ==> IsDigit(s[i])
  }

  function DigitValue(c: char): (d: nat)
    requires IsDigit(c)
    ensures d < 10
  {
    (c as int) - ('0' as int)
  }

  function DigitChar(d: nat): (c: char)
    requires d < 10
    ensures IsDigit(c) && DigitValue(c) == d
  {
    (('0' as int) + d) as char
  }

  /** The value of a run of decimal digits, most significant first. */
  function DigitsValue(s: string): nat
    requires AllDigits(s)
  {
    if s == [] then 0 else 10 * DigitsValue(s[..|s| - 1]) + DigitValue(s[|s| - 1])
  }

  /** The length of the longest prefix of `s` made of decimal digits. */
  function DigitRun(s: string): (k: nat)
    ensures k <= |s|
    ensures AllDigits(s[..k])
    ensures k < |s| ==> !IsDigit(s[k])
  {
    if s != [] && IsDigit(s[0]) then
      var k := 1 + DigitRun(s[1..]);
      assert s[..k] == [s[0]] + s[1..][..k - 1];
      k
    else 0
  }

  /** `String(n)` for a non-negative integer: its shortest decimal numeral. */
  function NatToString(n: nat): string
  {
    if n < 10 then [DigitChar(n)] else NatToString(n / 10) + [DigitChar(n % 10)]
  }

  /** `String(n)` for an integer, with a leading '-' when it is negative. */
  function IntToString(n: int): string
  {
    if n < 0 then "-" + NatToString(-n) else NatToString(n)
  }

  /** The numeral of a natural number is a non-empty run of digits without a leading zero. */
  lemma {:induction false} NatToStringDigits(n: nat)
    ensures |NatToString(n)| > 0 && AllDigits(NatToString(n))
    ensures |NatToString(n)| > 1 ==> NatToString(n)[0] != '0'
  {
    if n >= 10 {
      NatToStringDigits(n / 10);
      var s := NatToString(n);
      assert s[0] == NatToString(n / 10)[0];
      forall i | 0 <= i < |s| ensures IsDigit(s[i]) {
        if i < |s| - 1 {
          assert s[i] == NatToString(n / 10)[i];
        }
      }
    }
  }

  /** `String(n)` starts with '-' exactly for negative `n`, and is digits otherwise. */
  lemma IntToStringShape(n: int)
    ensures |IntToString(n)| > 0
    ensures IntToString(n)[0] == '-' <==> n < 0
    ensures n >= 0 ==> AllDigits(IntToString(n))
    ensures forall i :: 0 <= i < |IntToString(n)| ==> IsDigit(IntToString(n)[i]) || (i == 0 && IntToString(n)[i] == '-')
  {
    var digits := NatToString(if n < 0 then -n else n);
    NatToStringDigits(if n < 0 then -n else n);
    if n < 0 {
      var s := IntToString(n);
      assert s == "-" + digits;
      forall i | 0 < i < |s| ensures IsDigit(s[i]) {
        assert s[i] == digits[i - 1];
      }
    }
  }

  lemma {:induction false} NatToStringValue(n: nat)
    ensures AllDigits(NatToString(n)) && DigitsValue(NatToString(n)) == n
  {
    NatToStringDigits(n);
    if n >= 10 {
      var s := NatToString(n);
      NatToStringDigits(n / 10);
      assert s[..|s| - 1] == NatToString(n / 10);
      NatToStringValue(n / 10);
    }
  }

  lemma {:induction false} DigitRunOfDigits(s: string, rest: string)
    requires AllDigits(s)
    requires rest == [] || !IsDigit(rest[0])
    ensures DigitRun(s + rest) == |s|
  {
    if s != [] {
      assert (s + rest)[1..] == s[1..] + rest;
      DigitRunOfDigits(s[1..], rest);
    } else {
      assert s + rest == rest;
    }
  }

  /** `String` is injective on integers, so a numeral names one integer. */
  lemma IntToStringInjective(m: int, n: int)
    requires IntToString(m) == IntToString(n)
    ensures m == n
  {
    ParseIntRoundTrip(m);
    ParseIntRoundTrip(n);
  }

  // ---------------------------------------------------------------------------
  // Whitespace

  /** JavaScript's WhiteSpace and LineTerminator characters, which the parsers skip. */
  predicate IsJsSpace(c: char)
  {
    ('\U{0009}' <= c <= '\U{000D}') || c == ' ' || c == '\U{00A0}' || c == '\U{1680}'
    || ('\U{2000}' <= c <= '\U{200A}') || c == '\U{2028}' || c == '\U{2029}'
    || c == '\U{202F}' || c == '\U{205F}' || c == '\U{3000}' || c == '\U{FEFF}'
  }

  /** `s` without its leading whitespace. */
  function TrimStart(s: string): string
  {
    if s != [] && IsJsSpace(s[0]) then TrimStart(s[1..]) else s
  }

  /** Trimming removes exactly the leading run of whitespace. */
  lemma {:induction false} TrimStartShape(s: string)
    ensures |TrimStart(s)| <= |s| && TrimStart(s) == s[|s| - |TrimStart(s)|..]
    ensures TrimStart(s) != [] ==> !IsJsSpace(TrimStart(s)[0])
    ensures forall i :: 0 <= i < |s| - |TrimStart(s)| ==> IsJsSpace(s[i])
  {
    if s != [] && IsJsSpace(s[0]) {
      TrimStartShape(s[1..]);
      forall i | 1 <= i < |s| - |TrimStart(s)| ensures IsJsSpace(s[i]) {
        assert s[i] == s[1..][i - 1];
      }
    }
  }

  /** `s` without its trailing whitespace. */
  function TrimEnd(s: string): string
  {
    if s != [] && IsJsSpace(s[|s| - 1]) then TrimEnd(s[..|s| - 1]) else s
  }

  /** Trimming removes exactly the trailing run of whitespace. */
  lemma {:induction false} TrimEndShape(s: string)
    ensures |TrimEnd(s)| <= |s| && TrimEnd(s) == s[..|TrimEnd(s)|]
    ensures TrimEnd(s) != [] ==> !IsJsSpace(TrimEnd(s)[|TrimEnd(s)| - 1])
    ensures forall i :: |TrimEnd(s)| <= i < |s| ==> IsJsSpace(s[i])
  {
    if s != [] && IsJsSpace(s[|s| - 1]) {
      TrimEndShape(s[..|s| - 1]);
      forall i | |TrimEnd(s)| <= i < |s| - 1 ensures IsJsSpace(s[i]) {
        assert s[i] == s[..|s| - 1][i];
      }
    }
  }

  // ---------------------------------------------------------------------------
  // Decimal literals

  /** 10 to the power `k`. */
  function Pow10(k: nat): (r: real)
    ensures r >= 1.0
  {
    if k == 0 then 1.0 else 10.0 * Pow10(k - 1)
  }

  /** A decimal value and the number of characters that spell it. */
  datatype Scan = Scan(value: real, length: nat)

  /** An optional exponent part `e[+-]digits` at the start of `s`; length 0 when there is none. */
  function ScanExponent(s: string): (r: Scan)
    ensures r.length <= |s|
    ensures r.length > 0 ==> s[0] == 'e' || s[0] == 'E'
  {
    if s == [] || (s[0] != 'e' && s[0] != 'E') then Scan(1.0, 0)
    else
      var signed := |s| > 1 && (s[1] == '+' || s[1] == '-');
      var start := if signed then 2 else 1;
      var k := DigitRun(s[start..]);
      if k == 0 then Scan(1.0, 0)
      else
        var e := DigitsValue(s[start..][..k]);
        Scan(if signed && s[1] == '-' then 1.0 / Pow10(e) else Pow10(e), start + k)
  }

  /**
   * The longest prefix of `s` that is an unsigned decimal literal: digits, an
   * optional '.' with more digits and an optional exponent, with at least one
   * digit before the exponent. None when `s` does not start with one.
   */
  function ScanUnsignedDecimal(s: string): (r: Option<Scan>)
    ensures r.Some? ==> 0 < r.value.length <= |s|
    ensures r.Some? <==> DecimalSpan(s) > 0
    ensures r.Some? ==> r.value.length == DecimalSpan(s)
  {
    var i := DigitRun(s);
    var point := i < |s| && s[i] == '.';
    var f := if point then DigitRun(s[i + 1..]) else 0;
    if i == 0 && f == 0 then None
    else
      var whole := DigitsValue(s[..i]) as real;
      var fraction := if f > 0 then DigitsValue(s[i + 1..][..f]) as real / Pow10(f) else 0.0;
      var j := if point then i + 1 + f else i;
      var e := ScanExponent(s[j..]);
      var mantissa := whole + fraction;
      Some(Scan(if e.length == 0 then mantissa else mantissa * e.value, DecimalSpan(s)))
  }

  /** Where the digits of `s` and an optional '.' with more digits end. */
  function FractionEnd(s: string): (j: nat)
    ensures DigitRun(s) <= j <= |s|
  {
    var i := DigitRun(s);
    if i < |s| && s[i] == '.' then i + 1 + DigitRun(s[i + 1..]) else i
  }

  /** How many characters of `s` its leading unsigned decimal literal spans; 0 when there is none. */
  function DecimalSpan(s: string): (n: nat)
    ensures n <= |s|
    ensures n == 0 || n == FractionEnd(s) + ScanExponent(s[FractionEnd(s)..]).length
  {
    var i := DigitRun(s);
    var point := i < |s| && s[i] == '.';
    var f := if point then DigitRun(s[i + 1..]) else 0;
    var j := FractionEnd(s);
    if i == 0 && f == 0 then 0 else j + ScanExponent(s[j..]).length
  }

  /** The sign of a numeric string: whether it starts with '-', and the text after a leading '+' or '-'. */
  function Unsigned(t: string): (u: string)
    ensures |u| <= |t|
  {
    if t != [] && (t[0] == '-' || t[0] == '+') then t[1..] else t
  }

  function ApplySign(negative: bool, x: real): real
  {
    if negative then -x else x
  }

  /** JavaScript's `parseInt(s)` with no radix, for decimal text. */
  function ParseInt(s: string): (x: Number)
    ensures x.Finite? || x.NaN?
  {
    var t := TrimStart(s);
    var u := Unsigned(t);
    var k := DigitRun(u);
    if k == 0 then NaN else Finite(ApplySign(t[0] == '-', DigitsValue(u[..k]) as real))
  }

  /** JavaScript's `parseFloat(s)`: the longest numeric prefix after leading whitespace. */
  function ParseFloat(s: string): (x: Number)
  {
    var t := TrimStart(s);
    var u := Unsigned(t);
    var negative := t != [] && t[0] == '-';
    if "Infinity" <= u then Infinity(negative)
    else match ScanUnsignedDecimal(u)
      case None => NaN
      case Some(sc) => Finite(ApplySign(negative, sc.value))
  }

  /** `Number(s)`: the whole text, without surrounding whitespace, must be a numeral; "" is 0. */
  function StringToNumber(s: string): (x: Number)
    ensures TrimEnd(TrimStart(s)) == [] ==> x == Finite(0.0)
  {
    var t := TrimEnd(TrimStart(s));
    var u := Unsigned(t);
    var negative := t != [] && t[0] == '-';
    if t == [] then Finite(0.0)
    else if u == "Infinity" then Infinity(negative)
    else match ScanUnsignedDecimal(u)
      case Some(sc) => if sc.length == |u| then Finite(ApplySign(negative, sc.value)) else NaN
      case None => NaN
  }

  /** The number a JSON value becomes when an arithmetic operator coerces it. */
  function ToNumber(v: JsValue): (x: Number)
    ensures v.Num? ==> x == Finite(v.n)
    ensures v.Null? ==> x == Finite(0.0)
    ensures v.Undefined? || v.Obj? ==> x == NaN
    ensures v.Arr? ==> x == TextNumber(v)
  {
    match v
    case Undefined => NaN
    case Null => Finite(0.0)
    case Bool(b) => Finite(if b then 1.0 else 0.0)
    case Num(n) => Finite(n)
    case Str(s) => StringToNumber(s)
    case Arr(_) => TextNumber(v)
    case Obj => NaN
  }

  /**
   * `Number` of the text of `v` as `join` writes an array element: null and
   * undefined are "", `true` and `false` are words, a number is its own
   * numeral, and an object is "[object Object]". An array is the text of its
   * elements joined by ",": "" when empty, the one element's text, and text
   * with a comma when longer (see `CommaTextIsNaN`).
   */
  function TextNumber(v: JsValue): (x: Number)
    ensures v.Str? ==> x == StringToNumber(v.s)
    ensures v.Num? ==> x == Finite(v.n)
    ensures v.Undefined? || v.Null? || (v.Arr? && v.elems == []) ==> x == Finite(0.0)
  {
    match v
    case Undefined => Finite(0.0)
    case Null => Finite(0.0)
    case Bool(_) => NaN
    case Num(n) => Finite(n)
    case Str(s) => StringToNumber(s)
    case Arr(es) =>
      if es == [] then Finite(0.0)
      else if |es| == 1 then
        assert es[0] in es;
        TextNumber(es[0])
      else NaN
    case Obj => NaN
  }

  /** A one-element array coerces as the text of its element does. */
  lemma SingletonArrayNumber(e: JsValue)
    ensures ToNumber(Arr([e])) == TextNumber(e)
  {
  }

  /** A character a decimal literal can hold. */
  predicate NumeralChar(c: char)
  {
    IsDigit(c) || c == '.' || c == 'e' || c == 'E' || c == '+' || c == '-'
  }

  /** An exponent part at `j` is spelled with numeral characters only. */
  lemma ExponentChars(s: string, j: nat)
    requires j <= |s|
    ensures forall k :: j <= k < j + ScanExponent(s[j..]).length ==> NumeralChar(s[k])
  {
    var t := s[j..];
    var r := ScanExponent(t);
    if r.length > 0 {
      var signed := |t| > 1 && (t[1] == '+' || t[1] == '-');
      var start := if signed then 2 else 1;
      var k := DigitRun(t[start..]);
      assert r.length == start + k;
      forall i | j + start <= i < j + r.length ensures NumeralChar(s[i]) {
        assert s[i] == t[start..][..k][i - j - start];
      }
      assert s[j] == t[0];
      if signed {
        assert s[j + 1] == t[1];
      }
    }
  }

  /** A run of digits at `lo..hi` is spelled with numeral characters. */
  lemma DigitsAreNumeral(s: string, lo: nat, hi: nat)
    requires lo <= hi <= |s| && AllDigits(s[lo..hi])
    ensures forall k :: lo <= k < hi ==> NumeralChar(s[k])
  {
    forall k | lo <= k < hi ensures NumeralChar(s[k]) {
      assert s[k] == s[lo..hi][k - lo];
    }
  }

  /** A decimal literal is spelled with numeral characters only. */
  lemma DecimalChars(s: string)
    ensures forall k :: 0 <= k < DecimalSpan(s) ==> NumeralChar(s[k])
  {
    var i := DigitRun(s);
    var point := i < |s| && s[i] == '.';
    var f := if point then DigitRun(s[i + 1..]) else 0;
    var j := if point then i + 1 + f else i;
    assert s[..i] == s[0..i];
    DigitsAreNumeral(s, 0, i);
    if point {
      assert s[i + 1..][..f] == s[i + 1..j];
      DigitsAreNumeral(s, i + 1, j);
    }
    assert j == FractionEnd(s);
    ExponentChars(s, j);
    var n := j + ScanExponent(s[j..]).length;
    forall k | 0 <= k < n ensures NumeralChar(s[k]) {
      if k < i {
      } else if k < j {
        if k == i {
          assert point && s[k] == '.';
        }
      }
    }
  }

  /** `Number` of a text holding a comma is NaN: no numeral contains one. */
  lemma CommaTextIsNaN(s: string, p: nat)
    requires p < |s| && s[p] == ','
    ensures StringToNumber(s) == NaN
  {
    TrimStartShape(s);
    var t0 := TrimStart(s);
    TrimEndShape(t0);
    var t := TrimEnd(t0);
    var off := |s| - |t0|;
    assert !IsJsSpace(s[p]);
    assert off <= p;
    assert s[p] == t0[p - off];
    assert p - off < |t|;
    assert t[p - off] == ',';
    var u := Unsigned(t);
    var q := if t != [] && (t[0] == '-' || t[0] == '+') then p - off - 1 else p - off;
    assert 0 <= q < |u| && u[q] == ',';
    assert !NumeralChar(u[q]);
    assert u != "Infinity";
    DecimalChars(u);
  }

  /** An array of two or more elements coerces to NaN: `join` puts a comma between them. */
  lemma LongArrayIsNaN(es: seq<JsValue>, joined: string)
    requires |es| >= 2
    requires exists p :: 0 <= p < |joined| && joined[p] == ','
    ensures TextNumber(Arr(es)) == StringToNumber(joined)
  {
    var p :| 0 <= p < |joined| && joined[p] == ',';
    CommaTextIsNaN(joined, p);
  }

  // ---------------------------------------------------------------------------
  // Round trips through String(n)

  /** `parseInt(String(n)) === n` for every integer. */
  lemma ParseIntRoundTrip(n: int)
    ensures ParseInt(IntToString(n)) == Finite(n as real)
  {
    var m: nat := if n < 0 then -n else n;
    var digits := NatToString(m);
    assert IntToString(n) == if n < 0 then "-" + digits else digits;
    NatToStringValue(m);
    ParseIntOfDigits(IntToString(n), digits, n < 0);
    assert ApplySign(n < 0, m as real) == n as real;
  }

  lemma ParseIntOfDigits(s: string, digits: string, negative: bool)
    requires digits != [] && AllDigits(digits)
    requires s == if negative then "-" + digits else digits
    ensures ParseInt(s) == Finite(ApplySign(negative, DigitsValue(digits) as real))
  {
    SignedDigitsShape(s, digits, negative);
    DigitRunOfDigits(digits, []);
    assert digits + [] == digits;
    assert digits[..|digits|] == digits;
  }

  /** A numeral `-digits` or `digits` has no leading space, and its sign is read off its first character. */
  lemma SignedDigitsShape(s: string, digits: string, negative: bool)
    requires digits != [] && AllDigits(digits)
    requires s == if negative then "-" + digits else digits
    ensures s != [] && TrimStart(s) == s && Unsigned(s) == digits && (s[0] == '-') == negative
  {
    assert IsDigit(digits[0]);
    assert !IsJsSpace(s[0]);
  }

  /** A run of digits alone scans as the integer it spells, using all of it. */
  lemma ScanDigits(digits: string)
    requires digits != [] && AllDigits(digits)
    ensures ScanUnsignedDecimal(digits) == Some(Scan(DigitsValue(digits) as real, |digits|))
  {
    DigitRunOfDigits(digits, []);
    assert digits + [] == digits;
    ScanWholeRun(digits);
    assert digits[..|digits|] == digits;
  }

  /** A string that is one run of digits scans whole, with no point or exponent. */
  lemma ScanWholeRun(s: string)
    requires 0 < DigitRun(s) == |s|
    ensures ScanUnsignedDecimal(s) == Some(Scan(DigitsValue(s[..|s|]) as real, |s|))
  {
    assert s[|s|..] == [];
  }

  /** `parseFloat(String(n)) === n` for every integer. */
  lemma ParseFloatRoundTrip(n: int)
    ensures ParseFloat(IntToString(n)) == Finite(n as real)
  {
    var m: nat := if n < 0 then -n else n;
    var digits := NatToString(m);
    assert IntToString(n) == if n < 0 then "-" + digits else digits;
    NatToStringValue(m);
    ParseFloatOfDigits(IntToString(n), digits, n < 0);
    assert ApplySign(n < 0, m as real) == n as real;
  }

  lemma ParseFloatOfDigits(s: string, digits: string, negative: bool)
    requires digits != [] && AllDigits(digits)
    requires s == if negative then "-" + digits else digits
    ensures ParseFloat(s) == Finite(ApplySign(negative, DigitsValue(digits) as real))
  {
    SignedDigitsShape(s, digits, negative);
    ScanDigits(digits);
    assert !("Infinity" <= digits) by { assert IsDigit(digits[0]) && "Infinity"[0] == 'I'; }
  }
}
