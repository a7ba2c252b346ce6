/**
  JavaScript numbers and the string conversions the calculator relies on:
  `parseFloat`, `parseInt`, `Number(string)`, `Number.prototype.toString`,
  and the `Math` functions of the scientific panel.

  A number is an exact real, an infinity or NaN. IEEE-754 rounding and the
  sign of zero are not modelled. The rendering of finite numbers and the values
  of the transcendental functions belong to the JavaScript engine; they are the
  fields of a `Host` value, and `HostValid` and `RendersIntegers` state what the engine guarantees
  about them.
*/
module Numbers {
  import opened Wrappers

  datatype Num = Finite(value: real) | PosInf | NegInf | NaN

  // ---------------------------------------------------------------------
  // Arithmetic and comparison (IEEE-754 special values over exact reals)
  // ---------------------------------------------------------------------

  function Neg(x: Num): Num {
    match x
    case Finite(a) => Finite(-a)
    case PosInf => NegInf
    case NegInf => PosInf
    case NaN => NaN
  }

  function Add(x: Num, y: Num): Num {
    match (x, y)
    case (NaN, _) => NaN
    case (_, NaN) => NaN
    case (PosInf, NegInf) => NaN
    case (NegInf, PosInf) => NaN
    case (PosInf, _) => PosInf
    case (NegInf, _) => NegInf
    case (_, PosInf) => PosInf
    case (_, NegInf) => NegInf
    case (Finite(a), Finite(b)) => Finite(a + b)
  }

  function Sub(x: Num, y: Num): Num {
    Add(x, Neg(y))
  }

  /** -1, 0 or 1 for a non-NaN number. */
  function Sign(x: Num): int
    requires !x.NaN?
  {
    match x
    case Finite(a) => if a < 0.0 then -1 else if a == 0.0 then 0 else 1
    case PosInf => 1
    case NegInf => -1
  }

  /** The infinity on the given side of zero. */
  function Infinity(negative: bool): Num {
    if negative then NegInf else PosInf
  }

  function Mul(x: Num, y: Num): Num {
    if x.NaN? || y.NaN? then NaN
    else if x.Finite? && y.Finite? then Finite(x.value * y.value)
    else if Sign(x) == 0 || Sign(y) == 0 then NaN
    else Infinity((Sign(x) < 0) != (Sign(y) < 0))
  }

  /** Division; a zero divisor is taken to be +0. */
  function Div(x: Num, y: Num): Num {
    if x.NaN? || y.NaN? then NaN
    else if !x.Finite? && !y.Finite? then NaN
    else if !x.Finite? then Infinity((Sign(x) < 0) != (Sign(y) < 0))
    else if !y.Finite? then Zero
    else if y.value == 0.0 then (if x.value == 0.0 then NaN else Infinity(x.value < 0.0))
    else Finite(x.value / y.value)
  }

  /** JavaScript's `x < y`: false whenever NaN is involved. */
  predicate Less(x: Num, y: Num) {
    match (x, y)
    case (Finite(a), Finite(b)) => a < b
    case (NegInf, Finite(_)) => true
    case (NegInf, PosInf) => true
    case (Finite(_), PosInf) => true
    case _ => false
  }

  /** JavaScript's `x > y`. */
  predicate Greater(x: Num, y: Num) {
    Less(y, x)
  }

  /**
    The constant numbers the arithmetic of the calculator and the converter
    uses, named so that they are written once.
  */
  const Zero: Num := Finite(0.0)
  const One: Num := Finite(1.0)
  const Hundred: Num := Finite(100.0)

  /** JavaScript's falsy numbers: NaN and zero (the left operand of `||`). */
  predicate Falsy(x: Num) {
    x.NaN? || x == Zero
  }

  // ---------------------------------------------------------------------
  // Characters and digit strings
  // ---------------------------------------------------------------------

  /** The value of `c` as a digit of radix 36; 36 when it is no digit at all. */
  function DigitValue(c: char): nat {
    if '0' <= c <= '9' then c as int - '0' as int
    else if 'a' <= c <= 'z' then c as int - 'a' as int + 10
    else if 'A' <= c <= 'Z' then c as int - 'A' as int + 10
    else 36
  }

  /** The lower-case digit JavaScript's `toString(radix)` writes for `d`. */
  function DigitChar(d: nat): char
    requires d < 36
  {
    if d < 10 then ('0' as int + d) as char else ('a' as int + d - 10) as char
  }

  /** Length of the longest prefix of `s` made of digits of `radix`. */
  function DigitRun(s: string, radix: nat): (n: nat)
    ensures n <= |s|
  {
    if s == [] || DigitValue(s[0]) >= radix then 0 else 1 + DigitRun(s[1..], radix)
  }

  /** The number the digits of `s` denote in `radix`, most significant first. */
  function ValueOf(s: string, radix: nat): nat {
    if s == [] then 0 else ValueOf(s[..|s| - 1], radix) * radix + DigitValue(s[|s| - 1])
  }

  /** `n.toString(radix)` for a non-negative integer. */
  function NatToString(n: nat, radix: nat): (s: string)
    requires 2 <= radix <= 36
    decreases n
  {
    if n < radix then [DigitChar(n)]
    else DivMod(n, radix); NatToString(n / radix, radix) + [DigitChar(n % radix)]
  }

  lemma DivMod(n: nat, radix: nat)
    requires 2 <= radix <= n
    ensures 0 < n / radix < n && n % radix < radix && n == (n / radix) * radix + n % radix
  {
  }

  /** `n.toString(radix)` for an integer. */
  function IntToString(n: int, radix: nat): string
    requires 2 <= radix <= 36
  {
    if n < 0 then "-" + NatToString(-n, radix) else NatToString(n, radix)
  }

  /** `toUpperCase` on the characters a number's rendering can contain. */
  function ToUpper(s: string): (t: string)
    ensures |t| == |s|
  {
    if s == [] then [] else [UpperChar(s[0])] + ToUpper(s[1..])
  }

  function UpperChar(c: char): char {
    if 'a' <= c <= 'z' then (c as int - 32) as char else c
  }

  function Count(s: string, c: char): nat {
    if s == [] then 0 else (if s[0] == c then 1 else 0) + Count(s[1..], c)
  }

  /** `v` times 10 raised to `e`, exactly. */
  function ScaleBy(v: real, e: int): real
    decreases if e < 0 then -e else e
  {
    if e == 0 then v
    else if e > 0 then ScaleBy(v, e - 1) * 10.0
    else ScaleBy(v, e + 1) / 10.0
  }

  // ---------------------------------------------------------------------
  // White space (StrWhiteSpaceChar of ECMA-262: WhiteSpace and LineTerminator)
  // ---------------------------------------------------------------------

  predicate IsSpace(c: char) {
    c == '\t' || c == '\n' || c == '\U{000B}' || c == '\U{000C}' || c == '\r' || c == ' '
    || c == '\U{00A0}' || c == '\U{1680}' || ('\U{2000}' <= c <= '\U{200A}')
    || c == '\U{2028}' || c == '\U{2029}' || c == '\U{202F}' || c == '\U{205F}'
    || c == '\U{3000}' || c == '\U{FEFF}'
  }

  function TrimStart(s: string): (t: string)
    ensures |t| <= |s| && t == s[|s| - |t|..]
    ensures t == [] || !IsSpace(t[0])
  {
    if s != [] && IsSpace(s[0]) then TrimStart(s[1..]) else s
  }

  function TrimEnd(s: string): (t: string)
    ensures |t| <= |s| && t == s[..|t|]
    ensures t == [] || !IsSpace(t[|t| - 1])
  {
    if s != [] && IsSpace(s[|s| - 1]) then TrimEnd(s[..|s| - 1]) else s
  }

  // ---------------------------------------------------------------------
  // parseFloat, Number(string), parseInt
  // ---------------------------------------------------------------------

  /** A number read from the front of a string, and how many characters it took. */
  datatype Scanned = Scanned(value: Num, length: nat)

  /** The optional exponent part `e[+-]digits` at the front of `t`: (value, length); (0, 0) when absent. */
  function ScanExponent(t: string): (r: (int, nat))
    ensures r.1 <= |t|
  {
    if |t| > 0 && (t[0] == 'e' || t[0] == 'E') then
      var signLen := if |t| > 1 && (t[1] == '+' || t[1] == '-') then 1 else 0;
      var k := DigitRun(t[1 + signLen..], 10);
      if k == 0 then (0, 0)
      else
        var v: int := ValueOf(t[1 + signLen..1 + signLen + k], 10);
        (if signLen == 1 && t[1] == '-' then -v else v, 1 + signLen + k)
    else (0, 0)
  }

  /** The digits of a decimal mantissa (fraction digits included), how many of them follow the point, and the characters it took. */
  datatype Mantissa = Mantissa(digits: string, fractionLength: nat, length: nat)

  /** `digits[.digits]` or `.digits` at the front of `body`. */
  function ScanMantissa(body: string): (r: Option<Mantissa>)
    ensures r.Some? ==> 0 < r.value.length <= |body|
  {
    var i := DigitRun(body, 10);
    var dot := i < |body| && body[i] == '.';
    var f := if dot then DigitRun(body[i + 1..], 10) else 0;
    if i == 0 && f == 0 then None
    else if dot then Some(Mantissa(body[..i] + body[i + 1..i + 1 + f], f, i + 1 + f))
    else Some(Mantissa(body[..i], 0, i))
  }

  /** The exact value of a mantissa scaled by 10^exponent. */
  function Magnitude(m: Mantissa, exponent: int): real {
    ScaleBy(ValueOf(m.digits, 10) as real, exponent - m.fractionLength)
  }

  /** `p` is a prefix of `s`. */
  predicate StartsWith(s: string, p: string)
    ensures StartsWith(s, p) ==> |p| <= |s|
  {
    p == [] || (s != [] && s[0] == p[0] && StartsWith(s[1..], p[1..]))
  }

  /** `Infinity`, or a mantissa with an optional exponent, at the front of `body`. */
  function ScanUnsigned(body: string): (r: Option<Scanned>)
    ensures r.Some? ==> 0 < r.value.length <= |body|
  {
    if StartsWith(body, "Infinity") then Some(Scanned(PosInf, 8)) else ScanFinite(body)
  }

  /** A mantissa with an optional exponent at the front of `body`. */
  function ScanFinite(body: string): (r: Option<Scanned>)
    ensures r.Some? ==> 0 < r.value.length <= |body|
  {
    match ScanMantissa(body)
    case None => None
    case Some(m) =>
      var (e, eLen) := ScanExponent(body[m.length..]);
      Some(Scanned(Finite(Magnitude(m, e)), m.length + eLen))
  }

  /**
    The longest prefix of `u` that is a StrDecimalLiteral (an optional sign, then
    `Infinity` or decimal digits with an optional fraction and exponent), or
    None when no prefix of `u` is one.
  */
  function ScanDecimal(u: string): (r: Option<Scanned>)
    ensures r.Some? ==> 0 < r.value.length <= |u|
  {
    var signLen := if |u| > 0 && (u[0] == '+' || u[0] == '-') then 1 else 0;
    match ScanUnsigned(u[signLen..])
    case None => None
    case Some(sc) => Some(Scanned(if signLen == 1 && u[0] == '-' then Neg(sc.value) else sc.value, signLen + sc.length))
  }

  /** `parseFloat(s)`: the longest numeric prefix after leading white space, else NaN. */
  function ParseFloat(s: string): Num {
    match ScanDecimal(TrimStart(s))
    case Some(sc) => sc.value
    case None => NaN
  }

  /** The radix a `0x`/`0o`/`0b` prefix announces, 0 for any other character. */
  function PrefixRadix(c: char): nat {
    if c == 'x' || c == 'X' then 16 else if c == 'o' || c == 'O' then 8 else if c == 'b' || c == 'B' then 2 else 0
  }

  /** `Number(s)`: the whole string, trimmed, must be a numeric literal; empty means 0. */
  function ToNumber(s: string): Num {
    NumericLiteral(TrimEnd(TrimStart(s)))
  }

  /** The value of a trimmed string as a StringNumericLiteral, NaN when it is none. */
  function NumericLiteral(t: string): Num {
    if t == [] then Finite(0.0)
    else if |t| >= 2 && t[0] == '0' && PrefixRadix(t[1]) > 0 then
      var w := t[2..];
      if |w| > 0 && DigitRun(w, PrefixRadix(t[1])) == |w| then Finite(ValueOf(w, PrefixRadix(t[1])) as real) else NaN
    else
      match ScanDecimal(t)
      case Some(sc) => if sc.length == |t| then sc.value else NaN
      case None => NaN
  }

  /**
    `parseInt(s, radix)`, where `radix == 0` stands for an absent radix.
    None is NaN; the result is otherwise always an integer.
  */
  function ParseInt(s: string, radix: int): Option<int> {
    var t := TrimStart(s);
    var negative := |t| > 0 && t[0] == '-';
    var u := if |t| > 0 && (t[0] == '+' || t[0] == '-') then t[1..] else t;
    if radix != 0 && (radix < 2 || radix > 36) then None
    else
      var hex := (radix == 0 || radix == 16) && |u| >= 2 && u[0] == '0' && (u[1] == 'x' || u[1] == 'X');
      var r: nat := if hex then 16 else if radix == 0 then 10 else radix;
      var w := if hex then u[2..] else u;
      var n := DigitRun(w, r);
      if n == 0 then None
      else
        var v: int := ValueOf(w[..n], r);
        Some(if negative then -v else v)
  }

  // ---------------------------------------------------------------------
  // What the JavaScript engine provides
  // ---------------------------------------------------------------------

  /** Integers of smaller magnitude than this are written out digit by digit by `toString`. */
  const PlainIntegerLimit: real := 1000000000000000000000.0

  /**
    The engine: `render` is `Number.prototype.toString` on finite numbers; the
    others are `Math.sin`/`cos`/`tan` applied to an angle given in degrees, and
    `Math.log`, `Math.log10`, `Math.sqrt` on the arguments where they are finite.
  */
  datatype Host = Host(
    render: real -> string,
    sinDeg: real -> real,
    cosDeg: real -> real,
    tanDeg: real -> real,
    ln: real -> real,
    log10: real -> real,
    sqrt: real -> real)

  /**
    What ECMA-262 promises about the shape of `Number::toString`: the text is
    never empty and holds at most one `.`.
  */
  ghost predicate HostValid(host: Host) {
    forall r: real :: |host.render(r)| > 0 && Count(host.render(r), '.') <= 1
  }

  /**
    What ECMA-262 promises about `Number::toString` of an integer below 10^21:
    it is written as its decimal digits.
  */
  ghost predicate RendersIntegers(host: Host) {
    forall r: real :: r.Floor as real == r && -PlainIntegerLimit < r < PlainIntegerLimit ==>
      host.render(r) == IntToString(r.Floor, 10)
  }

  /** `String(x)` / `x.toString()`. */
  function Show(host: Host, x: Num): string {
    match x
    case Finite(a) => host.render(a)
    case PosInf => "Infinity"
    case NegInf => "-Infinity"
    case NaN => "NaN"
  }

  /** `Math.sin(x * Math.PI / 180)` and its two siblings: NaN for NaN and the infinities. */
  function Trig(f: real -> real, x: Num): Num {
    if x.Finite? then Finite(f(x.value)) else NaN
  }

  /** `Math.log` and `Math.log10`: NaN below zero, -Infinity at zero. */
  function Logarithm(f: real -> real, x: Num): Num {
    match x
    case Finite(a) => if a < 0.0 then NaN else if a == 0.0 then NegInf else Finite(f(a))
    case PosInf => PosInf
    case NegInf => NaN
    case NaN => NaN
  }

  /** `Math.sqrt`: NaN below zero. */
  function SquareRoot(f: real -> real, x: Num): Num {
    match x
    case Finite(a) => if a < 0.0 then NaN else Finite(f(a))
    case PosInf => PosInf
    case NegInf => NaN
    case NaN => NaN
  }

  // ---------------------------------------------------------------------
  // Lemmas
  // ---------------------------------------------------------------------

  lemma {:induction false} CountConcat(a: string, b: string, c: char)
    ensures Count(a + b, c) == Count(a, c) + Count(b, c)
  {
    if a == [] {
      assert a + b == b;
    } else {
      assert (a + b)[1..] == a[1..] + b;
      CountConcat(a[1..], b, c);
    }
  }

  lemma {:induction false} CountAbsent(s: string, c: char)
    ensures Count(s, c) == 0 <==> c !in s
  {
    if s != [] {
      CountAbsent(s[1..], c);
      assert s == [s[0]] + s[1..];
    }
  }

  /** Dropping characters from the end never adds an occurrence. */
  lemma {:induction false} CountPrefix(s: string, n: nat, c: char)
    requires n <= |s|
    ensures Count(s[..n], c) <= Count(s, c)
  {
    assert s == s[..n] + s[n..];
    CountConcat(s[..n], s[n..], c);
  }

  lemma DigitCharValue(d: nat)
    requires d < 36
    ensures DigitValue(DigitChar(d)) == d
  {
  }

  /** One digit of `toString(radix)`: the last digit is the remainder. */
  lemma NatToStringStep(n: nat, radix: nat)
    requires 2 <= radix <= 36 && n >= radix
    ensures NatToString(n, radix) == NatToString(n / radix, radix) + [DigitChar(n % radix)]
  {
  }

  ghost predicate AllDigits(s: string, radix: nat) {
    forall i :: 0 <= i < |s| ==> DigitValue(s[i]) < radix
  }

  /** The rendering of a number in any radix is a non-empty run of its digits. */
  lemma {:induction false} NatToStringDigits(n: nat, radix: nat)
    requires 2 <= radix <= 36
    ensures |NatToString(n, radix)| > 0
    ensures AllDigits(NatToString(n, radix), radix)
    decreases n
  {
    if n < radix {
      DigitCharValue(n);
    } else {
      DivMod(n, radix);
      var q, d := n / radix, n % radix;
      NatToStringDigits(q, radix);
      DigitCharValue(d);
      NatToStringStep(n, radix);
      var p := NatToString(q, radix);
      assert NatToString(n, radix) == p + [DigitChar(d)];
    }
  }

  /** ... and reads back as the number. */
  lemma {:induction false} NatToStringValue(n: nat, radix: nat)
    requires 2 <= radix <= 36
    ensures ValueOf(NatToString(n, radix), radix) == n
    decreases n
  {
    if n < radix {
      DigitCharValue(n);
      assert NatToString(n, radix)[..0] == [];
    } else {
      DivMod(n, radix);
      var q, d := n / radix, n % radix;
      NatToStringValue(q, radix);
      DigitCharValue(d);
      NatToStringStep(n, radix);
      var p := NatToString(q, radix);
      var s := NatToString(n, radix);
      assert s == p + [DigitChar(d)];
      assert s[..|s| - 1] == p;
    }
  }

  /** A string all of whose characters are digits of `radix` is its own digit run. */
  lemma {:induction false} AllDigitsRun(s: string, radix: nat)
    requires forall i :: 0 <= i < |s| ==> DigitValue(s[i]) < radix
    ensures DigitRun(s, radix) == |s|
  {
    if s != [] {
      AllDigitsRun(s[1..], radix);
    }
  }

  lemma UpperCharValue(c: char)
    ensures DigitValue(UpperChar(c)) == DigitValue(c)
  {
  }

  lemma {:induction false} ToUpperAt(s: string, i: nat)
    requires i < |s|
    ensures ToUpper(s)[i] == UpperChar(s[i])
  {
    if i > 0 {
      ToUpperAt(s[1..], i - 1);
    }
  }

  /** Digit-wise, upper-casing keeps the value and the digit run. */
  lemma {:induction false} ToUpperValue(s: string, radix: nat)
    ensures ValueOf(ToUpper(s), radix) == ValueOf(s, radix)
    ensures DigitRun(ToUpper(s), radix) == DigitRun(s, radix)
  {
    if s != [] {
      var t := ToUpper(s);
      ToUpperPrefix(s, |s| - 1);
      ToUpperAt(s, |s| - 1);
      UpperCharValue(s[|s| - 1]);
      UpperCharValue(s[0]);
      ToUpperValue(s[..|s| - 1], radix);
      ToUpperValue(s[1..], radix);
      assert t[1..] == ToUpper(s[1..]);
    }
  }

  lemma {:induction false} ToUpperPrefix(s: string, n: nat)
    requires n <= |s|
    ensures ToUpper(s[..n]) == ToUpper(s)[..n]
  {
    if n > 0 {
      assert s[..n][1..] == s[1..][..n - 1];
      ToUpperPrefix(s[1..], n - 1);
    }
  }

  /** No white-space character is a digit. */
  lemma SpaceIsNoDigit(c: char)
    requires IsSpace(c)
    ensures DigitValue(c) == 36
  {
  }

  lemma {:induction false} ToUpperDigits(s: string, radix: nat)
    requires AllDigits(s, radix)
    ensures AllDigits(ToUpper(s), radix)
  {
    forall i | 0 <= i < |s| ensures DigitValue(ToUpper(s)[i]) < radix {
      ToUpperAt(s, i);
      UpperCharValue(s[i]);
    }
  }

  /** `parseInt(s, radix)` of a non-empty string of digits of `radix` is their value. */
  lemma ParseIntOfDigits(s: string, radix: nat)
    requires 2 <= radix <= 36 && s != [] && AllDigits(s, radix)
    ensures ParseInt(s, radix) == Some(ValueOf(s, radix))
  {
    assert DigitValue(s[0]) < radix;
    if IsSpace(s[0]) {
      SpaceIsNoDigit(s[0]);
    }
    assert TrimStart(s) == s;
    if |s| >= 2 {
      assert DigitValue(s[1]) < radix;
    }
    AllDigitsRun(s, radix);
    assert s[..|s|] == s;
  }

  /** `parseInt` reads back what `toString(radix)` wrote, in upper or lower case. */
  lemma {:induction false} NatToStringParseInt(n: nat, radix: nat)
    requires 2 <= radix <= 36
    ensures ParseInt(NatToString(n, radix), radix) == Some(n)
    ensures ParseInt(ToUpper(NatToString(n, radix)), radix) == Some(n)
  {
    var s := NatToString(n, radix);
    NatToStringDigits(n, radix);
    NatToStringValue(n, radix);
    ToUpperDigits(s, radix);
    ToUpperValue(s, radix);
    ParseIntOfDigits(s, radix);
    ParseIntOfDigits(ToUpper(s), radix);
  }

  lemma ScanMantissaOfDigits(s: string)
    requires s != [] && AllDigits(s, 10)
    ensures ScanMantissa(s) == Some(Mantissa(s, 0, |s|))
  {
    AllDigitsRun(s, 10);
    assert s[..|s|] == s;
  }

  lemma MagnitudeOfInteger(s: string)
    ensures Magnitude(Mantissa(s, 0, |s|), 0) == ValueOf(s, 10) as real
  {
  }

  lemma DigitIsNoInfinity(s: string)
    requires s != [] && DigitValue(s[0]) < 10
    ensures !StartsWith(s, "Infinity")
  {
    assert "Infinity"[0] == 'I';
  }

  lemma ScanUnsignedOfDigits(s: string)
    requires s != [] && AllDigits(s, 10)
    ensures ScanUnsigned(s) == Some(Scanned(Finite(ValueOf(s, 10) as real), |s|))
  {
    DigitIsNoInfinity(s);
    ScanFiniteOfDigits(s);
  }

  lemma ScanFiniteOfDigits(s: string)
    requires s != [] && AllDigits(s, 10)
    ensures ScanFinite(s) == Some(Scanned(Finite(ValueOf(s, 10) as real), |s|))
  {
    var m := Mantissa(s, 0, |s|);
    ScanMantissaOfDigits(s);
    assert s[m.length..] == [];
    assert ScanExponent([]) == (0, 0);
    MagnitudeOfInteger(s);
  }

  /** The decimal literal scanner reads a whole non-empty digit string as its value. */
  lemma ScanDecimalOfDigits(s: string)
    requires s != [] && AllDigits(s, 10)
    ensures ScanDecimal(s) == Some(Scanned(Finite(ValueOf(s, 10) as real), |s|))
  {
    assert DigitValue(s[0]) < 10;
    assert s[0..] == s;
    ScanUnsignedOfDigits(s);
  }

  /** White space trimming leaves a digit string alone. */
  lemma TrimDigits(s: string)
    requires s != [] && AllDigits(s, 10)
    ensures TrimStart(s) == s && TrimEnd(s) == s
  {
    assert DigitValue(s[0]) < 10 && DigitValue(s[|s| - 1]) < 10;
    if IsSpace(s[0]) {
      SpaceIsNoDigit(s[0]);
    }
    if IsSpace(s[|s| - 1]) {
      SpaceIsNoDigit(s[|s| - 1]);
    }
  }

  lemma NumericLiteralOfDigits(s: string)
    requires s != [] && AllDigits(s, 10)
    ensures NumericLiteral(s) == Finite(ValueOf(s, 10) as real)
  {
    ScanDecimalOfDigits(s);
    if |s| >= 2 {
      assert DigitValue(s[1]) < 10;
    }
  }

  /** `Number` reads a non-empty decimal digit string as its value. */
  lemma ToNumberOfDigits(s: string)
    requires s != [] && AllDigits(s, 10)
    ensures ToNumber(s) == Finite(ValueOf(s, 10) as real)
  {
    TrimDigits(s);
    NumericLiteralOfDigits(s);
  }

  /** `parseFloat` and `Number` read a decimal digit string as its value. */
  lemma {:induction false} DecimalDigitsParse(n: nat)
    ensures ParseFloat(NatToString(n, 10)) == Finite(n as real)
    ensures ToNumber(NatToString(n, 10)) == Finite(n as real)
  {
    var s := NatToString(n, 10);
    NatToStringDigits(n, 10);
    NatToStringValue(n, 10);
    TrimDigits(s);
    ScanDecimalOfDigits(s);
    ToNumberOfDigits(s);
  }

  lemma ParseFloatEmpty()
    ensures ParseFloat("") == NaN
  {
    assert ScanDecimal("") == None by {
      assert DigitRun("", 10) == 0;
    }
  }
}
