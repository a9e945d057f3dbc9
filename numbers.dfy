/**
 * JavaScript numbers as the trade calculator uses them. Identifiers, seasons,
 * rounds and slots are integral, so a number is either a finite integer or
 * `NaN` (what `Number(...)` gives for text that is not a number, or for
 * `undefined`). Values (player values, curve values, overall picks) may
 * have a fractional part: they are read as reals, `None` standing for NaN,
 * and a fractional number a record carries is written `units / 10^scale`.
 */
module Numbers {
  import opened Wrappers
  import opened Strings

  /** A JavaScript number restricted to integers, or NaN. */
  datatype Num = Finite(value: int) | NaN

  /** `String(n)` / `${n}` for such a number. */
  function NumToString(n: Num): (s: string)
    ensures n.Finite? ==> s == IntToString(n.value)
  {
    match n
    case Finite(v) => IntToString(v)
    case NaN => "NaN"
  }

  /** `String(n).padStart(2, "0")`; "NaN" already has three characters. */
  function Pad2Num(n: Num): string {
    match n
    case Finite(v) => Pad2(v)
    case NaN => "NaN"
  }

  /**
   * `Number(text)` on integer literals: surrounding white space is ignored,
   * blank text is 0, an optional sign precedes the digits; any other text is NaN.
   */
  function ToNumber(s: string): (n: Num)
    ensures Trim(s) == [] ==> n == Finite(0)
  {
    var t := Trim(s);
    if t == [] then Finite(0)
    else if (t[0] == '-' || t[0] == '+') && |t| > 1 && AllDigits(t[1..]) then
      Finite(if t[0] == '-' then -(DigitsValue(t[1..]) as int) else DigitsValue(t[1..]))
    else if AllDigits(t) then Finite(DigitsValue(t))
    else NaN
  }

  /** `Number(cell)` where the cell may be missing (`Number(undefined)` is NaN). */
  function CellNumber(cell: Option<string>): (n: Num)
    ensures cell.None? ==> n == NaN
  {
    match cell
    case Some(s) => ToNumber(s)
    case None => NaN
  }

  /** `toNum(v, d)`: the number when finite, the fallback otherwise. */
  function NumOr(n: Num, fallback: Num): Num {
    if n.Finite? then n else fallback
  }

  /** `Number(cell)` with the fraction kept, where the cell may be missing; `None` is NaN. */
  function CellReal(cell: Option<string>): Option<real> {
    match cell
    case Some(s) => ParseDecimal(s)
    case None => None
  }

  /** `toNum(v, d)` with the fraction kept: the number when it is finite, `d` otherwise. */
  function ToNum(cell: Option<string>, d: real): real {
    CellReal(cell).GetOr(d)
  }

  /** What `Number(String(i))` gives back: the integer rendering parses to itself. */
  lemma IntToStringToNumber(i: int)
    ensures ToNumber(IntToString(i)) == Finite(i)
  {
    var s := IntToString(i);
    NatToStringValue(if i < 0 then -i else i);
    TrimNoop(s);
    if i < 0 {
      assert s[1..] == NatToString(-i);
    }
  }

  // ------------------------------------------------------- decimal values

  function Pow10(n: nat): (p: nat)
    ensures p >= 1
  {
    if n == 0 then 1 else 10 * Pow10(n - 1)
  }

  /** Index of the first occurrence of `c`, or |s| when there is none. */
  function IndexOf(s: string, c: char): (k: nat)
    ensures k <= |s| && c !in s[..k]
    ensures k < |s| ==> s[k] == c
  {
    if s == [] then 0
    else if s[0] == c then 0
    else 1 + IndexOf(s[1..], c)
  }

  /** Digits with an optional fractional part: `12`, `12.5`, `.5`, `12.`. */
  function UnsignedDecimal(b: string): (r: Option<real>)
    ensures r.Some? ==> r.value >= 0.0
  {
    var k := IndexOf(b, '.');
    var ip, fp := b[..k], if k < |b| then b[k + 1..] else [];
    if AllDigits(ip) && AllDigits(fp) && |ip| + |fp| >= 1 then Some(FractionValue(ip, fp)) else None
  }

  /** The value of `ip.fp`: the whole part plus the fraction's digits over `10^|fp|`. */
  function FractionValue(ip: string, fp: string): (v: real)
    requires AllDigits(ip) && AllDigits(fp)
    ensures v >= 0.0
  {
    DigitsValue(ip) as real + DecimalValue(DigitsValue(fp), |fp|)
  }

  /**
   * `Number(text)` for value cells: white space ignored, blank text is 0,
   * an optional sign, then a decimal with an optional fraction; otherwise absent (NaN).
   */
  function ParseDecimal(s: string): (r: Option<real>)
    ensures Trim(s) == [] ==> r == Some(0.0)
  {
    var t := Trim(s);
    if t == [] then Some(0.0)
    else
      var neg := t[0] == '-';
      var body := if t[0] == '-' || t[0] == '+' then t[1..] else t;
      match UnsignedDecimal(body)
      case Some(v) => Some(if neg then -v else v)
      case None => None
  }

  lemma {:induction false} IndexOfAbsent(s: string, c: char)
    requires c !in s
    ensures IndexOf(s, c) == |s|
  {
    if s != [] {
      IndexOfAbsent(s[1..], c);
    }
  }

  /** The decimal reading of an integer literal is that integer. */
  lemma ParseDecimalOfInteger(s: string)
    requires ToNumber(s).Finite?
    ensures ParseDecimal(s) == Some(ToNumber(s).value as real)
  {
    var t := Trim(s);
    if t != [] {
      var body := if t[0] == '-' || t[0] == '+' then t[1..] else t;
      assert AllDigits(body);
      assert '.' !in body;
      IndexOfAbsent(body, '.');
      assert body[..|body|] == body;
    }
  }

  // ------------------------------------------------------- fractional numbers

  /** `units / 10^scale`, one decimal place at a time. */
  function DecimalValue(units: int, scale: nat): (v: real)
    ensures units >= 0 ==> v >= 0.0
  {
    if scale == 0 then units as real else DecimalValue(units, scale - 1) / 10.0
  }

  /**
   * `String(x)` for `x = units / 10^scale`: the shortest plain rendering,
   * trailing zeros of the fraction dropped and no fraction for a whole number.
   */
  function DecimalToString(units: int, scale: nat): string
    decreases scale
  {
    if scale == 0 then IntToString(units)
    else if units % 10 == 0 then DecimalToString(units / 10, scale - 1)
    else (if units < 0 then "-" else "") + FractionString(if units < 0 then -units else units, scale)
  }

  /** The digits of `a / 10^scale`, a dot, and the last `scale` digits of `a`. */
  function FractionString(a: nat, scale: nat): string {
    NatToString(WholePart(a, scale)) + "." + FractionDigits(a, scale)
  }

  /** `a / 10^scale`, the digits before the dot, one place at a time. */
  function WholePart(a: nat, scale: nat): nat
    decreases scale
  {
    if scale == 0 then a else WholePart(a / 10, scale - 1)
  }

  /** The last `scale` digits of `a`, leading zeros kept. */
  function FractionDigits(a: nat, scale: nat): (s: string)
    ensures |s| == scale && AllDigits(s)
    decreases scale
  {
    if scale == 0 then "" else FractionDigits(a / 10, scale - 1) + [DigitChar(a % 10)]
  }

  /** `Number(String(x)) == x`: the rendering of a fractional number reads back as that number. */
  lemma DecimalRoundTrip(units: int, scale: nat)
    ensures ParseDecimal(DecimalToString(units, scale)) == Some(DecimalValue(units, scale))
  {
    var u, k := Shortest(units, scale);
    if k == 0 {
      WholeRoundTrip(u);
    } else {
      FractionRoundTrip(u, k);
    }
  }

  /** Two unit-and-scale pairs render alike and have the same value. */
  predicate SameDecimal(u: int, k: nat, units: int, scale: nat) {
    DecimalToString(u, k) == DecimalToString(units, scale) && DecimalValue(u, k) == DecimalValue(units, scale)
  }

  /** Trailing fraction zeros dropped: the same rendering and value, and no zero left at the end. */
  lemma {:induction false} Shortest(units: int, scale: nat) returns (u: int, k: nat)
    ensures k == 0 || u % 10 != 0
    ensures SameDecimal(u, k, units, scale)
    decreases scale
  {
    if scale == 0 || units % 10 != 0 {
      u, k := units, scale;
    } else {
      u, k := Shortest(units / 10, scale - 1);
      SameDecimalStep(units, scale, u, k);
    }
  }

  /** A form equal to the one with a trailing zero dropped is equal to the original. */
  lemma SameDecimalStep(units: int, scale: nat, u: int, k: nat)
    requires scale >= 1 && units % 10 == 0
    requires SameDecimal(u, k, units / 10, scale - 1)
    ensures SameDecimal(u, k, units, scale)
  {
    RenderTrailingZero(units, scale);
    DropTrailingZero(units, scale);
  }

  /** The round trip for a whole number, rendered without a dot. */
  lemma WholeRoundTrip(units: int)
    ensures ParseDecimal(DecimalToString(units, 0)) == Some(DecimalValue(units, 0))
  {
    var t := DecimalToString(units, 0);
    assert t == IntToString(units);
    IntToStringToNumber(units);
    ParseDecimalOfInteger(t);
  }

  /** The round trip for a fraction whose last digit is not zero: sign, whole part, dot, padded fraction. */
  lemma FractionRoundTrip(units: int, scale: nat)
    requires scale >= 1 && units % 10 != 0
    ensures ParseDecimal(DecimalToString(units, scale)) == Some(DecimalValue(units, scale))
  {
    var a: nat := if units < 0 then -units else units;
    var body, v := FractionString(a, scale), DecimalValue(a, scale);
    var t, w := DecimalToString(units, scale), DecimalValue(units, scale);
    SignedValue(units, scale);
    assert w == (if units < 0 then -v else v);
    RenderFraction(units, scale);
    assert t == (if units < 0 then "-" else "") + body;
    UnsignedRoundTrip(a, scale);
    FractionStringEnds(a, scale);
    SignedParse(units < 0, body, v);
  }

  /** The value of signed units is the signed value of their magnitude. */
  lemma SignedValue(units: int, scale: nat)
    ensures var v := DecimalValue(if units < 0 then -units else units, scale);
      DecimalValue(units, scale) == if units < 0 then -v else v
  {
    if units < 0 {
      DecimalNeg(-units, scale);
    }
  }

  /** A last fraction digit of zero is dropped from the rendering. */
  lemma RenderTrailingZero(units: int, scale: nat)
    requires scale >= 1 && units % 10 == 0
    ensures DecimalToString(units, scale) == DecimalToString(units / 10, scale - 1)
  {
  }

  /** Otherwise the rendering is the sign followed by the unsigned fraction. */
  lemma RenderFraction(units: int, scale: nat)
    requires scale >= 1 && units % 10 != 0
    ensures DecimalToString(units, scale) ==
      (if units < 0 then "-" else "") + FractionString(if units < 0 then -units else units, scale)
  {
  }

  /** Without a sign, the rendering reads back as the value. */
  lemma UnsignedRoundTrip(a: nat, scale: nat)
    requires scale >= 1
    ensures UnsignedDecimal(FractionString(a, scale)) == Some(DecimalValue(a, scale))
  {
    var ip, fp := NatToString(WholePart(a, scale)), FractionDigits(a, scale);
    NatToStringValue(WholePart(a, scale));
    UnsignedParts(ip, fp);
    SplitDigits(a, scale);
    assert FractionValue(ip, fp) == DecimalValue(a, scale);
    assert FractionString(a, scale) == ip + "." + fp;
  }

  /** The rendering starts with a digit of the whole part and ends with the last fraction digit. */
  lemma FractionStringEnds(a: nat, scale: nat)
    requires scale >= 1
    ensures var body := FractionString(a, scale);
      |body| >= 1 && IsDigit(body[0]) && IsDigit(body[|body| - 1])
  {
    var ip, fp := NatToString(WholePart(a, scale)), FractionDigits(a, scale);
    var body := ip + "." + fp;
    assert body[0] == ip[0];
    assert body[|body| - 1] == fp[|fp| - 1];
  }

  /** The whole part plus the fraction digits at `scale` places is the value of `a` at `scale` places. */
  lemma {:induction false} SplitDigits(a: nat, scale: nat)
    ensures WholePart(a, scale) as real + DecimalValue(DigitsValue(FractionDigits(a, scale)), scale)
      == DecimalValue(a, scale)
    decreases scale
  {
    if scale > 0 {
      var fp := FractionDigits(a, scale);
      var rest := FractionDigits(a / 10, scale - 1);
      var d := a % 10;
      assert fp[..|fp| - 1] == rest;
      DigitRoundTrip(d);
      assert DigitsValue(fp) == DigitsValue(rest) * 10 + d;
      SplitDigits(a / 10, scale - 1);
      DecimalAdd(10 * DigitsValue(rest), d, scale);
      TimesTen(DigitsValue(rest), scale - 1);
      DecimalAdd(10 * (a / 10), d, scale);
      TimesTen(a / 10, scale - 1);
    }
  }

  /** Digits, a dot and digits read as the whole part plus the scaled fraction. */
  lemma UnsignedParts(ip: string, fp: string)
    requires AllDigits(ip) && AllDigits(fp) && |ip| >= 1
    ensures UnsignedDecimal(ip + "." + fp) == Some(FractionValue(ip, fp))
  {
    var body := ip + "." + fp;
    var k := |ip|;
    assert body[..k] == ip;
    assert body[k + 1..] == fp;
    assert body[k] == '.';
    assert '.' !in ip;
    IndexOfFirst(body, '.', k);
  }

  /** An optional minus sign before a decimal that starts and ends with a digit negates its value. */
  lemma SignedParse(neg: bool, body: string, v: real)
    requires |body| >= 1 && IsDigit(body[0]) && IsDigit(body[|body| - 1])
    requires UnsignedDecimal(body) == Some(v)
    ensures ParseDecimal((if neg then "-" else "") + body) == Some(if neg then -v else v)
  {
    if neg {
      NegativeParse(body, v);
    } else {
      assert "" + body == body;
      PlainParse(body, v);
    }
  }

  /** A decimal that starts and ends with a digit reads as itself. */
  lemma PlainParse(body: string, v: real)
    requires |body| >= 1 && IsDigit(body[0]) && IsDigit(body[|body| - 1])
    requires UnsignedDecimal(body) == Some(v)
    ensures ParseDecimal(body) == Some(v)
  {
    TrimNoop(body);
  }

  /** A minus sign before such a decimal negates it. */
  lemma NegativeParse(body: string, v: real)
    requires |body| >= 1 && IsDigit(body[0]) && IsDigit(body[|body| - 1])
    requires UnsignedDecimal(body) == Some(v)
    ensures ParseDecimal("-" + body) == Some(-v)
  {
    var t := "-" + body;
    assert t[|t| - 1] == body[|body| - 1];
    TrimNoop(t);
    assert t[1..] == body;
  }

  /** A fraction ending in zero has the same value with one place fewer. */
  lemma {:induction false} DropTrailingZero(units: int, scale: nat)
    requires scale >= 1 && units % 10 == 0
    ensures DecimalValue(units / 10, scale - 1) == DecimalValue(units, scale)
  {
    TimesTen(units / 10, scale - 1);
  }

  /** Ten times the units is the same value one place further right. */
  lemma {:induction false} TimesTen(q: int, scale: nat)
    ensures DecimalValue(10 * q, scale + 1) == DecimalValue(q, scale)
  {
    if scale > 0 {
      TimesTen(q, scale - 1);
    }
  }

  /** The value is additive in the units. */
  lemma {:induction false} DecimalAdd(x: int, y: int, scale: nat)
    ensures DecimalValue(x + y, scale) == DecimalValue(x, scale) + DecimalValue(y, scale)
  {
    if scale > 0 {
      DecimalAdd(x, y, scale - 1);
    }
  }

  /** The value of negated units is the negated value. */
  lemma {:induction false} DecimalNeg(x: int, scale: nat)
    ensures DecimalValue(-x, scale) == -DecimalValue(x, scale)
  {
    if scale > 0 {
      DecimalNeg(x, scale - 1);
    }
  }

  /** The first occurrence found by `IndexOf` is any position before which `c` is absent. */
  lemma {:induction false} IndexOfFirst(s: string, c: char, k: nat)
    requires k < |s| && s[k] == c && c !in s[..k]
    ensures IndexOf(s, c) == k
  {
    if k > 0 {
      assert s[1..][..k - 1] == s[..k][1..];
      IndexOfFirst(s[1..], c, k - 1);
    }
  }
}
