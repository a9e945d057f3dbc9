/**
 * The dynamically typed values the page code works on: fields of parsed CSV
 * records and of API objects, and the JavaScript conversions applied to
 * them (`String(x)`, `Number(x)`, `x ?? y`, truthiness).
 */
module JsValues {
  import opened Wrappers
  import opened Strings
  import opened Numbers

  /**
   * A field of a parsed record as the parser's dynamic typing delivers it:
   * absent, null (an empty field), a number, a boolean or text. `Number`
   * holds an integer or NaN; `Decimal` holds a number with a fraction,
   * `units / 10^scale`.
   */
  datatype Field = Undefined | Null | Number(n: Num) | Decimal(units: int, scale: nat) | Bool(b: bool) | Text(s: string)

  /** One parsed record, keyed by header. */
  type Record = map<string, Field>

  /** `r.key`: undefined when the record has no such key. */
  function Get(r: Record, key: string): Field {
    if key in r then r[key] else Undefined
  }

  /** `String(x)`. */
  function JsString(f: Field): string {
    match f
    case Undefined => "undefined"
    case Null => "null"
    case Number(n) => NumToString(n)
    case Decimal(u, k) => DecimalToString(u, k)
    case Bool(b) => if b then "true" else "false"
    case Text(s) => s
  }

  /**
   * `Number(x)` where an integer is expected: undefined is NaN, null and
   * false are 0, true is 1, text and decimals are read as integer literals.
   */
  function JsNumber(f: Field): Num {
    match f
    case Undefined => NaN
    case Null => Finite(0)
    case Number(n) => n
    case Decimal(u, k) => ToNumber(DecimalToString(u, k))
    case Bool(b) => Finite(if b then 1 else 0)
    case Text(s) => ToNumber(s)
  }

  /**
   * `Number(x)` where any number may come: as `JsNumber`, but decimals keep
   * their fraction and text is read as a signed decimal; `None` is NaN.
   */
  function JsReal(f: Field): Option<real> {
    match f
    case Undefined => None
    case Null => Some(0.0)
    case Number(n) => if n.Finite? then Some(n.value as real) else None
    case Decimal(u, k) => Some(DecimalValue(u, k))
    case Bool(b) => Some(if b then 1.0 else 0.0)
    case Text(s) => ParseDecimal(s)
  }

  /** The two readings agree wherever the integer one is a number. */
  lemma JsRealAgrees(f: Field)
    ensures JsNumber(f).Finite? ==> JsReal(f) == Some(JsNumber(f).value as real)
  {
    match f
    case Decimal(u, k) =>
      if JsNumber(f).Finite? {
        ParseDecimalOfInteger(DecimalToString(u, k));
        DecimalRoundTrip(u, k);
      }
    case Text(s) =>
      if JsNumber(f).Finite? {
        ParseDecimalOfInteger(s);
      }
    case _ =>
  }

  /** `Number(String(x)) == x` for every number field, NaN included. */
  lemma NumberOfString(f: Field)
    requires f.Number? || f.Decimal?
    ensures JsReal(Text(JsString(f))) == JsReal(f)
  {
    match f
    case Number(n) =>
      if n.Finite? {
        IntToStringToNumber(n.value);
        ParseDecimalOfInteger(IntToString(n.value));
      } else {
        NaNText();
      }
    case Decimal(u, k) =>
      DecimalRoundTrip(u, k);
  }

  /** The text `NaN` is not a decimal. */
  lemma NaNText()
    ensures ParseDecimal(NumToString(NaN)) == None
  {
    var t := NumToString(NaN);
    TrimNoop(t);
    assert t[..0] == [] && '.' !in t;
    IndexOfAbsent(t, '.');
  }

  /** `x ?? fallback`: only undefined and null fall through. */
  function Coalesce(f: Field, fallback: Field): Field {
    if f.Undefined? || f.Null? then fallback else f
  }

  /** Whether the field is truthy: `undefined`, `null`, `0`, `NaN`, `false` and `""` are not. */
  predicate Truthy(f: Field) {
    match f
    case Undefined => false
    case Null => false
    case Number(n) => n.Finite? && n.value != 0
    case Decimal(u, _) => u != 0
    case Bool(b) => b
    case Text(s) => s != ""
  }

  /**
   * `num(x)`: `Number(x)` when finite, 0 otherwise. An integer field reads
   * as its integer, a decimal as its value, undefined and non-numeric text as 0.
   */
  function NumOrZero(f: Field): (v: real)
    ensures JsNumber(f).Finite? ==> v == JsNumber(f).value as real
    ensures f.Decimal? ==> v == DecimalValue(f.units, f.scale)
    ensures f.Undefined? || (f.Text? && ParseDecimal(f.s).None?) ==> v == 0.0
  {
    JsRealAgrees(f);
    match JsReal(f)
    case Some(x) => x
    case None => 0.0
  }
}
