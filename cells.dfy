/** Spreadsheet cell values as the CSV parser hands them over with dynamic
    typing on, and the JavaScript conversions the core applies to them. */
module Cells {
  import opened Strings

  /** An exact decimal number: `m / 10^e`. */
  datatype Dec = Dec(m: int, e: nat)

  function Value(d: Dec): real {
    d.m as real / Pow10(d.e) as real
  }

  /** A cell: a missing property, `null`, a boolean, a number or a string. */
  datatype Cell = Undefined | Null | Bool(b: bool) | Num(d: Dec) | Str(s: string)

  /** JavaScript truthiness of a cell value. */
  predicate Truthy(v: Cell) {
    match v
    case Undefined => false
    case Null => false
    case Bool(b) => b
    case Num(d) => Value(d) != 0.0
    case Str(s) => s != ""
  }

  predicate Nullish(v: Cell) {
    v.Undefined? || v.Null?
  }

  /** Removes trailing zero digits after the decimal point. */
  function Normalize(d: Dec): (r: Dec)
    ensures Value(r) == Value(d)
    ensures r.e == 0 || r.m % 10 != 0
    decreases d.e
  {
    if d.e > 0 && d.m % 10 == 0 then
      var r := Normalize(Dec(d.m / 10, d.e - 1));
      assert Value(Dec(d.m / 10, d.e - 1)) == Value(d) by {
        assert d.m == (d.m / 10) * 10;
        assert Pow10(d.e) == 10 * Pow10(d.e - 1);
      }
      r
    else d
  }

  /** `k` rendered with exactly `width` digits (leading zeros added). */
  function PadDigits(k: nat, width: nat): (r: string)
    ensures |r| == width
  {
    if width == 0 then "" else PadDigits(k / 10, width - 1) + [DigitChar(k % 10)]
  }

  /** `String(x)` of a number in plain (non-exponent) notation: an optional
      minus sign, the integer part, and the fraction digits without trailing zeros. */
  function NumText(d: Dec): string {
    var n := Normalize(d);
    var sign := if n.m < 0 then "-" else "";
    sign + MagnitudeText(if n.m < 0 then -n.m else n.m, n.e)
  }

  /** `a / 10^e` in decimal, with `e` fraction digits when `e > 0`. */
  function MagnitudeText(a: nat, e: nat): string {
    ScaledText(a, e, Pow10(e))
  }

  function ScaledText(a: nat, e: nat, p: nat): string
    requires p > 0
  {
    var whole := NatText(a / p);
    if e == 0 then whole else whole + "." + PadDigits(a % p, e)
  }

  /** `String(v)` of a cell. */
  function Stringify(v: Cell): string {
    match v
    case Undefined => "undefined"
    case Null => "null"
    case Bool(b) => if b then "true" else "false"
    case Num(d) => NumText(d)
    case Str(s) => s
  }

  /** `(v ?? "").toString()`. */
  function OrEmpty(v: Cell): (r: string)
    ensures Nullish(v) ==> r == ""
    ensures v.Str? ==> r == v.s
  {
    if Nullish(v) then "" else Stringify(v)
  }

  /** `(v ?? "").toString().trim()`, the form every lookup of a name or e-mail takes. */
  function TextOf(v: Cell): string {
    Trim(OrEmpty(v))
  }

  /** `v ?? ""`. */
  function Coalesce(v: Cell): (r: Cell)
    ensures !Nullish(r)
    ensures !Nullish(v) ==> r == v
  {
    if Nullish(v) then Str("") else v
  }

  /** A row of the parsed file: header name to cell; a header absent from the
      map reads as `undefined`. */
  type Row = map<string, Cell>

  function Get(r: Row, k: string): Cell {
    if k in r then r[k] else Undefined
  }
}
