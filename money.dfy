/** Amount arithmetic and display: `Math.abs`, `Math.max(0, x)`, the
    two-decimal rounding of `Number(x.toFixed(2))`, and `money`. */
module Amounts {
  import opened Strings
  import opened Cells

  function Abs(x: real): (r: real)
    ensures r >= 0.0 && (r == x || r == -x)
  {
    if x < 0.0 then -x else x
  }

  /** `Math.max(0, x)`. */
  function Max0(x: real): (r: real)
    ensures r >= 0.0 && r >= x && (r == x || r == 0.0)
  {
    if x > 0.0 then x else 0.0
  }

  /** A non-negative amount in whole cents, a half cent rounded up. */
  function Cents(x: real): nat
    requires x >= 0.0
  {
    (x * 100.0 + 0.5).Floor
  }

  /** `Number(x.toFixed(2))` of a non-negative amount, in exact arithmetic. */
  function RoundCents(x: real): real
    requires x >= 0.0
  {
    Cents(x) as real / 100.0
  }

  lemma FloorBounds(a: real)
    ensures a.Floor as real <= a < a.Floor as real + 1.0
  {
  }

  lemma FloorMonotone(a: real, b: real)
    requires a <= b
    ensures a.Floor <= b.Floor
  {
    FloorBounds(a);
    FloorBounds(b);
  }

  lemma FloorOfHalf(c: int)
    ensures (c as real + 0.5).Floor == c
  {
    FloorBounds(c as real + 0.5);
  }

  /** Rounding to cents moves an amount by at most half a cent and never
      makes it negative. */
  lemma RoundCentsClose(x: real)
    requires x >= 0.0
    ensures RoundCents(x) >= 0.0
    ensures -0.005 < RoundCents(x) - x <= 0.005
  {
    var a := x * 100.0 + 0.5;
    FloorBounds(a);
    var c := Cents(x) as real;
    assert c <= a < c + 1.0;
    assert RoundCents(x) == c / 100.0;
  }

  /** A rounded amount rounds to itself. */
  lemma RoundCentsIdempotent(x: real)
    requires x >= 0.0
    ensures RoundCents(RoundCents(x)) == RoundCents(x)
  {
    var c := Cents(x);
    assert RoundCents(x) * 100.0 + 0.5 == c as real + 0.5;
    FloorOfHalf(c);
  }

  /** Rounding keeps the order of amounts. */
  lemma RoundCentsMonotone(x: real, y: real)
    requires 0.0 <= x <= y
    ensures RoundCents(x) <= RoundCents(y)
  {
    FloorMonotone(x * 100.0 + 0.5, y * 100.0 + 0.5);
  }

  /** A natural number with a comma between each group of three digits, as
      `toLocaleString` writes it in an English locale. */
  function Grouped(k: nat): string {
    if k < 1000 then NatText(k) else Grouped(k / 1000) + "," + PadDigits(k % 1000, 3)
  }

  /** `money(n)`: a dollar sign, the grouped whole dollars of `|n|` and two
      cent digits. */
  function Money(n: real): string {
    var c := Cents(Abs(n));
    "$" + Grouped(c / 100) + "." + PadDigits(c % 100, 2)
  }

  /** The sign of an amount never shows. */
  lemma MoneyIgnoresSign(n: real)
    ensures Money(-n) == Money(n)
  {
    assert Abs(-n) == Abs(n);
  }
}
