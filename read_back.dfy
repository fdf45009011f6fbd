/** What `cleanNumber` makes of texts the program itself writes or that
    cannot be numbers: the output of `money` reads back as the rounded
    magnitude, and any text with two decimal points reads as 0. */
module ReadBack {
  import opened Wrappers
  import opened Strings
  import opened Cells
  import opened Normalizer
  import opened NormalizerFacts
  import opened Amounts

  // ------------------------------------------------------------ commas

  /** The text with every comma deleted. */
  function NoCommas(s: string): string {
    if s == [] then [] else (if s[0] == ',' then [] else [s[0]]) + NoCommas(s[1..])
  }

  lemma {:induction false} NoCommasAppend(a: string, b: string)
    ensures NoCommas(a + b) == NoCommas(a) + NoCommas(b)
  {
    if a == [] {
      assert a + b == b;
    } else {
      assert (a + b)[0] == a[0] && (a + b)[1..] == a[1..] + b;
      NoCommasAppend(a[1..], b);
    }
  }

  lemma {:induction false} NoCommasOfNone(s: string)
    requires forall i :: 0 <= i < |s| ==> s[i] != ','
    ensures NoCommas(s) == s
  {
    if s != [] {
      assert forall i :: 0 <= i < |s[1..]| ==> s[1..][i] == s[i + 1];
      NoCommasOfNone(s[1..]);
    }
  }

  /** When every comma of `t` is a grouping comma, the lookahead deletion
      removes all of them. */
  lemma {:induction false} DropAllGrouping(t: string, i: nat)
    requires i <= |t|
    requires forall k :: i <= k < |t| ==> (t[k] == ',' ==> GroupingComma(t, k))
    ensures DropGroupingFrom(t, i) == NoCommas(t[i..])
    decreases |t| - i
  {
    if i < |t| {
      DropAllGrouping(t, i + 1);
      assert t[i..][0] == t[i] && t[i..][1..] == t[i + 1..];
    }
  }

  // --------------------------------------------------- grouped numbers

  /** Appending digits shifts the value read so far. */
  lemma {:induction false} DigitsValueAppend(a: string, b: string)
    requires AllDigits(a) && AllDigits(b)
    ensures AllDigits(a + b)
    ensures DigitsValue(a + b) == DigitsValue(a) * Pow10(|b|) + DigitsValue(b)
    decreases |b|
  {
    if b == [] {
      assert a + b == a;
    } else {
      var b', c := b[..|b| - 1], b[|b| - 1];
      assert b == b' + [c];
      assert a + b == (a + b') + [c];
      assert AllDigits(b');
      DigitsValueAppend(a, b');
      DigitsValueSnoc(a + b', c);
      DigitsValueSnoc(b', c);
      ShiftLeading(DigitsValue(a), Pow10(|b'|), DigitsValue(b'), DigitValue(c));
    }
  }

  /** `Grouped(k)` is a non-empty run of digits and commas. */
  lemma {:induction false} GroupedChars(k: nat)
    ensures |Grouped(k)| > 0
    ensures forall i :: 0 <= i < |Grouped(k)| ==> IsDigit(Grouped(k)[i]) || Grouped(k)[i] == ','
    decreases k
  {
    if k >= 1000 {
      GroupedChars(k / 1000);
      PadDigitsDigits(k % 1000, 3);
      var g, p := Grouped(k / 1000), PadDigits(k % 1000, 3);
      var t := Grouped(k);
      assert t == g + "," + p;
      forall i | 0 <= i < |t| ensures IsDigit(t[i]) || t[i] == ',' {
        if i < |g| {
          assert t[i] == g[i];
        } else if i > |g| {
          assert t[i] == p[i - |g| - 1];
        }
      }
    }
  }

  /** Each comma of `Grouped(k)` is followed by exactly three digits and then
      a comma or whatever non-digit follows the number: every one of them is
      a grouping comma. */
  lemma {:induction false} GroupedCommas(k: nat, rest: string)
    requires rest != [] && !IsDigit(rest[0])
    ensures forall i :: 0 <= i < |Grouped(k)| ==>
      ((Grouped(k) + rest)[i] == ',' ==> GroupingComma(Grouped(k) + rest, i))
    decreases k
  {
    var t := Grouped(k) + rest;
    if k < 1000 {
      forall i | 0 <= i < |Grouped(k)| ensures t[i] != ',' {
        assert t[i] == NatText(k)[i];
      }
    } else {
      var g, p := Grouped(k / 1000), PadDigits(k % 1000, 3);
      PadDigitsDigits(k % 1000, 3);
      var rest' := "," + p + rest;
      GroupedCommas(k / 1000, rest');
      assert t == g + rest';
      forall i | 0 <= i < |Grouped(k)| ensures t[i] == ',' ==> GroupingComma(t, i) {
        if i < |g| {
          assert t[i] == (g + rest')[i];
        } else if i == |g| {
          assert t[i + 1] == p[0] && t[i + 2] == p[1] && t[i + 3] == p[2];
          assert t[i + 4] == rest[0];
        } else {
          assert t[i] == p[i - |g| - 1];
        }
      }
    }
  }

  /** Without its commas, `Grouped(k)` is the plain digits of `k`. */
  lemma {:induction false} NoCommasGrouped(k: nat)
    ensures var d := NoCommas(Grouped(k));
      |d| > 0 && AllDigits(d) && DigitsValue(d) == k
    decreases k
  {
    if k < 1000 {
      NoCommasOfNone(NatText(k));
      NatTextRoundTrip(k);
    } else {
      var g, p := Grouped(k / 1000), PadDigits(k % 1000, 3);
      NoCommasGrouped(k / 1000);
      PadDigitsDigits(k % 1000, 3);
      NoCommasAppend(g + ",", p);
      NoCommasAppend(g, ",");
      NoCommasOfNone(p);
      assert NoCommas(",") == [];
      var d := NoCommas(g);
      assert NoCommas(Grouped(k)) == d + p;
      DigitsValueAppend(d, p);
      assert Pow10(3) == 1000;
      PadDigitsValue(k % 1000, 3);
    }
  }

  // ------------------------------------------------------------- money

  /** The character filter removes exactly the dollar sign. */
  lemma MoneyKept(q: nat, r: nat)
    ensures var t := Grouped(q) + "." + PadDigits(r, 2);
      KeepNumeric("$" + t) == t
  {
    var g, f := Grouped(q), PadDigits(r, 2);
    var t := g + "." + f;
    GroupedChars(q);
    PadDigitsDigits(r, 2);
    forall i | 0 <= i < |t| ensures IsNumericChar(t[i]) {
      if i < |g| {
        assert t[i] == g[i];
      } else if i > |g| {
        assert t[i] == f[i - |g| - 1];
      }
    }
    KeepNumericOfNumeric(t);
    KeepNumericAppend("$", t);
    assert KeepNumeric("$") == [];
  }

  /** The lookahead deletion removes every thousands comma. */
  lemma MoneyUngrouped(q: nat, r: nat)
    ensures var f := PadDigits(r, 2);
      DropGroupingCommas(Grouped(q) + "." + f) == NoCommas(Grouped(q)) + "." + f
  {
    var g, f := Grouped(q), PadDigits(r, 2);
    var tail := "." + f;
    var t := g + tail;
    PadDigitsDigits(r, 2);
    GroupedCommas(q, tail);
    forall i | 0 <= i < |t| ensures t[i] == ',' ==> GroupingComma(t, i) {
      if i == |g| {
        assert t[i] == '.';
      } else if i > |g| {
        assert t[i] == f[i - |g| - 1];
      }
    }
    DropAllGrouping(t, 0);
    assert t[0..] == t;
    NoCommasAppend(g, tail);
    NoCommasOfNone(tail);
    assert g + "." + f == t;
  }

  /** The plain digits, the dot and the cent digits read as `100q + r` cents. */
  lemma MoneyParsed(q: nat, r: nat)
    requires r < 100
    ensures var u := NoCommas(Grouped(q)) + "." + PadDigits(r, 2);
      '.' in u && ParseNumber(u) == Some(Dec(q * 100 + r, 2))
  {
    var d, f := NoCommas(Grouped(q)), PadDigits(r, 2);
    var u := d + "." + f;
    NoCommasGrouped(q);
    PadDigitsDigits(r, 2);
    assert u[|d|] == '.';
    ParseDigitsDot(d, f);
    assert Pow10(2) == 100;
    PadDigitsValue(r, 2);
  }

  /** The text `money` writes for `q` dollars and `r` cents reads as
      `q + r/100`. */
  lemma MoneyTextRead(q: nat, r: nat)
    requires r < 100
    ensures CleanString("$" + Grouped(q) + "." + PadDigits(r, 2)) == Value(Dec(q * 100 + r, 2))
  {
    var t := Grouped(q) + "." + PadDigits(r, 2);
    assert "$" + Grouped(q) + "." + PadDigits(r, 2) == "$" + t;
    MoneyKept(q, r);
    MoneyUngrouped(q, r);
    MoneyParsed(q, r);
  }

  /** `cleanNumber(money(n))` is `|n|` rounded to cents: the dollar sign goes,
      the thousands commas are all grouping commas, and the two cent digits
      follow the dot. */
  lemma MoneyReadsBack(n: real)
    ensures CleanNumber(Str(Money(n))) == RoundCents(Abs(n))
  {
    var c := Cents(Abs(n));
    var q, r := c / 100, c % 100;
    MoneyTextRead(q, r);
    assert q * 100 + r == c;
    assert Pow10(2) == 100;
  }

  // --------------------------------------------------------- two dots

  function Dots(s: string): nat {
    if s == [] then 0 else (if s[0] == '.' then 1 else 0) + Dots(s[1..])
  }

  lemma {:induction false} DotsAppend(a: string, b: string)
    ensures Dots(a + b) == Dots(a) + Dots(b)
  {
    if a == [] {
      assert a + b == b;
    } else {
      assert (a + b)[0] == a[0] && (a + b)[1..] == a[1..] + b;
      DotsAppend(a[1..], b);
    }
  }

  lemma {:induction false} DotAt(s: string, i: nat)
    requires i < |s| && s[i] == '.'
    ensures Dots(s) >= 1
  {
    if i > 0 {
      DotAt(s[1..], i - 1);
    }
  }

  lemma {:induction false} DotsIn(s: string)
    requires Dots(s) > 0
    ensures '.' in s
  {
    if s[0] != '.' {
      DotsIn(s[1..]);
      assert s[1..] <= s[1..] && s == [s[0]] + s[1..];
    }
  }

  /** The character filter keeps every dot. */
  lemma {:induction false} DotsKept(s: string)
    ensures Dots(KeepNumeric(s)) == Dots(s)
  {
    if s != [] {
      DotsKept(s[1..]);
      DotsAppend(if IsNumericChar(s[0]) then [s[0]] else [], KeepNumeric(s[1..]));
    }
  }

  /** Deleting grouping commas keeps every dot. */
  lemma {:induction false} DotsDropped(t: string, i: nat)
    requires i <= |t|
    ensures Dots(DropGroupingFrom(t, i)) == Dots(t[i..])
    decreases |t| - i
  {
    if i < |t| {
      DotsDropped(t, i + 1);
      DotsAppend(if GroupingComma(t, i) then [] else [t[i]], DropGroupingFrom(t, i + 1));
      assert t[i..][0] == t[i] && t[i..][1..] == t[i + 1..];
    }
  }

  /** `Number` rejects a literal with a second decimal point. */
  lemma {:induction false} ScanRejectsDots(t: string, acc: nat, scale: nat, seenDot: bool, seenDigit: bool)
    requires Dots(t) + (if seenDot then 1 else 0) >= 2
    ensures ScanUnsigned(t, acc, scale, seenDot, seenDigit) == None
    decreases |t|
  {
    if t != [] {
      if IsDigit(t[0]) && seenDot {
        ScanRejectsDots(t[1..], acc * 10 + DigitValue(t[0]), scale + 1, true, true);
      } else if IsDigit(t[0]) {
        ScanRejectsDots(t[1..], acc * 10 + DigitValue(t[0]), scale, false, true);
      } else if t[0] == '.' && !seenDot {
        ScanRejectsDots(t[1..], acc, scale, true, seenDigit);
      }
    }
  }

  lemma ParseRejectsDots(t: string)
    requires Dots(t) >= 2
    ensures ParseNumber(t) == None
  {
    if |t| > 0 && t[0] == '-' {
      ScanRejectsDots(t[1..], 0, 0, false, false);
    } else {
      ScanRejectsDots(t, 0, 0, false, false);
    }
  }

  /** A text with two dots anywhere, whatever else it holds, reads as 0:
      both dots survive the cleaning, so the normalized text keeps them,
      and `Number` of it is NaN. */
  lemma TwoDotsGiveZero(s: string, i: nat, j: nat)
    requires i < j < |s| && s[i] == '.' && s[j] == '.'
    ensures CleanNumber(Str(s)) == 0.0
  {
    assert s[..j] + s[j..] == s;
    DotAt(s[..j], i);
    DotAt(s[j..], 0);
    DotsAppend(s[..j], s[j..]);
    DotsKept(s);
    var k := KeepNumeric(s);
    DotsDropped(k, 0);
    assert k[0..] == k;
    var t := DropGroupingCommas(k);
    DotsIn(t);
    ParseRejectsDots(t);
  }
}
