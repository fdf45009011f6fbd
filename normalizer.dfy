/** The value normalizer: amounts from messy cells (`cleanNumber`) and the
    day count of a due date (`toDate`, `daysOverdue`). */
module Normalizer {
  import opened Wrappers
  import opened Strings
  import opened Cells

  predicate IsNumericChar(c: char) {
    IsDigit(c) || c == '.' || c == ',' || c == '-'
  }

  predicate AllDigits(s: string) {
    forall i :: 0 <= i < |s| ==> IsDigit(s[i])
  }

  /** `.replace(/[^0-9.,-]/g, "")`: keeps digits, dots, commas and minus signs, in order. */
  function KeepNumeric(s: string): string {
    if s == [] then [] else (if IsNumericChar(s[0]) then [s[0]] else []) + KeepNumeric(s[1..])
  }

  /** The comma at index `i` is followed by exactly three digits and then a
      non-digit or the end: the lookahead `,(?=\d{3}(\D|$))`. */
  predicate GroupingComma(t: string, i: int) {
    0 <= i && i + 4 <= |t| && t[i] == ','
    && IsDigit(t[i + 1]) && IsDigit(t[i + 2]) && IsDigit(t[i + 3])
    && (i + 4 == |t| || !IsDigit(t[i + 4]))
  }

  /** The characters of `t` from index `i` on, grouping commas deleted. */
  function DropGroupingFrom(t: string, i: nat): string
    requires i <= |t|
    decreases |t| - i
  {
    if i == |t| then []
    else (if GroupingComma(t, i) then [] else [t[i]]) + DropGroupingFrom(t, i + 1)
  }

  /** `.replace(/,(?=\d{3}(\D|$))/g, "")`: every match is judged on the
      string before any deletion, since a lookahead consumes nothing. */
  function DropGroupingCommas(t: string): string {
    DropGroupingFrom(t, 0)
  }

  /** `.replace(/,/g, ".")`. */
  function CommasToDots(s: string): (r: string)
    ensures |r| == |s|
    ensures forall i :: 0 <= i < |s| ==> r[i] == (if s[i] == ',' then '.' else s[i])
  {
    if s == [] then [] else [if s[0] == ',' then '.' else s[0]] + CommasToDots(s[1..])
  }

  /** Reads an unsigned decimal literal left to right: `acc` holds the digits
      read so far as one integer, `scale` counts those after the dot. */
  function ScanUnsigned(t: string, acc: nat, scale: nat, seenDot: bool, seenDigit: bool): Option<Dec>
  {
    if t == [] then
      if seenDigit then Some(Dec(acc, scale)) else None
    else if IsDigit(t[0]) && seenDot then
      ScanUnsigned(t[1..], acc * 10 + DigitValue(t[0]), scale + 1, true, true)
    else if IsDigit(t[0]) then
      ScanUnsigned(t[1..], acc * 10 + DigitValue(t[0]), scale, false, true)
    else if t[0] == '.' && !seenDot then
      ScanUnsigned(t[1..], acc, scale, true, seenDigit)
    else None
  }

  /** `Number(t)` for an unsigned decimal literal: `digits`, `digits.`,
      `digits.digits` or `.digits`; anything else is NaN (`None`). */
  function ParseUnsigned(t: string): Option<Dec> {
    ScanUnsigned(t, 0, 0, false, false)
  }

  /** `Number(t)` for a string over digits, `.`, `,` and `-`: an optional
      leading minus sign before an unsigned literal. */
  function ParseNumber(t: string): Option<Dec> {
    if |t| > 0 && t[0] == '-' then
      match ParseUnsigned(t[1..])
      case Some(d) => Some(Dec(-d.m, d.e))
      case None => None
    else ParseUnsigned(t)
  }

  /** `cleanNumber` on a string. */
  function CleanString(s: string): real {
    var t := DropGroupingCommas(KeepNumeric(s));
    var normalized := if '.' in t then t else CommasToDots(t);
    if normalized == "" then 0.0
    else match ParseNumber(normalized)
      case Some(d) => Value(d)
      case None => 0.0
  }

  /** `cleanNumber(v)` (src/App.js): a number is returned as it is, `null`
      and `undefined` give 0, and anything else goes through its string form. */
  function CleanNumber(v: Cell): (r: real)
    ensures v.Num? ==> r == Value(v.d)
    ensures Nullish(v) ==> r == 0.0
  {
    match v
    case Num(d) => Value(d)
    case Undefined => 0.0
    case Null => 0.0
    case Bool(b) => CleanString(Stringify(v))
    case Str(s) => CleanString(s)
  }

  // ---------------------------------------------------------------- dates

  const MsPerDay: nat := 1000 * 60 * 60 * 24

  /** The calendar collaborator: `new Date(v)` as a millisecond timestamp,
      `None` for an invalid date; and the evaluation instant `now`. */
  datatype Clock = Clock(now: int, parse: Cell -> Option<int>)

  /** `toDate(v)`: a falsy cell is no date at all; otherwise the parser decides. */
  function ToDate(v: Cell, clock: Clock): (r: Option<int>)
    ensures !Truthy(v) ==> r == None
    ensures Truthy(v) ==> r == clock.parse(v)
  {
    if !Truthy(v) then None else clock.parse(v)
  }

  /** `daysOverdue(due, now)`: whole days from the due instant to now,
      rounded down (negative for a future date); 0 when the cell is falsy or
      not a valid date. */
  function DaysOverdue(due: Cell, clock: Clock): (r: int)
    ensures !Truthy(due) ==> r == 0
    ensures Truthy(due) && clock.parse(due) == None ==> r == 0
    ensures Truthy(due) && clock.parse(due).Some? ==>
      r * MsPerDay <= clock.now - clock.parse(due).value < (r + 1) * MsPerDay
  {
    match ToDate(due, clock)
    case None => 0
    case Some(t) => (clock.now - t) / MsPerDay
  }
}

/** Facts about `cleanNumber`: which decorations it ignores, which strings it
    reads exactly, and the documented examples. */
module NormalizerFacts {
  import opened Wrappers
  import opened Strings
  import opened Cells
  import opened Normalizer

  lemma {:induction false} KeepNumericAppend(a: string, b: string)
    ensures KeepNumeric(a + b) == KeepNumeric(a) + KeepNumeric(b)
  {
    if a == [] {
      assert a + b == b;
    } else {
      assert (a + b)[0] == a[0] && (a + b)[1..] == a[1..] + b;
      KeepNumericAppend(a[1..], b);
    }
  }

  /** Currency symbols, letters and spaces anywhere in a cell do not change
      the amount read from it. */
  lemma {:induction false} NonNumericIgnored(a: string, c: char, b: string)
    requires !IsNumericChar(c)
    ensures CleanString(a + [c] + b) == CleanString(a + b)
  {
    KeepNumericAppend(a + [c], b);
    KeepNumericAppend(a, [c]);
    KeepNumericAppend(a, b);
    assert KeepNumeric([c]) == [];
    assert KeepNumeric(a + [c]) == KeepNumeric(a);
    assert KeepNumeric(a + [c] + b) == KeepNumeric(a + b);
  }

  lemma {:induction false} KeepNumericOfNumeric(s: string)
    requires forall i :: 0 <= i < |s| ==> IsNumericChar(s[i])
    ensures KeepNumeric(s) == s
  {
    if s != [] {
      KeepNumericOfNumeric(s[1..]);
    }
  }

  lemma {:induction false} DropWithoutCommas(t: string, i: nat)
    requires i <= |t| && ',' !in t
    ensures DropGroupingFrom(t, i) == t[i..]
    decreases |t| - i
  {
    if i < |t| {
      DropWithoutCommas(t, i + 1);
      assert t[i..] == [t[i]] + t[i + 1..];
    }
  }

  lemma {:induction false} CommasToDotsWithoutCommas(t: string)
    requires ',' !in t
    ensures CommasToDots(t) == t
  {
  }

  lemma ShiftDigit(acc: int, c: int, p: int)
    ensures (acc * 10 + c) * p == acc * (10 * p) + c * p
  {
  }

  /** Scanning a run of digits folds them into the accumulator. */
  lemma {:induction false} ScanDigits(ds: string, rest: string, acc: nat, scale: nat, seenDot: bool, seenDigit: bool)
    requires AllDigits(ds)
    ensures ScanUnsigned(ds + rest, acc, scale, seenDot, seenDigit)
         == ScanUnsigned(rest, acc * Pow10(|ds|) + DigitsValue(ds),
                         if seenDot then scale + |ds| else scale, seenDot, seenDigit || |ds| > 0)
  {
    if ds == [] {
      assert ds + rest == rest;
    } else {
      var c, tl := ds[0], ds[1..];
      assert (ds + rest)[0] == c && (ds + rest)[1..] == tl + rest;
      var acc' := acc * 10 + DigitValue(c);
      var scale' := if seenDot then scale + 1 else scale;
      assert ScanUnsigned(ds + rest, acc, scale, seenDot, seenDigit)
          == ScanUnsigned(tl + rest, acc', scale', seenDot, true);
      ScanDigits(tl, rest, acc', scale', seenDot, true);
      ShiftDigit(acc, DigitValue(c), Pow10(|tl|));
      assert acc' * Pow10(|tl|) + DigitsValue(tl) == acc * Pow10(|ds|) + DigitsValue(ds);
    }
  }

  /** `Number` reads a run of digits as the integer they spell. */
  lemma {:induction false} ParseDigits(ip: string)
    requires |ip| > 0 && AllDigits(ip)
    ensures ParseNumber(ip) == Some(Dec(DigitsValue(ip), 0))
  {
    assert ip == ip + "";
    ScanDigits(ip, "", 0, 0, false, false);
    assert ParseNumber(ip) == ParseUnsigned(ip);
  }

  /** `Number` reads digits, a dot and more digits as the exact decimal they spell. */
  lemma {:induction false} ParseDigitsDot(ip: string, fp: string)
    requires |ip| > 0 && AllDigits(ip) && AllDigits(fp)
    ensures ParseNumber(ip + "." + fp) == Some(Dec(DigitsValue(ip) * Pow10(|fp|) + DigitsValue(fp), |fp|))
  {
    var t := ip + "." + fp;
    assert t[0] == ip[0];
    assert ParseNumber(t) == ParseUnsigned(t);
    assert t == ip + ("." + fp);
    ScanDigits(ip, "." + fp, 0, 0, false, false);
    var v := DigitsValue(ip);
    assert ScanUnsigned(t, 0, 0, false, false) == ScanUnsigned("." + fp, v, 0, false, true);
    assert ("." + fp)[0] == '.' && ("." + fp)[1..] == fp;
    assert ScanUnsigned("." + fp, v, 0, false, true) == ScanUnsigned(fp, v, 0, true, true);
    assert fp == fp + "";
    ScanDigits(fp, "", v, 0, true, true);
  }

  lemma {:induction false} PadDigitsValue(k: nat, w: nat)
    requires k < Pow10(w)
    ensures AllDigits(PadDigits(k, w)) && DigitsValue(PadDigits(k, w)) == k
  {
    PadDigitsDigits(k, w);
    if w > 0 {
      PadDigitsDigits(k / 10, w - 1);
      PadDigitsValue(k / 10, w - 1);
      DigitsValueSnoc(PadDigits(k / 10, w - 1), DigitChar(k % 10));
    }
  }

  lemma DivModSplit(a: nat, p: nat)
    requires p > 0
    ensures 0 <= a / p && (a / p) * p + a % p == a && 0 <= a % p < p
  {
  }

  /** The parts of a rendered magnitude are digits, with one dot iff `e > 0`. */
  lemma {:induction false} ScaledTextChars(a: nat, e: nat, p: nat)
    requires p > 0
    ensures var t := ScaledText(a, e, p);
      && |t| > 0 && IsDigit(t[0]) && ',' !in t
      && (forall i :: 0 <= i < |t| ==> IsNumericChar(t[i]))
      && ('.' in t <==> e > 0)
  {
    var whole := NatText(a / p);
    if e > 0 {
      var frac := PadDigits(a % p, e);
      PadDigitsDigits(a % p, e);
      var t := whole + "." + frac;
      assert t[|whole|] == '.';
      forall i | 0 <= i < |t| ensures IsNumericChar(t[i]) && t[i] != ',' {
        if i < |whole| { assert t[i] == whole[i]; }
        else if i > |whole| { assert t[i] == frac[i - |whole| - 1]; }
      }
    }
  }

  lemma {:induction false} PadDigitsDigits(k: nat, w: nat)
    ensures AllDigits(PadDigits(k, w))
  {
    if w > 0 {
      PadDigitsDigits(k / 10, w - 1);
    }
  }

  /** `Number` reads a rendered magnitude back as `a / 10^e`. */
  lemma {:induction false} ScaledTextParse(a: nat, e: nat, p: nat)
    requires p == Pow10(e)
    ensures ParseNumber(ScaledText(a, e, p)) == Some(Dec(a, e))
  {
    DivModSplit(a, p);
    var q: nat, r: nat := a / p, a % p;
    var whole := NatText(q);
    NatTextRoundTrip(q);
    if e == 0 {
      assert p == 1;
      assert q == a;
      ParseDigits(whole);
      assert ScaledText(a, e, p) == whole;
    } else {
      var frac := PadDigits(r, e);
      PadDigitsValue(r, e);
      ParseDigitsDot(whole, frac);
      assert ScaledText(a, e, p) == whole + "." + frac;
      assert DigitsValue(whole) == q && DigitsValue(frac) == r && |frac| == e;
      assert q * p + r == a;
    }
  }

  /** A string that the cleaning steps leave alone is read by `Number` alone. */
  lemma CleanStringOfClean(t: string, x: Dec)
    requires t != "" && ',' !in t
    requires DropGroupingCommas(KeepNumeric(t)) == t
    requires ParseNumber(t) == Some(x)
    ensures CleanString(t) == Value(x)
  {
    CommasToDotsWithoutCommas(t);
  }

  /** An optional minus sign before a clean unsigned literal is read exactly. */
  lemma {:induction false} SignedTextRead(neg: bool, body: string, x: Dec)
    requires |body| > 0 && IsDigit(body[0]) && ',' !in body
    requires forall i :: 0 <= i < |body| ==> IsNumericChar(body[i])
    requires ParseNumber(body) == Some(x)
    ensures CleanString((if neg then "-" else "") + body) == Value(if neg then Dec(-x.m, x.e) else x)
  {
    var t := (if neg then "-" else "") + body;
    assert ',' !in t && forall i :: 0 <= i < |t| ==> IsNumericChar(t[i]) by {
      if neg { assert forall i :: 1 <= i < |t| ==> t[i] == body[i - 1]; }
    }
    KeepNumericOfNumeric(t);
    DropWithoutCommas(t, 0);
    assert ParseUnsigned(body) == Some(x);
    if neg {
      assert t[0] == '-' && t[1..] == body;
      CleanStringOfClean(t, Dec(-x.m, x.e));
    } else {
      assert t == body;
      CleanStringOfClean(t, x);
    }
  }

  /** The string form of any number reads back as that number:
      `cleanNumber(String(x)) == x`. */
  lemma NumTextRoundTrip(d: Dec)
    ensures CleanNumber(Str(NumText(d))) == Value(d)
  {
    var n := Normalize(d);
    var a: nat := if n.m < 0 then -n.m else n.m;
    var body := ScaledText(a, n.e, Pow10(n.e));
    ScaledTextChars(a, n.e, Pow10(n.e));
    ScaledTextParse(a, n.e, Pow10(n.e));
    var x := Dec(a, n.e);
    SignedTextRead(n.m < 0, body, x);
    assert NumText(d) == (if n.m < 0 then "-" else "") + body;
    assert (if n.m < 0 then Dec(-x.m, x.e) else x) == n;
  }

  /** `cleanNumber` of a string whose cleaned form `t` contains a dot is `Number(t)`. */
  lemma CleanReadsDotted(s: string, k: string, t: string, x: Dec)
    requires KeepNumeric(s) == k && DropGroupingCommas(k) == t && '.' in t
    requires ParseNumber(t) == Some(x)
    ensures CleanNumber(Str(s)) == Value(x)
  {
  }

  /** Without a dot, the remaining commas are read as decimal points. */
  lemma CleanReadsCommaDecimal(s: string, k: string, t: string, u: string, x: Dec)
    requires KeepNumeric(s) == k && DropGroupingCommas(k) == t && '.' !in t
    requires CommasToDots(t) == u && ParseNumber(u) == Some(x)
    ensures CleanNumber(Str(s)) == Value(x)
  {
  }

  /** A cleaned form that `Number` rejects gives 0 rather than NaN. */
  lemma CleanRejects(s: string, k: string, t: string, u: string)
    requires KeepNumeric(s) == k && DropGroupingCommas(k) == t
    requires u == (if '.' in t then t else CommasToDots(t)) && ParseNumber(u) == None
    ensures CleanNumber(Str(s)) == 0.0
  {
  }
}
