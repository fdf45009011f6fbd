/** String helpers with JavaScript semantics: `trim`, ASCII `toLowerCase`,
    `includes`, `indexOf`, `replaceAll` with a string pattern, `join`,
    and the decimal rendering of natural numbers. */
module Strings {

  /** WhiteSpace and LineTerminator code points that `String.prototype.trim` removes. */
  predicate IsJsSpace(c: char) {
    c == '\t' || c == '\n' || c == '\U{000B}' || c == '\U{000C}' || c == '\r' || c == ' '
    || c == '\U{00A0}' || c == '\U{1680}' || ('\U{2000}' <= c <= '\U{200A}')
    || c == '\U{2028}' || c == '\U{2029}' || c == '\U{202F}' || c == '\U{205F}'
    || c == '\U{3000}' || c == '\U{FEFF}'
  }

  /** Neither end of `s` is a space. */
  predicate Trimmed(s: string) {
    s == [] || (!IsJsSpace(s[0]) && !IsJsSpace(s[|s| - 1]))
  }

  function TrimStart(s: string): string {
    if s != [] && IsJsSpace(s[0]) then TrimStart(s[1..]) else s
  }

  function TrimEnd(s: string): string {
    if s != [] && IsJsSpace(s[|s| - 1]) then TrimEnd(s[..|s| - 1]) else s
  }

  /** `s.trim()`. */
  function Trim(s: string): string {
    TrimEnd(TrimStart(s))
  }

  /** `trimStart` removes exactly the leading spaces. */
  lemma {:induction false} TrimStartFacts(s: string)
    ensures var r := TrimStart(s);
      && |r| <= |s| && r == s[|s| - |r|..]
      && (r == [] || !IsJsSpace(r[0]))
      && forall i :: 0 <= i < |s| - |r| ==> IsJsSpace(s[i])
  {
    if s != [] && IsJsSpace(s[0]) {
      var t := s[1..];
      TrimStartFacts(t);
      var r := TrimStart(t);
      assert t[|t| - |r|..] == s[|s| - |r|..];
      forall i | 0 <= i < |s| - |r| ensures IsJsSpace(s[i]) {
        if i > 0 {
          assert s[i] == t[i - 1];
        }
      }
    }
  }

  /** `trimEnd` removes exactly the trailing spaces. */
  lemma {:induction false} TrimEndFacts(s: string)
    ensures var r := TrimEnd(s);
      && |r| <= |s| && r == s[..|r|]
      && (r == [] || !IsJsSpace(r[|r| - 1]))
      && forall i :: |r| <= i < |s| ==> IsJsSpace(s[i])
  {
    if s != [] && IsJsSpace(s[|s| - 1]) {
      TrimEndFacts(s[..|s| - 1]);
    }
  }

  /** The result of `trim` has no space at either end, is no longer than
      its input, leaves an already-trimmed string alone, and is empty exactly
      when the input is all spaces. */
  lemma TrimFacts(s: string)
    ensures Trimmed(Trim(s))
    ensures |Trim(s)| <= |s|
    ensures Trimmed(s) ==> Trim(s) == s
    ensures Trim(s) == [] <==> forall i :: 0 <= i < |s| ==> IsJsSpace(s[i])
  {
    var t := TrimStart(s);
    TrimStartFacts(s);
    TrimEndFacts(t);
    var r := TrimEnd(t);
    if Trimmed(s) && s != [] {
      assert t == s;
    }
    if r == [] {
      assert t == [];
    } else {
      assert t[0] == r[0];
      assert !IsJsSpace(s[|s| - |t|]);
    }
  }

  /** Trimming twice is trimming once. */
  lemma TrimIdempotent(s: string)
    ensures Trim(Trim(s)) == Trim(s)
  {
    TrimFacts(s);
    TrimFacts(Trim(s));
  }

  function LowerChar(c: char): char {
    if 'A' <= c <= 'Z' then (c as int + 32) as char else c
  }

  /** `s.toLowerCase()` restricted to the ASCII letters. */
  function Lower(s: string): (r: string)
    ensures |r| == |s|
    ensures forall i :: 0 <= i < |s| ==> r[i] == LowerChar(s[i])
  {
    seq(|s|, i requires 0 <= i < |s| => LowerChar(s[i]))
  }

  ghost predicate OccursAt(h: string, w: string, k: int) {
    0 <= k && k + |w| <= |h| && h[k..k + |w|] == w
  }

  /** `h.includes(w)`. */
  function Contains(h: string, w: string): (b: bool)
    ensures b <==> exists k :: OccursAt(h, w, k)
  {
    if |w| > |h| then false
    else if h[..|w|] == w then
      assert OccursAt(h, w, 0);
      true
    else
      var b := Contains(h[1..], w);
      assert forall k :: OccursAt(h[1..], w, k) ==> OccursAt(h, w, k + 1) by {
        forall k | OccursAt(h[1..], w, k) ensures OccursAt(h, w, k + 1) {
          assert h[k + 1..k + 1 + |w|] == h[1..][k..k + |w|];
        }
      }
      assert forall k :: OccursAt(h, w, k) ==> k == 0 || OccursAt(h[1..], w, k - 1) by {
        forall k | OccursAt(h, w, k) && k != 0 ensures OccursAt(h[1..], w, k - 1) {
          assert h[1..][k - 1..k - 1 + |w|] == h[k..k + |w|];
        }
      }
      b
  }

  /** `s.replaceAll(p, rep)` with a non-empty string pattern: occurrences are
      found left to right and do not overlap; the replacement is literal. */
  function ReplaceAll(s: string, p: string, rep: string): (r: string)
    requires |p| > 0
    ensures !Contains(s, p) ==> r == s
    decreases |s|
  {
    if |s| < |p| then s
    else if s[..|p|] == p then
      assert OccursAt(s, p, 0);
      rep + ReplaceAll(s[|p|..], p, rep)
    else
      var t := ReplaceAll(s[1..], p, rep);
      assert !Contains(s, p) ==> !Contains(s[1..], p) by {
        if Contains(s[1..], p) {
          var k :| OccursAt(s[1..], p, k);
          assert s[k + 1..k + 1 + |p|] == s[1..][k..k + |p|];
          assert OccursAt(s, p, k + 1);
        }
      }
      assert !Contains(s, p) ==> [s[0]] + s[1..] == s;
      [s[0]] + t
  }

  /** `parts.join(sep)`. */
  function Join(parts: seq<string>, sep: string): string {
    if |parts| == 0 then ""
    else if |parts| == 1 then parts[0]
    else parts[0] + sep + Join(parts[1..], sep)
  }

  /** A join of non-empty parts is empty exactly when there are no parts. */
  lemma JoinEmptyIff(parts: seq<string>, sep: string)
    requires forall i :: 0 <= i < |parts| ==> |parts[i]| > 0
    ensures Join(parts, sep) == "" <==> |parts| == 0
  {
    if |parts| > 1 {
      assert |Join(parts, sep)| >= |parts[0]|;
    }
  }

  /** A join of at least one part begins with the first part. */
  lemma JoinStartsWith(parts: seq<string>, sep: string)
    requires |parts| > 0
    ensures |Join(parts, sep)| >= |parts[0]|
    ensures Join(parts, sep)[..|parts[0]|] == parts[0]
  {
    if |parts| > 1 {
      assert Join(parts, sep) == parts[0] + (sep + Join(parts[1..], sep));
    }
  }

  /** Where the pattern does not start, the first character is kept. */
  lemma ReplaceAllKeeps(s: string, p: string, rep: string)
    requires |p| > 0 && |s| >= |p| && s[0] != p[0]
    ensures ReplaceAll(s, p, rep) == [s[0]] + ReplaceAll(s[1..], p, rep)
  {
    assert s[..|p|][0] != p[0];
  }

  lemma ConsAppend(a: string, r: string)
    requires a != []
    ensures [a[0]] + (a[1..] + r) == a + r
  {
    assert [a[0]] + a[1..] == a;
  }

  /** Text holding no character that could start the pattern passes through
      `ReplaceAll` unchanged, whatever follows it. */
  lemma {:induction false} ReplaceAllSkips(a: string, b: string, p: string, rep: string)
    requires |p| > 0 && p[0] !in a
    ensures ReplaceAll(a + b, p, rep) == a + ReplaceAll(b, p, rep)
    decreases |a|
  {
    if a == [] {
      assert a + b == b;
    } else if |a + b| < |p| {
      assert ReplaceAll(b, p, rep) == b;
    } else {
      var s := a + b;
      ReplaceAllKeeps(s, p, rep);
      assert s[1..] == a[1..] + b;
      ReplaceAllSkips(a[1..], b, p, rep);
      ConsAppend(a, ReplaceAll(b, p, rep));
    }
  }

  /** An occurrence at the start is replaced, and the search resumes after it. */
  lemma ReplaceAllAtStart(p: string, b: string, rep: string)
    requires |p| > 0
    ensures ReplaceAll(p + b, p, rep) == rep + ReplaceAll(b, p, rep)
  {
    var s := p + b;
    assert s[..|p|] == p;
    assert s[|p|..] == b;
  }

  lemma ReplaceAllEmptyPrefix(a: string, p: string, b: string, rep: string)
    requires |p| > 0 && a == []
    ensures ReplaceAll(a + p + b, p, rep) == a + rep + ReplaceAll(b, p, rep)
  {
    assert a + p + b == p + b;
    assert a + rep + ReplaceAll(b, p, rep) == rep + ReplaceAll(b, p, rep);
    ReplaceAllAtStart(p, b, rep);
  }

  /** Where no occurrence starts, the first character is kept. */
  lemma ReplaceAllPast(s: string, p: string, rep: string)
    requires |p| > 0 && |s| > |p| && !OccursAt(s, p, 0)
    ensures ReplaceAll(s, p, rep) == [s[0]] + ReplaceAll(s[1..], p, rep)
  {
  }

  lemma ReplaceAllBefore(a: string, p: string, b: string, rep: string)
    requires |p| > 0 && a != [] && !OccursAt(a + p + b, p, 0)
    ensures ReplaceAll(a + p + b, p, rep) == [a[0]] + ReplaceAll(a[1..] + p + b, p, rep)
  {
    var s := a + p + b;
    ReplaceAllPast(s, p, rep);
    assert s[1..] == a[1..] + p + b;
  }

  lemma NoOccurrenceTail(a: string, p: string, b: string)
    requires a != []
    requires forall k :: 0 <= k < |a| ==> !OccursAt(a + p + b, p, k)
    ensures forall k :: 0 <= k < |a[1..]| ==> !OccursAt(a[1..] + p + b, p, k)
  {
    var s := a + p + b;
    assert s[1..] == a[1..] + p + b;
    forall k | 0 <= k < |a[1..]|
      ensures !OccursAt(a[1..] + p + b, p, k)
    {
      assert !OccursAt(s, p, k + 1);
      assert s[k + 1..k + 1 + |p|] == s[1..][k..k + |p|];
    }
  }

  lemma ConsAppend3(a: string, r: string, t: string)
    requires a != []
    ensures [a[0]] + (a[1..] + r + t) == a + r + t
  {
    assert a[1..] + r + t == a[1..] + (r + t);
    ConsAppend(a, r + t);
  }

  /** The first occurrence is replaced, and the search resumes after it: the
      text it covered is not searched again, so occurrences never overlap. */
  lemma {:induction false} ReplaceAllReplaces(a: string, p: string, b: string, rep: string)
    requires |p| > 0
    requires forall k :: 0 <= k < |a| ==> !OccursAt(a + p + b, p, k)
    ensures ReplaceAll(a + p + b, p, rep) == a + rep + ReplaceAll(b, p, rep)
    decreases |a|
  {
    if a == [] {
      ReplaceAllEmptyPrefix(a, p, b, rep);
    } else {
      ReplaceAllBefore(a, p, b, rep);
      NoOccurrenceTail(a, p, b);
      ReplaceAllReplaces(a[1..], p, b, rep);
      ConsAppend3(a, rep, ReplaceAll(b, p, rep));
    }
  }

  predicate IsDigit(c: char) { '0' <= c <= '9' }

  function DigitChar(d: nat): char
    requires d < 10
  {
    ('0' as int + d) as char
  }

  function DigitValue(c: char): nat
    requires IsDigit(c)
  {
    c as int - '0' as int
  }

  /** `String(n)` for a natural number: decimal digits, no leading zero. */
  function NatText(n: nat): (r: string)
    ensures |r| > 0
    ensures forall i :: 0 <= i < |r| ==> IsDigit(r[i])
    ensures r[0] == '0' ==> n == 0 && r == "0"
  {
    if n < 10 then [DigitChar(n)] else NatText(n / 10) + [DigitChar(n % 10)]
  }

  function Pow10(e: nat): (r: nat)
    ensures r >= 1
  {
    if e == 0 then 1 else 10 * Pow10(e - 1)
  }

  /** The value of a run of decimal digits, most significant first. */
  function DigitsValue(s: string): nat
    requires forall i :: 0 <= i < |s| ==> IsDigit(s[i])
  {
    if s == [] then 0 else DigitValue(s[0]) * Pow10(|s| - 1) + DigitsValue(s[1..])
  }

  lemma ShiftLeading(a: int, p: int, b: int, c: int)
    ensures a * (10 * p) + (b * 10 + c) == (a * p + b) * 10 + c
  {
  }

  /** Appending a digit multiplies the value so far by ten. */
  lemma {:induction false} DigitsValueSnoc(s: string, c: char)
    requires forall i :: 0 <= i < |s| ==> IsDigit(s[i])
    requires IsDigit(c)
    ensures DigitsValue(s + [c]) == DigitsValue(s) * 10 + DigitValue(c)
  {
    if s != [] {
      var t := s + [c];
      assert t[0] == s[0] && t[1..] == s[1..] + [c];
      DigitsValueSnoc(s[1..], c);
      var a, p, b := DigitValue(s[0]), Pow10(|s| - 1), DigitsValue(s[1..]);
      assert Pow10(|t| - 1) == 10 * p;
      assert DigitsValue(t) == a * (10 * p) + (b * 10 + DigitValue(c));
      assert DigitsValue(s) == a * p + b;
      ShiftLeading(a, p, b, DigitValue(c));
    }
  }

  /** Reading `NatText(n)` back gives `n`; therefore the rendering is injective. */
  lemma {:induction false} NatTextRoundTrip(n: nat)
    ensures DigitsValue(NatText(n)) == n
  {
    if n >= 10 {
      NatTextRoundTrip(n / 10);
      DigitsValueSnoc(NatText(n / 10), DigitChar(n % 10));
    }
  }

  lemma NatTextInjective(a: nat, b: nat)
    requires NatText(a) == NatText(b)
    ensures a == b
  {
    NatTextRoundTrip(a);
    NatTextRoundTrip(b);
  }
}
