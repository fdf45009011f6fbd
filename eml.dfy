/** `buildEmlFile` and the download file name of src/App.js: a plain-text
    message file with five fixed-order headers and CR LF line ends, named
    after the customer with every character outside [A-Za-z0-9] replaced. */
module Eml {
  import opened Strings

  // ------------------------------------------------------- line endings

  /** `s.replace(/\n/g, "\r\n")`. */
  function ToCrlf(s: string): string {
    if s == [] then []
    else (if s[0] == '\n' then "\r\n" else [s[0]]) + ToCrlf(s[1..])
  }

  /** The reading back: each CR LF pair becomes LF, anything else is kept. */
  function FromCrlf(t: string): string {
    if t == [] then []
    else if |t| >= 2 && t[0] == '\r' && t[1] == '\n' then "\n" + FromCrlf(t[2..])
    else [t[0]] + FromCrlf(t[1..])
  }

  /** Every LF in `t` directly follows a CR. */
  predicate CrlfOnly(t: string) {
    forall i :: 0 <= i < |t| && t[i] == '\n' ==> i > 0 && t[i - 1] == '\r'
  }

  function CountLf(s: string): nat {
    if s == [] then 0 else (if s[0] == '\n' then 1 else 0) + CountLf(s[1..])
  }

  /** The conversion leaves no bare LF and adds one CR per LF. */
  lemma {:induction false} ToCrlfFacts(s: string)
    ensures CrlfOnly(ToCrlf(s))
    ensures |ToCrlf(s)| == |s| + CountLf(s)
  {
    if s != [] {
      ToCrlfFacts(s[1..]);
      var head := if s[0] == '\n' then "\r\n" else [s[0]];
      CrlfOnlyAppend(head, ToCrlf(s[1..]));
    }
  }

  /** Gluing two texts without bare LFs gives one: the second cannot start
      with LF. */
  lemma CrlfOnlyAppend(a: string, b: string)
    requires CrlfOnly(a) && CrlfOnly(b)
    ensures CrlfOnly(a + b)
  {
    var t := a + b;
    forall i | 0 <= i < |t| && t[i] == '\n' ensures i > 0 && t[i - 1] == '\r' {
      if i >= |a| {
        assert b[i - |a|] == '\n';
      }
    }
  }

  /** Converting and reading back gives the original body, CRs and all. */
  lemma {:induction false} CrlfRoundTrip(s: string)
    ensures FromCrlf(ToCrlf(s)) == s
  {
    if s != [] {
      var rest := ToCrlf(s[1..]);
      CrlfRoundTrip(s[1..]);
      ToCrlfFacts(s[1..]);
      if s[0] == '\n' {
        assert ToCrlf(s) == "\r\n" + rest;
        assert ("\r\n" + rest)[2..] == rest;
      } else {
        assert ToCrlf(s) == [s[0]] + rest;
        assert rest != [] ==> rest[0] != '\n';
        assert ([s[0]] + rest)[1..] == rest;
      }
    }
  }

  // ------------------------------------------------------------- the file

  function EmlHeaders(to: string, subject: string): seq<string> {
    ["MIME-Version: 1.0", "To: " + to, "Subject: " + subject,
     "Content-Type: text/plain; charset=UTF-8", "Content-Transfer-Encoding: 8bit"]
  }

  /** `buildEmlFile(to, subject, body)`. */
  function BuildEmlFile(to: string, subject: string, body: string): string {
    Join(EmlHeaders(to, subject), "\r\n") + "\r\n\r\n" + ToCrlf(body) + "\r\n"
  }

  /** The file is the header block, an empty line, the converted body and a
      final CR LF; between them every LF of the body has become CR LF (no
      bare LF, one extra character per LF) and the body reads back unchanged. */
  lemma EmlLayout(to: string, subject: string, body: string)
    ensures var f := BuildEmlFile(to, subject, body);
      var start := |Join(EmlHeaders(to, subject), "\r\n")| + 4;
      start <= |f| - 2
      && f[..start] == Join(EmlHeaders(to, subject), "\r\n") + "\r\n\r\n"
      && CrlfOnly(f[start..|f| - 2])
      && |f[start..|f| - 2]| == |body| + CountLf(body)
      && FromCrlf(f[start..|f| - 2]) == body
      && f[|f| - 2..] == "\r\n"
  {
    var h := Join(EmlHeaders(to, subject), "\r\n");
    var f := BuildEmlFile(to, subject, body);
    var start := |h| + 4;
    assert f == (h + "\r\n\r\n") + ToCrlf(body) + "\r\n";
    assert f[..start] == h + "\r\n\r\n";
    assert f[start..|f| - 2] == ToCrlf(body);
    ToCrlfFacts(body);
    CrlfRoundTrip(body);
  }

  predicate NoLf(s: string) {
    forall i :: 0 <= i < |s| ==> s[i] != '\n'
  }

  /** Lines free of LF joined with CR LF have no bare LF. */
  lemma {:induction false} JoinCrlfOnly(parts: seq<string>)
    requires forall i :: 0 <= i < |parts| ==> NoLf(parts[i])
    ensures CrlfOnly(Join(parts, "\r\n"))
  {
    if |parts| == 1 {
      assert NoLf(parts[0]);
    } else if |parts| > 1 {
      JoinCrlfOnly(parts[1..]);
      assert NoLf(parts[0]);
      assert CrlfOnly("\r\n");
      CrlfOnlyAppend(parts[0], "\r\n");
      CrlfOnlyAppend(parts[0] + "\r\n", Join(parts[1..], "\r\n"));
    }
  }

  lemma NoLfPrefixed(a: string, b: string)
    requires NoLf(a) && NoLf(b)
    ensures NoLf(a + b)
  {
  }

  lemma HeadersNoLf(to: string, subject: string)
    requires NoLf(to) && NoLf(subject)
    ensures forall i :: 0 <= i < |EmlHeaders(to, subject)| ==> NoLf(EmlHeaders(to, subject)[i])
  {
    NoLfPrefixed("To: ", to);
    NoLfPrefixed("Subject: ", subject);
    var hs := EmlHeaders(to, subject);
    assert NoLf(hs[0]);
    assert NoLf(hs[3]);
    assert NoLf(hs[4]);
  }

  /** With a recipient and a subject free of LF, the whole file has CR LF
      line ends only. */
  lemma EmlCrlfOnly(to: string, subject: string, body: string)
    requires NoLf(to) && NoLf(subject)
    ensures CrlfOnly(BuildEmlFile(to, subject, body))
  {
    HeadersNoLf(to, subject);
    var hs := EmlHeaders(to, subject);
    JoinCrlfOnly(hs);
    ToCrlfFacts(body);
    var h := Join(hs, "\r\n");
    assert CrlfOnly("\r\n\r\n");
    assert CrlfOnly("\r\n");
    CrlfOnlyAppend(h, "\r\n\r\n");
    CrlfOnlyAppend(h + "\r\n\r\n", ToCrlf(body));
    CrlfOnlyAppend(h + "\r\n\r\n" + ToCrlf(body), "\r\n");
  }

  // ------------------------------------------------------------ file name

  predicate IsAsciiAlnum(c: char) {
    'a' <= c <= 'z' || 'A' <= c <= 'Z' || '0' <= c <= '9'
  }

  /** `name.replace(/[^a-z0-9]/gi, "_")`: the pattern works on UTF-16 code
      units, so a character outside the Basic Multilingual Plane (two code
      units) becomes two underscores. */
  function SafeName(name: string): string {
    if name == [] then []
    else
      (if IsAsciiAlnum(name[0]) then [name[0]]
       else if name[0] as int > 0xFFFF then "__"
       else "_")
      + SafeName(name[1..])
  }

  function EmlFileName(name: string): string {
    SafeName(name) + ".eml"
  }

  predicate IsSafe(s: string) {
    forall i :: 0 <= i < |s| ==> IsAsciiAlnum(s[i]) || s[i] == '_'
  }

  predicate InBmp(s: string) {
    forall i :: 0 <= i < |s| ==> s[i] as int <= 0xFFFF
  }

  /** The sanitised name holds letters, digits and '_' only, and sanitising
      it again changes nothing. */
  lemma {:induction false} SafeNameFacts(name: string)
    ensures IsSafe(SafeName(name))
    ensures SafeName(SafeName(name)) == SafeName(name)
  {
    if name != [] {
      SafeNameFacts(name[1..]);
      var head := if IsAsciiAlnum(name[0]) then [name[0]] else if name[0] as int > 0xFFFF then "__" else "_";
      SafeNameAppend(head, SafeName(name[1..]));
      assert SafeName(head) == head by {
        if |head| == 2 {
          assert head[1..] == "_";
        }
      }
    }
  }

  lemma {:induction false} SafeNameAppend(a: string, b: string)
    ensures SafeName(a + b) == SafeName(a) + SafeName(b)
  {
    if a == [] {
      assert a + b == b;
    } else {
      assert (a + b)[1..] == a[1..] + b;
      SafeNameAppend(a[1..], b);
    }
  }

  /** For a name within the Basic Multilingual Plane the file name keeps
      the name's length and every letter and digit in place. */
  lemma {:induction false} SafeNamePositions(name: string)
    requires InBmp(name)
    ensures |SafeName(name)| == |name|
    ensures forall i :: 0 <= i < |name| ==>
      SafeName(name)[i] == if IsAsciiAlnum(name[i]) then name[i] else '_'
  {
    if name != [] {
      assert InBmp(name[1..]) by {
        forall i | 0 <= i < |name[1..]| ensures name[1..][i] as int <= 0xFFFF {
          assert name[1..][i] == name[i + 1];
        }
      }
      SafeNamePositions(name[1..]);
      var r := SafeName(name);
      forall i | 0 <= i < |name| ensures r[i] == if IsAsciiAlnum(name[i]) then name[i] else '_' {
        if i > 0 {
          assert r[i] == SafeName(name[1..])[i - 1];
          assert name[1..][i - 1] == name[i];
        }
      }
    }
  }

  /** Two different customers can share a file name, so one download
      replaces the other in the archive. */
  lemma FileNamesCollide()
    ensures "A&B" != "A B" && EmlFileName("A&B") == EmlFileName("A B")
  {
    assert SafeName("A&B") == "A_B";
    assert SafeName("A B") == "A_B";
  }
}
