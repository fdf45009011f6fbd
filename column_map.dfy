/** Guessing the column mapping from the file's headers: `autoMap` and its
    alias table `PRESETS` (src/App.js). */
module ColumnMap {
  import opened Strings
  import opened Records

  /** The aliases tried for each field, in order (`PRESETS`). */
  function Presets(f: Field): (aliases: seq<string>)
    ensures |aliases| > 0
    ensures forall k :: 0 <= k < |aliases| ==> |aliases[k]| > 0
  {
    match f
    case Customer => ["customer", "customer name", "account name", "client", "client name", "trading name"]
    case Email => ["email", "e-mail", "email address", "contact email"]
    case Invoice => ["invoice", "invoice number", "invoice #", "inv#", "doc", "document", "invoice id", "invoiceid", "inv id"]
    case Amount => ["amount", "total", "debit", "balance", "amount due", "outstanding", "total overdue", "overdue total", "total_overdue"]
    case DueDate => ["duedate", "due date", "due", "terms date"]
  }

  /** `headers.map(h => String(h).toLowerCase())`. */
  function LowerAll(headers: seq<string>): (hLow: seq<string>)
    ensures |hLow| == |headers|
    ensures forall i :: 0 <= i < |headers| ==> hLow[i] == Lower(headers[i])
  {
    seq(|headers|, i requires 0 <= i < |headers| => Lower(headers[i]))
  }

  /** `hs.indexOf(w)`: the first index holding `w`, or -1. */
  function IndexOf(hs: seq<string>, w: string): (r: int)
    ensures -1 <= r < |hs|
    ensures r >= 0 ==> hs[r] == w && forall j :: 0 <= j < r ==> hs[j] != w
    ensures r == -1 ==> forall j :: 0 <= j < |hs| ==> hs[j] != w
  {
    if hs == [] then -1
    else if hs[0] == w then 0
    else
      var k := IndexOf(hs[1..], w);
      if k == -1 then -1 else k + 1
  }

  /** `hs.findIndex(h => h.includes(w))`: the first index containing `w`, or -1. */
  function FindContaining(hs: seq<string>, w: string): (r: int)
    ensures -1 <= r < |hs|
    ensures r >= 0 ==> Contains(hs[r], w) && forall j :: 0 <= j < r ==> !Contains(hs[j], w)
    ensures r == -1 ==> forall j :: 0 <= j < |hs| ==> !Contains(hs[j], w)
  {
    if hs == [] then -1
    else if Contains(hs[0], w) then 0
    else
      var k := FindContaining(hs[1..], w);
      if k == -1 then -1 else k + 1
  }

  /** The first pass: the header index found for the first alias that some
      lowered header equals, or -1. */
  function ExactPass(hLow: seq<string>, aliases: seq<string>): (r: int)
    ensures -1 <= r < |hLow|
  {
    if aliases == [] then -1
    else
      var i := IndexOf(hLow, aliases[0]);
      if i != -1 then i else ExactPass(hLow, aliases[1..])
  }

  /** The second pass: the same with containment in place of equality. */
  function ContainsPass(hLow: seq<string>, aliases: seq<string>): (r: int)
    ensures -1 <= r < |hLow|
  {
    if aliases == [] then -1
    else
      var i := FindContaining(hLow, aliases[0]);
      if i != -1 then i else ContainsPass(hLow, aliases[1..])
  }

  /** The header `autoMap`'s inner `pick(list)` returns for one alias list. */
  function AliasPick(headers: seq<string>, aliases: seq<string>): (r: string)
    ensures r == "" || r in headers
  {
    var hLow := LowerAll(headers);
    var i := ExactPass(hLow, aliases);
    if i != -1 then headers[i]
    else
      var j := ContainsPass(hLow, aliases);
      if j != -1 then headers[j] else ""
  }

  /** What `autoMap(headers)` returns. */
  function AutoMapping(headers: seq<string>): Mapping {
    Mapping(AliasPick(headers, Presets(Customer)), AliasPick(headers, Presets(Email)),
            AliasPick(headers, Presets(Invoice)), AliasPick(headers, Presets(Amount)),
            AliasPick(headers, Presets(DueDate)))
  }

  /** The inner `pick(list)`: an exact search over the aliases in order, then
      a containment search, each returning at its first hit. */
  method PickHeader(headers: seq<string>, hLow: seq<string>, aliases: seq<string>) returns (r: string)
    requires hLow == LowerAll(headers)
    ensures r == AliasPick(headers, aliases)
  {
    var k := 0;
    while k < |aliases|
      invariant 0 <= k <= |aliases|
      invariant ExactPass(hLow, aliases) == ExactPass(hLow, aliases[k..])
    {
      assert aliases[k..][0] == aliases[k] && aliases[k..][1..] == aliases[k + 1..];
      var i := IndexOf(hLow, aliases[k]);
      if i != -1 {
        return headers[i];
      }
      k := k + 1;
    }
    assert aliases[k..] == [];
    k := 0;
    while k < |aliases|
      invariant 0 <= k <= |aliases|
      invariant ContainsPass(hLow, aliases) == ContainsPass(hLow, aliases[k..])
    {
      assert aliases[k..][0] == aliases[k] && aliases[k..][1..] == aliases[k + 1..];
      var i := FindContaining(hLow, aliases[k]);
      if i != -1 {
        return headers[i];
      }
      k := k + 1;
    }
    assert aliases[k..] == [];
    return "";
  }

  /** `autoMap(headers)`. */
  method AutoMap(headers: seq<string>) returns (m: Mapping)
    ensures m == AutoMapping(headers)
  {
    var hLow := LowerAll(headers);
    var customer := PickHeader(headers, hLow, Presets(Customer));
    var email := PickHeader(headers, hLow, Presets(Email));
    var invoice := PickHeader(headers, hLow, Presets(Invoice));
    var amount := PickHeader(headers, hLow, Presets(Amount));
    var dueDate := PickHeader(headers, hLow, Presets(DueDate));
    m := Mapping(customer, email, invoice, amount, dueDate);
  }

  // ------------------------------------------------------------ properties

  lemma {:induction false} ExactPassFinds(hLow: seq<string>, aliases: seq<string>, j: nat, i: nat)
    requires j < |aliases| && i < |hLow| && hLow[i] == aliases[j]
    requires forall a, b :: 0 <= a < j && 0 <= b < |hLow| ==> hLow[b] != aliases[a]
    requires forall b :: 0 <= b < i ==> hLow[b] != aliases[j]
    ensures ExactPass(hLow, aliases) == i
  {
    if j > 0 {
      assert IndexOf(hLow, aliases[0]) == -1;
      ExactPassFinds(hLow, aliases[1..], j - 1, i);
    }
  }

  lemma {:induction false} ExactPassMisses(hLow: seq<string>, aliases: seq<string>)
    requires forall a, b :: 0 <= a < |aliases| && 0 <= b < |hLow| ==> hLow[b] != aliases[a]
    ensures ExactPass(hLow, aliases) == -1
  {
    if aliases != [] {
      ExactPassMisses(hLow, aliases[1..]);
    }
  }

  lemma {:induction false} ContainsPassFinds(hLow: seq<string>, aliases: seq<string>, j: nat, i: nat)
    requires j < |aliases| && i < |hLow| && Contains(hLow[i], aliases[j])
    requires forall a, b :: 0 <= a < j && 0 <= b < |hLow| ==> !Contains(hLow[b], aliases[a])
    requires forall b :: 0 <= b < i ==> !Contains(hLow[b], aliases[j])
    ensures ContainsPass(hLow, aliases) == i
  {
    if j > 0 {
      assert FindContaining(hLow, aliases[0]) == -1;
      ContainsPassFinds(hLow, aliases[1..], j - 1, i);
    }
  }

  lemma {:induction false} ContainsPassMisses(hLow: seq<string>, aliases: seq<string>)
    requires forall a, b :: 0 <= a < |aliases| && 0 <= b < |hLow| ==> !Contains(hLow[b], aliases[a])
    ensures ContainsPass(hLow, aliases) == -1
  {
    if aliases != [] {
      ContainsPassMisses(hLow, aliases[1..]);
    }
  }

  /** An exact (case-insensitive) match wins: the earliest alias matched by
      any header decides, and among the headers equal to it the first one. */
  lemma ExactMatchWins(headers: seq<string>, aliases: seq<string>, j: nat, i: nat)
    requires j < |aliases| && i < |headers| && Lower(headers[i]) == aliases[j]
    requires forall a, b :: 0 <= a < j && 0 <= b < |headers| ==> Lower(headers[b]) != aliases[a]
    requires forall b :: 0 <= b < i ==> Lower(headers[b]) != aliases[j]
    ensures AliasPick(headers, aliases) == headers[i]
  {
    ExactPassFinds(LowerAll(headers), aliases, j, i);
  }

  /** With no exact match anywhere, the earliest alias contained in some
      lowered header decides, and among those headers the first one. */
  lemma ContainedMatchWins(headers: seq<string>, aliases: seq<string>, j: nat, i: nat)
    requires forall a, b :: 0 <= a < |aliases| && 0 <= b < |headers| ==> Lower(headers[b]) != aliases[a]
    requires j < |aliases| && i < |headers| && Contains(Lower(headers[i]), aliases[j])
    requires forall a, b :: 0 <= a < j && 0 <= b < |headers| ==> !Contains(Lower(headers[b]), aliases[a])
    requires forall b :: 0 <= b < i ==> !Contains(Lower(headers[b]), aliases[j])
    ensures AliasPick(headers, aliases) == headers[i]
  {
    var hLow := LowerAll(headers);
    ExactPassMisses(hLow, aliases);
    ContainsPassFinds(hLow, aliases, j, i);
  }

  /** A header equal to an alias is also a header containing it, so the
      mapping is "" only when no lowered header contains any alias. */
  lemma NoMatchGivesEmpty(headers: seq<string>, aliases: seq<string>)
    requires forall a, b :: 0 <= a < |aliases| && 0 <= b < |headers| ==> !Contains(Lower(headers[b]), aliases[a])
    ensures AliasPick(headers, aliases) == ""
  {
    var hLow := LowerAll(headers);
    forall a, b | 0 <= a < |aliases| && 0 <= b < |headers|
      ensures hLow[b] != aliases[a]
    {
      if hLow[b] == aliases[a] {
        assert OccursAt(hLow[b], aliases[a], 0);
      }
    }
    ExactPassMisses(hLow, aliases);
    ContainsPassMisses(hLow, aliases);
  }

  /** Conversely, when some header contains an alias, the pick is one of the
      headers. */
  lemma MatchGivesHeader(headers: seq<string>, aliases: seq<string>, a: nat, b: nat)
    requires a < |aliases| && b < |headers| && Contains(Lower(headers[b]), aliases[a])
    ensures AliasPick(headers, aliases) in headers
  {
    var hLow := LowerAll(headers);
    if ExactPass(hLow, aliases) == -1 {
      ContainsPassHits(hLow, aliases, a, b);
    }
  }

  lemma {:induction false} ContainsPassHits(hLow: seq<string>, aliases: seq<string>, a: nat, b: nat)
    requires a < |aliases| && b < |hLow| && Contains(hLow[b], aliases[a])
    ensures ContainsPass(hLow, aliases) != -1
  {
    if FindContaining(hLow, aliases[0]) == -1 {
      ContainsPassHits(hLow, aliases[1..], a - 1, b);
    }
  }
}

/** The mapping guessed for the header row used throughout the documentation. */
module ColumnMapExamples {
  import opened Strings
  import opened Records
  import opened ColumnMap

  const SampleHeaders: seq<string> := ["Customer Name", "Email", "Invoice #", "Amount", "Due Date"]

  lemma SampleLowered()
    ensures LowerAll(SampleHeaders) == ["customer name", "email", "invoice #", "amount", "due date"]
  {
    assert Lower("Customer Name") == "customer name";
    assert Lower("Email") == "email";
    assert Lower("Invoice #") == "invoice #";
    assert Lower("Amount") == "amount";
    assert Lower("Due Date") == "due date";
  }

  lemma SampleCustomer()
    ensures AliasPick(SampleHeaders, Presets(Customer)) == "Customer Name"
  {
    SampleLowered();
    ExactMatchWins(SampleHeaders, Presets(Customer), 1, 0);
  }

  lemma SampleEmail()
    ensures AliasPick(SampleHeaders, Presets(Email)) == "Email"
  {
    SampleLowered();
    ExactMatchWins(SampleHeaders, Presets(Email), 0, 1);
  }

  lemma SampleInvoice()
    ensures AliasPick(SampleHeaders, Presets(Invoice)) == "Invoice #"
  {
    SampleLowered();
    ExactMatchWins(SampleHeaders, Presets(Invoice), 2, 2);
  }

  lemma SampleAmount()
    ensures AliasPick(SampleHeaders, Presets(Amount)) == "Amount"
  {
    SampleLowered();
    ExactMatchWins(SampleHeaders, Presets(Amount), 0, 3);
  }

  lemma SampleDueDate()
    ensures AliasPick(SampleHeaders, Presets(DueDate)) == "Due Date"
  {
    SampleLowered();
    ExactMatchWins(SampleHeaders, Presets(DueDate), 1, 4);
  }

  /** Every field of the sample header row maps to its own column. */
  lemma AutoMapSampleExample()
    ensures AutoMapping(SampleHeaders) == Mapping("Customer Name", "Email", "Invoice #", "Amount", "Due Date")
  {
    SampleCustomer();
    SampleEmail();
    SampleInvoice();
    SampleAmount();
    SampleDueDate();
  }
}
