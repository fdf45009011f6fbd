/** `generateEmail` of src/App.js: the draft e-mail for one customer, built
    from the customer's lines, the chosen template and four placeholders. */
module Email {
  import opened Wrappers
  import opened Strings
  import opened Cells
  import opened Records
  import opened Seqs
  import opened Amounts

  // ------------------------------------------------------------ templates

  const CustomerSlot: string := "{{Customer}}"
  const InvoiceLinesSlot: string := "{{InvoiceLines}}"
  const TotalOverdueSlot: string := "{{TotalOverdue}}"
  const CreditsSlot: string := "{{CreditsSection}}"

  // The three named templates, with their placeholders written as the slot names.

  const FriendlyTemplate: string :=
    "Dear " + CustomerSlot + ",\n\nThe following invoices are currently overdue:\n\n"
    + InvoiceLinesSlot + "\n\nTotal overdue:  " + TotalOverdueSlot + "\n" + CreditsSlot
    + "\n\nIf you've already paid, please ignore this. Otherwise, could you let us know the expected date of payment?\n\nKind regards,\nAccounts Receivable"

  const FirmTemplate: string :=
    "Hello " + CustomerSlot + ",\n\nDespite previous reminders, the following invoices remain overdue:\n\n"
    + InvoiceLinesSlot + "\n\nTotal overdue:  " + TotalOverdueSlot + "\n" + CreditsSlot
    + "\n\nPlease arrange payment today or reply with your remittance advice and pay date.\n\nRegards,\nAccounts Receivable"

  const FinalNoticeTemplate: string :=
    "FINAL NOTICE \U{2013} " + CustomerSlot + "\n\nYour account is on hold due to the overdue balance below:\n\n"
    + InvoiceLinesSlot + "\n\nTotal overdue:  " + TotalOverdueSlot + "\n" + CreditsSlot
    + "\n\nUnless full payment is received within 3 business days, we may suspend further supply.\n\nAccounts Receivable"

  /** The template in force: the user's own text for "Custom", a named
      template, and the friendly one for any other key. */
  function ChooseTemplate(key: string, custom: string): (t: string)
    ensures key == "Custom" ==> t == custom
    ensures key == "Firm" ==> t == FirmTemplate
    ensures key == "Final Notice" ==> t == FinalNoticeTemplate
    ensures key != "Custom" && key != "Firm" && key != "Final Notice" ==> t == FriendlyTemplate
  {
    if key == "Custom" then custom
    else if key == "Firm" then FirmTemplate
    else if key == "Final Notice" then FinalNoticeTemplate
    else FriendlyTemplate
  }

  // ------------------------------------------------- the customer's lines

  predicate IsOverdue(l: Line) { l.amount > 0.0 }

  predicate IsCredit(l: Line) { l.amount < 0.0 }

  function LineAmount(l: Line): real { l.amount }

  function CreditAmount(l: Line): real { Abs(l.amount) }

  /** `- Invoice ${inv} — ${money(amt)} due ${due}`. */
  function OverdueLine(l: Line): string {
    "- Invoice " + OrEmpty(l.invoice) + " \U{2014} " + Money(l.amount) + " due " + Stringify(l.due)
  }

  /** `- Credit ${ref} — ${money(amt)} dated ${date}`. */
  function CreditLine(l: Line): string {
    "- Credit " + OrEmpty(l.invoice) + " \U{2014} " + Money(l.amount) + " dated " + Stringify(l.due)
  }

  /** One text line per positive line, in file order. */
  function OverdueLines(cl: seq<Line>): seq<string> {
    Select(cl, IsOverdue, OverdueLine)
  }

  /** One text line per negative line, in file order. */
  function CreditLines(cl: seq<Line>): seq<string> {
    Select(cl, IsCredit, CreditLine)
  }

  function TotalOverdue(cl: seq<Line>): real {
    Sum(Select(cl, IsOverdue, LineAmount))
  }

  function TotalCredits(cl: seq<Line>): real {
    Sum(Select(cl, IsCredit, CreditAmount))
  }

  /** `totalOverdue - totalCredits`. */
  function NetPayable(cl: seq<Line>): real {
    TotalOverdue(cl) - TotalCredits(cl)
  }

  /** The text for `{{InvoiceLines}}`: the overdue lines one per line, or
      "(none)" when that is empty. */
  function InvoiceLinesText(cl: seq<Line>): string {
    var j := Join(OverdueLines(cl), "\n");
    if j == "" then "(none)" else j
  }

  /** The text for `{{CreditsSection}}`: nothing without credit lines,
      otherwise the indented credit block with the credit total and the net
      amount due. */
  function CreditsSection(cl: seq<Line>): string {
    if |CreditLines(cl)| > 0 then
      "\n    Unapplied credits (available to offset):\n    " + Join(CreditLines(cl), "\n")
      + "\n    \n    Total credits: " + Money(TotalCredits(cl))
      + "\n\n    Net amount now due: " + Money(NetPayable(cl)) + "\n    \n    "
    else ""
  }

  /** `custRows.find(r => email(r))`: the first line with a non-blank e-mail. */
  function FirstWithEmail(cl: seq<Line>): Option<Line> {
    if cl == [] then None
    else if cl[0].email != "" then Some(cl[0])
    else FirstWithEmail(cl[1..])
  }

  /** `((first && pick(first, map, "email")) || "").toString().trim()`. */
  function Contact(cl: seq<Line>): string {
    match FirstWithEmail(cl)
    case None => ""
    case Some(l) => if Truthy(l.emailCell) then TextOf(l.emailCell) else ""
  }

  function Subject(name: string): string {
    "Paramount Liquor Overdue Invoices - " + name
  }

  /** The four placeholders filled in turn, each in the text the previous
      replacements produced. */
  function Body(template: string, name: string, cl: seq<Line>): string {
    FillTotals(ReplaceAll(template, CustomerSlot, name), cl)
  }

  /** The three replacements after the customer's name. */
  function FillTotals(t: string, cl: seq<Line>): string {
    var t2 := ReplaceAll(t, InvoiceLinesSlot, InvoiceLinesText(cl));
    var t3 := ReplaceAll(t2, TotalOverdueSlot, Money(TotalOverdue(cl)));
    ReplaceAll(t3, CreditsSlot, CreditsSection(cl))
  }

  datatype Draft = Draft(contact: string, subject: string, body: string)

  /** `generateEmail(customerName)` over the lines of the whole file. */
  function GenerateEmail(ls: seq<Line>, name: string, key: string, custom: string): Draft {
    var cl := CustomerLines(ls, name);
    Draft(Contact(cl), Subject(name), Body(ChooseTemplate(key, custom), name, cl))
  }

  // ----------------------------------------------------------- properties

  /** The net amount due is the plain sum of the customer's amounts: the
      credits are subtracted by magnitude, the overdue lines added. */
  lemma {:induction false} NetIsTotal(cl: seq<Line>)
    ensures NetPayable(cl) == Total(cl)
    ensures TotalOverdue(cl) >= 0.0 && TotalCredits(cl) >= 0.0
  {
    if cl != [] {
      var front := cl[..|cl| - 1];
      var l := cl[|cl| - 1];
      NetIsTotal(front);
      var po := if IsOverdue(l) then [LineAmount(l)] else [];
      var pc := if IsCredit(l) then [CreditAmount(l)] else [];
      SumAppend(Select(front, IsOverdue, LineAmount), po);
      SumAppend(Select(front, IsCredit, CreditAmount), pc);
      assert Sum(po) == if IsOverdue(l) then l.amount else 0.0 by {
        if IsOverdue(l) { assert po[..0] == []; }
      }
      assert Sum(pc) == if IsCredit(l) then -l.amount else 0.0 by {
        if IsCredit(l) { assert pc[..0] == []; }
      }
    }
  }

  /** There are credit lines exactly when some line of the customer is negative. */
  lemma CreditLinesIff(cl: seq<Line>)
    ensures |CreditLines(cl)| > 0 <==> exists i :: 0 <= i < |cl| && cl[i].amount < 0.0
  {
    var idx := SelectIndices(cl, IsCredit, CreditLine);
    if |idx| > 0 {
      assert IsCredit(cl[idx[0]]);
    }
  }

  /** The credits section is left out exactly when the customer has no
      negative line. */
  lemma CreditsSectionEmptyIff(cl: seq<Line>)
    ensures CreditsSection(cl) == "" <==> forall i :: 0 <= i < |cl| ==> cl[i].amount >= 0.0
  {
    CreditLinesIff(cl);
  }

  /** "(none)" stands in for the invoice lines exactly when the customer has
      no positive line. */
  lemma InvoiceLinesNoneIff(cl: seq<Line>)
    ensures InvoiceLinesText(cl) == "(none)" <==> forall i :: 0 <= i < |cl| ==> cl[i].amount <= 0.0
  {
    var idx := SelectIndices(cl, IsOverdue, OverdueLine);
    var parts := OverdueLines(cl);
    if |idx| > 0 {
      assert IsOverdue(cl[idx[0]]);
      var first := OverdueLine(cl[idx[0]]);
      assert parts[0] == first;
      assert first[0] == '-';
      JoinStartsWith(parts, "\n");
      var j := Join(parts, "\n");
      assert j[0] == first[0];
      assert j != "(none)";
    }
  }

  /** A line is consistent when its e-mail is its e-mail cell as text, as it
      is for every line read from a row. */
  predicate Consistent(l: Line) {
    l.email == TextOf(l.emailCell)
  }

  lemma LinesConsistent(rows: seq<Row>, m: Mapping, name: string)
    ensures forall l :: l in CustomerLines(Lines(rows, m), name) ==> Consistent(l)
  {
    CustomerLinesMembers(Lines(rows, m), name);
  }

  /** Position `i` holds the first line with a non-blank e-mail. */
  predicate FirstEmailAt(cl: seq<Line>, i: int) {
    0 <= i < |cl| && cl[i].email != "" && forall j :: 0 <= j < i ==> cl[j].email == ""
  }

  lemma FirstEmailUnique(cl: seq<Line>, i: int, j: int)
    requires FirstEmailAt(cl, i) && FirstEmailAt(cl, j)
    ensures i == j
  {
  }

  lemma {:induction false} FirstWithEmailFacts(cl: seq<Line>)
    ensures FirstWithEmail(cl).None? <==> forall i :: 0 <= i < |cl| ==> cl[i].email == ""
    ensures FirstWithEmail(cl).Some? ==> exists i :: FirstEmailAt(cl, i) && cl[i] == FirstWithEmail(cl).value
  {
    if cl != [] && cl[0].email == "" {
      FirstWithEmailFacts(cl[1..]);
      if FirstWithEmail(cl[1..]).Some? {
        var i :| FirstEmailAt(cl[1..], i) && cl[1..][i] == FirstWithEmail(cl).value;
        assert FirstEmailAt(cl, i + 1);
      } else {
        forall i | 0 <= i < |cl| ensures cl[i].email == "" {
          if i > 0 { assert cl[i] == cl[1..][i - 1]; }
        }
      }
    } else if cl != [] {
      assert FirstEmailAt(cl, 0);
    }
  }

  /** The contact is the e-mail of the customer's first line that has one,
      except that a falsy cell there (`false`, `0`) gives no contact; with
      no e-mail on any line there is no contact. */
  lemma ContactFacts(cl: seq<Line>)
    requires forall l :: l in cl ==> Consistent(l)
    ensures (forall i :: 0 <= i < |cl| ==> cl[i].email == "") ==> Contact(cl) == ""
    ensures forall i :: FirstEmailAt(cl, i) ==>
      Contact(cl) == if Truthy(cl[i].emailCell) then cl[i].email else ""
    ensures Contact(cl) != "" ==> exists i :: FirstEmailAt(cl, i) && Contact(cl) == cl[i].email
  {
    FirstWithEmailFacts(cl);
    if FirstWithEmail(cl).Some? {
      var i :| FirstEmailAt(cl, i) && cl[i] == FirstWithEmail(cl).value;
      assert cl[i] in cl;
      forall i' | FirstEmailAt(cl, i') ensures i' == i {
        FirstEmailUnique(cl, i, i');
      }
    }
  }

  /** The template key decides nothing but the body, and the subject always
      ends with the customer's name. */
  lemma DraftFacts(ls: seq<Line>, name: string, key1: string, custom1: string, key2: string, custom2: string)
    ensures GenerateEmail(ls, name, key1, custom1).contact == GenerateEmail(ls, name, key2, custom2).contact
    ensures GenerateEmail(ls, name, key1, custom1).subject == GenerateEmail(ls, name, key2, custom2).subject
    ensures var s := GenerateEmail(ls, name, key1, custom1).subject;
      |s| >= |name| && s[|s| - |name|..] == name
  {
  }

  predicate NoBrace(s: string) {
    forall k :: 0 <= k < |s| ==> s[k] != '{'
  }

  /** Text free of '{' in front passes the last three replacements intact. */
  lemma FillTotalsKeepsPrefix(g: string, r: string, cl: seq<Line>)
    requires NoBrace(g)
    ensures FillTotals(g + r, cl) == g + FillTotals(r, cl)
  {
    ReplaceAllSkips(g, r, InvoiceLinesSlot, InvoiceLinesText(cl));
    var r2 := ReplaceAll(r, InvoiceLinesSlot, InvoiceLinesText(cl));
    ReplaceAllSkips(g, r2, TotalOverdueSlot, Money(TotalOverdue(cl)));
    var r3 := ReplaceAll(r2, TotalOverdueSlot, Money(TotalOverdue(cl)));
    ReplaceAllSkips(g, r3, CreditsSlot, CreditsSection(cl));
  }

  /** The greeting: text free of '{' in front of the customer slot reaches
      the body intact, followed by the name, provided the name holds no '{'
      either. */
  lemma GreetingKept(greeting: string, rest: string, name: string, cl: seq<Line>)
    requires NoBrace(greeting) && NoBrace(name)
    ensures |Body(greeting + CustomerSlot + rest, name, cl)| >= |greeting + name|
    ensures Body(greeting + CustomerSlot + rest, name, cl)[..|greeting + name|] == greeting + name
  {
    var g := greeting + name;
    var r1 := ReplaceAll(rest, CustomerSlot, name);
    NameFilled(greeting, rest, name);
    assert NoBrace(g);
    FillTotalsKeepsPrefix(g, r1, cl);
    assert (g + FillTotals(r1, cl))[..|g|] == g;
  }

  /** The first customer slot after a brace-free greeting takes the name. */
  lemma NameFilled(greeting: string, rest: string, name: string)
    requires NoBrace(greeting)
    ensures ReplaceAll(greeting + CustomerSlot + rest, CustomerSlot, name)
         == greeting + name + ReplaceAll(rest, CustomerSlot, name)
  {
    var t := CustomerSlot + rest;
    assert greeting + CustomerSlot + rest == greeting + t;
    ReplaceAllSkips(greeting, t, CustomerSlot, name);
    assert t[..|CustomerSlot|] == CustomerSlot;
    assert t[|CustomerSlot|..] == rest;
  }

  /** The body built from `template` opens with `g` and the name, when the
      template opens with `g` and the customer slot. */
  lemma OpensWith(template: string, g: string, name: string, cl: seq<Line>)
    requires |template| >= |g + CustomerSlot| && template[..|g + CustomerSlot|] == g + CustomerSlot
    requires NoBrace(g) && NoBrace(name)
    ensures |Body(template, name, cl)| >= |g + name|
    ensures Body(template, name, cl)[..|g + name|] == g + name
  {
    var rest := template[|g + CustomerSlot|..];
    assert template == g + CustomerSlot + rest;
    GreetingKept(g, rest, name, cl);
  }

  lemma FirmOpens()
    ensures |FirmTemplate| >= |"Hello " + CustomerSlot| && FirmTemplate[..|"Hello " + CustomerSlot|] == "Hello " + CustomerSlot
  {
  }

  lemma FinalNoticeOpens()
    ensures |FinalNoticeTemplate| >= |"FINAL NOTICE \U{2013} " + CustomerSlot| && FinalNoticeTemplate[..|"FINAL NOTICE \U{2013} " + CustomerSlot|] == "FINAL NOTICE \U{2013} " + CustomerSlot
  {
  }

  lemma FriendlyOpens()
    ensures |FriendlyTemplate| >= |"Dear " + CustomerSlot| && FriendlyTemplate[..|"Dear " + CustomerSlot|] == "Dear " + CustomerSlot
  {
  }

  /** Each named template opens with its greeting and the customer's name. */
  lemma TemplateGreetings(ls: seq<Line>, name: string, key: string, custom: string)
    requires key != "Custom"
    requires NoBrace(name)
    ensures var b := GenerateEmail(ls, name, key, custom).body;
      var g := if key == "Firm" then "Hello " else if key == "Final Notice" then "FINAL NOTICE \U{2013} " else "Dear ";
      |b| >= |g + name| && b[..|g + name|] == g + name
  {
    var cl := CustomerLines(ls, name);
    if key == "Firm" {
      FirmOpens();
      OpensWith(FirmTemplate, "Hello ", name, cl);
    } else if key == "Final Notice" {
      FinalNoticeOpens();
      OpensWith(FinalNoticeTemplate, "FINAL NOTICE \U{2013} ", name, cl);
    } else {
      FriendlyOpens();
      OpensWith(FriendlyTemplate, "Dear ", name, cl);
    }
  }
}
