/** Invoice rows and the two-tier field lookup `pick` (src/App.js): the five
    logical fields, their canonical `__` keys, and a column mapping from
    fields to header names. */
module Records {
  import opened Strings
  import opened Cells
  import opened Normalizer
  import opened Seqs

  datatype Field = Customer | Email | Invoice | Amount | DueDate

  const AllFields: seq<Field> := [Customer, Email, Invoice, Amount, DueDate]

  /** The canonical key under which ingestion stores a field (the `K` table). */
  function CanonKey(f: Field): (k: string)
    ensures |k| > 2 && k[..2] == "__"
  {
    match f
    case Customer => "__customer"
    case Email => "__email"
    case Invoice => "__invoice"
    case Amount => "__amount"
    case DueDate => "__dueDate"
  }

  /** A column mapping: the header chosen for each field, "" for none. */
  datatype Mapping = Mapping(customer: string, email: string, invoice: string, amount: string, dueDate: string)
  {
    function Header(f: Field): string {
      match f
      case Customer => customer
      case Email => email
      case Invoice => invoice
      case Amount => amount
      case DueDate => dueDate
    }
  }

  /** `pick(row, map, key)`: the canonical key wins when the row has it (even
      holding `undefined`); otherwise a non-empty mapped header the row has;
      otherwise `undefined`. */
  function Pick(r: Row, m: Mapping, f: Field): (v: Cell)
    ensures CanonKey(f) in r ==> v == r[CanonKey(f)]
    ensures CanonKey(f) !in r && m.Header(f) != "" && m.Header(f) in r ==> v == r[m.Header(f)]
    ensures CanonKey(f) !in r && (m.Header(f) == "" || m.Header(f) !in r) ==> v == Undefined
  {
    if CanonKey(f) in r then r[CanonKey(f)]
    else if m.Header(f) != "" && m.Header(f) in r then r[m.Header(f)]
    else Undefined
  }

  /** A row as ingestion stores it: exactly the five canonical keys. */
  predicate IsCanonical(r: Row) {
    forall f :: CanonKey(f) in r
  }

  /** On a canonical row the mapping in force is irrelevant. */
  lemma PickIgnoresMapping(r: Row, m1: Mapping, m2: Mapping, f: Field)
    requires IsCanonical(r)
    ensures Pick(r, m1, f) == Pick(r, m2, f)
  {
    assert CanonKey(f) in r;
  }

  // Views of a row through a mapping, as the dashboard and the e-mails read it.

  /** `(pick(r, map, "customer") ?? "").toString().trim()`. */
  function NameOf(r: Row, m: Mapping): string {
    TextOf(Pick(r, m, Customer))
  }

  /** `(pick(r, map, "email") ?? "").toString().trim()`. */
  function EmailOf(r: Row, m: Mapping): string {
    TextOf(Pick(r, m, Email))
  }

  /** `cleanNumber(pick(r, map, "amount"))`. */
  function AmountOf(r: Row, m: Mapping): real {
    CleanNumber(Pick(r, m, Amount))
  }

  /** `pick(r, map, "dueDate") ?? ""`. */
  function DueOf(r: Row, m: Mapping): Cell {
    Coalesce(Pick(r, m, DueDate))
  }

  /** `daysOverdue(pick(r, map, "dueDate") ?? "")` at the instant of `clock`. */
  function DaysOf(r: Row, m: Mapping, clock: Clock): int {
    DaysOverdue(DueOf(r, m), clock)
  }

  /** A row as the dashboard and the e-mails read it through a mapping: the
      trimmed name and e-mail, the raw e-mail and invoice cells, the amount,
      and the due date with `?? ""` applied. */
  datatype Line = Line(name: string, email: string, emailCell: Cell, invoice: Cell, amount: real, due: Cell)

  function View(r: Row, m: Mapping): Line {
    Line(NameOf(r, m), EmailOf(r, m), Pick(r, m, Email), Pick(r, m, Invoice), AmountOf(r, m), DueOf(r, m))
  }

  /** Every row read through the mapping, in file order. */
  function Lines(rows: seq<Row>, m: Mapping): (ls: seq<Line>)
    ensures |ls| == |rows|
  {
    seq(|rows|, i requires 0 <= i < |rows| => View(rows[i], m))
  }

  lemma LinesPrefix(rows: seq<Row>, m: Mapping, k: nat)
    requires k < |rows|
    ensures Lines(rows[..k + 1], m) == Lines(rows[..k], m) + [View(rows[k], m)]
  {
  }

  /** The sum of the amounts of `ls`, added in file order. */
  function Total(ls: seq<Line>): real {
    if ls == [] then 0.0 else Total(ls[..|ls| - 1]) + ls[|ls| - 1].amount
  }

  /** The lines of one customer, in file order: `rows.filter(r => name(r) === n)`. */
  function CustomerLines(ls: seq<Line>, name: string): seq<Line> {
    Select(ls, (l: Line) => l.name == name, (l: Line) => l)
  }

  lemma CustomerLinesSnoc(ls: seq<Line>, l: Line, name: string)
    ensures CustomerLines(ls + [l], name)
         == CustomerLines(ls, name) + (if l.name == name then [l] else [])
  {
    assert (ls + [l])[..|ls|] == ls;
  }

  /** The filter keeps exactly the lines carrying the name, in file order. */
  lemma CustomerLinesMembers(ls: seq<Line>, name: string)
    ensures |CustomerLines(ls, name)| <= |ls|
    ensures forall l :: l in CustomerLines(ls, name) <==> l in ls && l.name == name
  {
    var idx := SelectIndices(ls, (l: Line) => l.name == name, (l: Line) => l);
    var cr := CustomerLines(ls, name);
    forall l | l in ls && l.name == name ensures l in cr {
      var i :| 0 <= i < |ls| && ls[i] == l;
      var k :| 0 <= k < |idx| && idx[k] == i;
    }
    IndicesBound(idx, |ls|);
  }

  /** A strictly increasing list of indices below `n` has at most `n` entries. */
  lemma {:induction false} IndicesBound(idx: seq<nat>, n: nat)
    requires forall a, b :: 0 <= a < b < |idx| ==> idx[a] < idx[b]
    requires forall k :: 0 <= k < |idx| ==> idx[k] < n
    ensures |idx| <= n
  {
    if idx != [] {
      var last := idx[|idx| - 1];
      IndicesBound(idx[..|idx| - 1], last);
    }
  }
}
