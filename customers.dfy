/** The customer list and the "emailable" filter of src/App.js: the distinct
    non-blank names in order of first appearance, each customer's total of
    positive amounts, and the customers with something to chase. */
module Customers {
  import opened Cells
  import opened Records
  import opened Seqs

  /** `set.add(n)` on an insertion-ordered JavaScript `Set`, kept as the
      sequence its spread `[...set]` yields. */
  function SetAdd(names: seq<string>, n: string): (r: seq<string>)
    ensures n in r && (forall x :: x in r <==> x in names || x == n)
    ensures n in names ==> r == names
    ensures n !in names ==> r == names + [n]
  {
    if n in names then names else names + [n]
  }

  /** The names of `ls` as the `customers` memo collects them: every
      non-blank name, added in row order to the set. */
  function CustomerList(ls: seq<Line>): seq<string> {
    if ls == [] then []
    else
      var n := ls[|ls| - 1].name;
      var prev := CustomerList(ls[..|ls| - 1]);
      if n != "" then SetAdd(prev, n) else prev
  }

  /** The `customers` memo. */
  method ListCustomers(rows: seq<Row>, m: Mapping) returns (cs: seq<string>)
    ensures cs == CustomerList(Lines(rows, m))
  {
    if |rows| == 0 {
      return [];
    }
    var seen: seq<string> := [];
    for k := 0 to |rows|
      invariant seen == CustomerList(Lines(rows[..k], m))
    {
      LinesPrefix(rows, m, k);
      assert (Lines(rows[..k], m) + [View(rows[k], m)])[..k] == Lines(rows[..k], m);
      var name := NameOf(rows[k], m);
      if name != "" {
        seen := SetAdd(seen, name);
      }
    }
    assert rows[..|rows|] == rows;
    cs := seen;
  }

  /** No customer is listed twice. */
  lemma {:induction false} CustomerListDistinct(ls: seq<Line>)
    ensures forall i, j :: 0 <= i < j < |CustomerList(ls)| ==> CustomerList(ls)[i] != CustomerList(ls)[j]
  {
    if ls != [] {
      var front := ls[..|ls| - 1];
      var prev := CustomerList(front);
      CustomerListDistinct(front);
      assert forall i, j :: 0 <= i < j < |prev| ==> prev[i] != prev[j];
      var n := ls[|ls| - 1].name;
      var cs := CustomerList(ls);
      if n != "" && n !in prev {
        assert cs == prev + [n];
        forall i, j | 0 <= i < j < |cs| ensures cs[i] != cs[j] {
          if j == |prev| {
            assert cs[i] == prev[i] && cs[j] == n;
          } else {
            assert cs[i] == prev[i] && cs[j] == prev[j];
          }
        }
      } else {
        assert cs == prev;
      }
    }
  }

  /** A name is listed iff it is non-blank and some line carries it. */
  lemma {:induction false} CustomerListMembers(ls: seq<Line>, n: string)
    ensures n in CustomerList(ls) <==> n != "" && exists i :: 0 <= i < |ls| && ls[i].name == n
  {
    if ls != [] {
      var front := ls[..|ls| - 1];
      CustomerListMembers(front, n);
      if n in CustomerList(ls) && n in CustomerList(front) {
        var i :| 0 <= i < |front| && front[i].name == n;
        assert ls[i] == front[i];
      }
      if n != "" && n !in CustomerList(front) {
        assert forall i :: 0 <= i < |front| ==> front[i] == ls[i];
      }
    }
  }

  /** Customers are listed in order of first appearance: any line naming a
      later customer comes after some line naming an earlier one. */
  lemma {:induction false} CustomerListOrder(ls: seq<Line>, a: nat, b: nat, q: nat)
    requires a < b < |CustomerList(ls)|
    requires q < |ls| && ls[q].name == CustomerList(ls)[b]
    ensures exists p :: 0 <= p < q && ls[p].name == CustomerList(ls)[a]
  {
    var cs := CustomerList(ls);
    var last := |ls| - 1;
    var front := ls[..last];
    var prev := CustomerList(front);
    assert forall i :: 0 <= i < last ==> front[i] == ls[i];
    if b < |prev| {
      assert cs[a] == prev[a] && cs[b] == prev[b];
      if q < last {
        CustomerListOrder(front, a, b, q);
        var p :| 0 <= p < q && front[p].name == prev[a];
      } else {
        CustomerListMembers(front, prev[b]);
        var q' :| 0 <= q' < |front| && front[q'].name == prev[b];
        CustomerListOrder(front, a, b, q');
        var p :| 0 <= p < q' && front[p].name == prev[a];
      }
    } else {
      CustomerListMembers(front, prev[a]);
      CustomerListMembers(front, cs[b]);
      var p :| 0 <= p < |front| && front[p].name == prev[a];
    }
  }

  /** `overdueTotalFor(name)`: the reduce over all lines, adding the
      customer's positive amounts. */
  function OverdueTotal(ls: seq<Line>, name: string): real {
    if ls == [] then 0.0
    else
      var l := ls[|ls| - 1];
      var sum := OverdueTotal(ls[..|ls| - 1], name);
      if l.name != name then sum
      else if l.amount > 0.0 then sum + l.amount
      else sum
  }

  /** The overdue total is positive iff the customer has a positive line;
      it is never negative. */
  lemma {:induction false} OverdueTotalPositive(ls: seq<Line>, name: string)
    ensures OverdueTotal(ls, name) >= 0.0
    ensures OverdueTotal(ls, name) > 0.0
        <==> exists i :: 0 <= i < |ls| && ls[i].name == name && ls[i].amount > 0.0
  {
    if ls != [] {
      var front := ls[..|ls| - 1];
      OverdueTotalPositive(front, name);
      assert forall i :: 0 <= i < |front| ==> front[i] == ls[i];
    }
  }

  /** `emailableCustomers`: the listed customers whose overdue total is positive. */
  function Emailable(customers: seq<string>, ls: seq<Line>): seq<string> {
    Select(customers, n => OverdueTotal(ls, n) > 0.0, n => n)
  }

  /** A customer is emailable iff it has at least one line with a positive
      amount, whatever its credits. */
  lemma EmailableMembers(ls: seq<Line>, n: string)
    ensures n in Emailable(CustomerList(ls), ls)
        <==> n != "" && exists i :: 0 <= i < |ls| && ls[i].name == n && ls[i].amount > 0.0
  {
    var cs := CustomerList(ls);
    var idx := SelectIndices(cs, n => OverdueTotal(ls, n) > 0.0, n => n);
    CustomerListMembers(ls, n);
    OverdueTotalPositive(ls, n);
    if n in Emailable(cs, ls) {
      var k :| 0 <= k < |idx| && Emailable(cs, ls)[k] == n;
      assert cs[idx[k]] == n;
    }
    if n != "" && exists i :: 0 <= i < |ls| && ls[i].name == n && ls[i].amount > 0.0 {
      var j :| 0 <= j < |cs| && cs[j] == n;
      var k :| 0 <= k < |idx| && idx[k] == j;
    }
  }

  /** Emailable customers keep the order of the customer list. */
  lemma EmailableOrder(customers: seq<string>, ls: seq<Line>) returns (idx: seq<nat>)
    ensures |idx| == |Emailable(customers, ls)|
    ensures forall a, b :: 0 <= a < b < |idx| ==> idx[a] < idx[b]
    ensures forall k :: 0 <= k < |idx| ==> idx[k] < |customers| && Emailable(customers, ls)[k] == customers[idx[k]]
  {
    idx := SelectIndices(customers, n => OverdueTotal(ls, n) > 0.0, n => n);
  }
}
