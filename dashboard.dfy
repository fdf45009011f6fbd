/** The `dashboard` memo of src/App.js: the per-customer fold into the `per`
    map, the overall overdue total and e-mail count, the three aging buckets,
    and the top-ten ranking. */
module Dashboard {
  import opened Cells
  import opened Normalizer
  import opened Records
  import opened Seqs
  import opened Customers
  import opened Amounts
  import opened Ranking

  /** One customer's entry of `per`. */
  datatype Agg = Agg(total: real, count: nat, oldestDue: Cell, oldestDays: int)

  /** `daysOverdue(due)` of a line. */
  function Days(l: Line, clock: Clock): int {
    DaysOverdue(l.due, clock)
  }

  // ---------------------------------------------- the per-customer summary

  /** The largest day count among `ls` (0 for none). */
  function OldestDays(ls: seq<Line>, clock: Clock): int {
    if ls == [] then 0
    else if |ls| == 1 then Days(ls[0], clock)
    else
      var d := Days(ls[|ls| - 1], clock);
      var prev := OldestDays(ls[..|ls| - 1], clock);
      if d > prev then d else prev
  }

  /** The position of the first line of `ls` with the largest day count. */
  function OldestIndex(ls: seq<Line>, clock: Clock): nat {
    if |ls| <= 1 then 0
    else if Days(ls[|ls| - 1], clock) > OldestDays(ls[..|ls| - 1], clock) then |ls| - 1
    else OldestIndex(ls[..|ls| - 1], clock)
  }

  /** What `per` should hold for a customer with the lines `ls`. */
  function Summary(ls: seq<Line>, clock: Clock): Agg {
    var i := OldestIndex(ls, clock);
    Agg(Total(ls), |ls|, if i < |ls| then ls[i].due else Str(""), OldestDays(ls, clock))
  }

  /** The `per` map the fold builds: every listed customer, summarised. */
  function PerOf(ls: seq<Line>, clock: Clock): map<string, Agg> {
    Tabulate(CustomerList(ls), SummaryFn(ls, clock))
  }

  /** Each customer's summary, as a function of its name. */
  function SummaryFn(ls: seq<Line>, clock: Clock): string -> Agg {
    n => Summary(CustomerLines(ls, n), clock)
  }

  /** The map sending each of `names` to `f` of it. */
  function Tabulate(names: seq<string>, f: string -> Agg): map<string, Agg> {
    map n | n in names :: f(n)
  }

  /** Adding a key, or changing the value of one, is a map update. */
  lemma TabulateUpdate(names: seq<string>, f: string -> Agg, names': seq<string>, g: string -> Agg, n: string)
    requires forall k :: k in names' <==> k in names || k == n
    requires forall k :: k in names && k != n ==> g(k) == f(k)
    ensures Tabulate(names', g) == Tabulate(names, f)[n := g(n)]
  {
    var a, b := Tabulate(names', g), Tabulate(names, f)[n := g(n)];
    assert a.Keys == b.Keys;
  }

  /** The update the fold applies to a customer's entry for one more line:
      add the amount, count the line, and move the oldest due date only on a
      strictly larger day count. */
  function Step(a: Agg, l: Line, clock: Clock): Agg {
    var d := Days(l, clock);
    var cur := a.(total := a.total + l.amount, count := a.count + 1);
    if d > cur.oldestDays then cur.(oldestDays := d, oldestDue := l.due) else cur
  }

  /** The entry `per.get(name) || {…}` starts from for a new customer. */
  function Fresh(l: Line, clock: Clock): Agg {
    Agg(0.0, 0, l.due, Days(l, clock))
  }

  // --------------------------------------------- the fold, step by step

  lemma OldestSnoc(ls: seq<Line>, l: Line, clock: Clock)
    requires ls != []
    ensures OldestDays(ls + [l], clock)
         == (if Days(l, clock) > OldestDays(ls, clock) then Days(l, clock) else OldestDays(ls, clock))
    ensures OldestIndex(ls + [l], clock)
         == (if Days(l, clock) > OldestDays(ls, clock) then |ls| else OldestIndex(ls, clock))
  {
    assert (ls + [l])[..|ls|] == ls;
  }

  lemma {:induction false} OldestIndexBound(ls: seq<Line>, clock: Clock)
    ensures ls != [] ==> OldestIndex(ls, clock) < |ls|
  {
    if |ls| > 1 {
      OldestIndexBound(ls[..|ls| - 1], clock);
    }
  }

  /** A customer's first line gives the summary the fold starts from. */
  lemma SummaryFirst(l: Line, clock: Clock)
    ensures Summary([l], clock) == Step(Fresh(l, clock), l, clock)
  {
    assert [l][..0] == [];
    assert Total([l]) == l.amount;
    assert OldestIndex([l], clock) == 0;
    assert OldestDays([l], clock) == Days(l, clock);
    assert Summary([l], clock) == Agg(l.amount, 1, l.due, Days(l, clock));
    assert Step(Fresh(l, clock), l, clock) == Agg(0.0 + l.amount, 0 + 1, l.due, Days(l, clock));
  }

  /** One more line updates a summary exactly as the fold's loop body does. */
  lemma SummaryNext(ls: seq<Line>, l: Line, clock: Clock)
    requires ls != []
    ensures Summary(ls + [l], clock) == Step(Summary(ls, clock), l, clock)
  {
    var s := ls + [l];
    assert s[..|ls|] == ls;
    OldestSnoc(ls, l, clock);
    OldestIndexBound(ls, clock);
    var i := OldestIndex(ls, clock);
    assert s[i] == ls[i];
  }

  /** A listed customer has at least one line; an unlisted non-blank name has none. */
  lemma CustomerLinesPresent(ls: seq<Line>, n: string)
    ensures n in CustomerList(ls) ==> CustomerLines(ls, n) != []
    ensures n != "" && n !in CustomerList(ls) ==> CustomerLines(ls, n) == []
  {
    CustomerListMembers(ls, n);
    CustomerLinesMembers(ls, n);
    if n in CustomerList(ls) {
      var i :| 0 <= i < |ls| && ls[i].name == n;
      assert ls[i] in CustomerLines(ls, n);
    }
    if CustomerLines(ls, n) != [] {
      assert CustomerLines(ls, n)[0] in CustomerLines(ls, n);
    }
  }

  /** A line with a blank name changes nothing. */
  lemma PerSkip(ls: seq<Line>, l: Line, clock: Clock)
    requires l.name == ""
    ensures CustomerList(ls + [l]) == CustomerList(ls)
    ensures PerOf(ls + [l], clock) == PerOf(ls, clock)
  {
    assert (ls + [l])[..|ls|] == ls;
    forall n | n in CustomerList(ls) ensures CustomerLines(ls + [l], n) == CustomerLines(ls, n) {
      CustomerListMembers(ls, n);
      CustomerLinesSnoc(ls, l, n);
    }
  }

  lemma ListAdd(ls: seq<Line>, l: Line)
    requires l.name != ""
    ensures CustomerList(ls + [l]) == SetAdd(CustomerList(ls), l.name)
  {
    assert (ls + [l])[..|ls|] == ls;
  }

  /** A named line folds into its customer's entry and leaves the others alone. */
  lemma PerAdd(ls: seq<Line>, l: Line, clock: Clock)
    requires l.name != ""
    ensures PerOf(ls + [l], clock) == PerOf(ls, clock)[l.name := Step(Start(PerOf(ls, clock), l, clock), l, clock)]
  {
    var n := l.name;
    var f, g := SummaryFn(ls, clock), SummaryFn(ls + [l], clock);
    ListAdd(ls, l);
    forall k | k in CustomerList(ls) && k != n ensures g(k) == f(k) {
      OtherLine(ls, l, k, clock);
    }
    NamedLine(ls, l, clock);
    TabulateUpdate(CustomerList(ls), f, CustomerList(ls + [l]), g, n);
  }

  lemma OtherLine(ls: seq<Line>, l: Line, k: string, clock: Clock)
    requires k != l.name
    ensures Summary(CustomerLines(ls + [l], k), clock) == Summary(CustomerLines(ls, k), clock)
  {
    CustomerLinesSnoc(ls, l, k);
    assert CustomerLines(ls, k) + [] == CustomerLines(ls, k);
  }

  /** `per.get(name) || {…}`: the entry a line starts from. */
  function Start(per: map<string, Agg>, l: Line, clock: Clock): Agg {
    if l.name in per then per[l.name] else Fresh(l, clock)
  }

  lemma NamedLine(ls: seq<Line>, l: Line, clock: Clock)
    requires l.name != ""
    ensures Summary(CustomerLines(ls + [l], l.name), clock) == Step(Start(PerOf(ls, clock), l, clock), l, clock)
  {
    var n := l.name;
    var old_ := CustomerLines(ls, n);
    CustomerLinesSnoc(ls, l, n);
    CustomerLinesPresent(ls, n);
    if old_ == [] {
      assert CustomerLines(ls + [l], n) == [l];
      SummaryFirst(l, clock);
    } else {
      SummaryNext(old_, l, clock);
    }
  }

  // ------------------------------------------------------------ the fold

  /** The first loop of the memo: fold every row into `per`. `order` is the
      order in which `per` (a JavaScript `Map`) first received each key. */
  method Aggregate(rows: seq<Row>, m: Mapping, clock: Clock) returns (per: map<string, Agg>, order: seq<string>)
    ensures per == PerOf(Lines(rows, m), clock)
    ensures order == CustomerList(Lines(rows, m))
  {
    per := map[];
    order := [];
    for k := 0 to |rows|
      invariant per == PerOf(Lines(rows[..k], m), clock)
      invariant order == CustomerList(Lines(rows[..k], m))
    {
      var r := rows[k];
      LinesPrefix(rows, m, k);
      var ls := Lines(rows[..k], m);
      var name := NameOf(r, m);
      if name == "" {
        PerSkip(ls, View(r, m), clock);
        continue;
      }
      var amt := AmountOf(r, m);
      var due := DueOf(r, m);
      var d := DaysOverdue(due, clock);
      var l := View(r, m);
      assert l.name == name && l.amount == amt && l.due == due && Days(l, clock) == d;
      var cur := if name in per then per[name] else Agg(0.0, 0, due, d);
      assert cur == Start(per, l, clock);
      cur := Accumulate(cur, l, clock, amt, due, d);
      ListAdd(ls, l);
      PerAdd(ls, l, clock);
      if name !in per {
        order := order + [name];
      }
      per := per[name := cur];
    }
    assert rows[..|rows|] == rows;
  }

  /** The loop body's update of `cur` for one more line. */
  method Accumulate(start: Agg, l: Line, clock: Clock, amt: real, due: Cell, d: int) returns (cur: Agg)
    requires amt == l.amount && due == l.due && d == Days(l, clock)
    ensures cur == Step(start, l, clock)
  {
    cur := start;
    cur := cur.(total := cur.total + amt, count := cur.count + 1);
    if d > cur.oldestDays {
      cur := cur.(oldestDays := d, oldestDue := due);
    }
  }

  /** Each customer's entry: the total and count of its lines, the largest
      day count, and the due date of the first line reaching it. */
  lemma PerFacts(ls: seq<Line>, clock: Clock, n: string)
    requires n in PerOf(ls, clock)
    ensures var a := PerOf(ls, clock)[n];
      var cl := CustomerLines(ls, n);
      a.total == Total(cl) && a.count == |cl| > 0 && a.oldestDays == OldestDays(cl, clock)
      && (exists i :: (0 <= i < |cl| && a.oldestDue == cl[i].due && Days(cl[i], clock) == a.oldestDays
          && (forall j :: 0 <= j < i ==> Days(cl[j], clock) < a.oldestDays)))
      && (forall j :: 0 <= j < |cl| ==> Days(cl[j], clock) <= a.oldestDays)
  {
    var cl := CustomerLines(ls, n);
    CustomerLinesPresent(ls, n);
    OldestFacts(cl, clock);
    OldestIndexBound(cl, clock);
  }

  /** The largest day count bounds every line and is reached first at `OldestIndex`. */
  lemma {:induction false} OldestFacts(ls: seq<Line>, clock: Clock)
    requires ls != []
    ensures forall j :: 0 <= j < |ls| ==> Days(ls[j], clock) <= OldestDays(ls, clock)
    ensures OldestIndex(ls, clock) < |ls| && Days(ls[OldestIndex(ls, clock)], clock) == OldestDays(ls, clock)
    ensures forall j :: 0 <= j < OldestIndex(ls, clock) ==> Days(ls[j], clock) < OldestDays(ls, clock)
  {
    if |ls| > 1 {
      var front := ls[..|ls| - 1];
      OldestFacts(front, clock);
      assert forall j :: 0 <= j < |front| ==> front[j] == ls[j];
    }
  }

  /** The total of a customer's lines is the sum of its line amounts. */
  lemma {:induction false} TotalIsSum(ls: seq<Line>)
    ensures Total(ls) == Sum(Select(ls, (l: Line) => true, (l: Line) => l.amount))
  {
    if ls != [] {
      TotalIsSum(ls[..|ls| - 1]);
    }
  }

  // ------------------------------------------- totals, buckets and ranking

  /** `Math.max(0, agg.total)` of a customer's entry, 0 when it has none. */
  function Clamped(per: map<string, Agg>, n: string): (r: real)
    ensures r >= 0.0
  {
    if n in per then Max0(per[n].total) else 0.0
  }

  /** The clamped totals of `names`, added up in order. */
  function ClampedSum(names: seq<string>, per: map<string, Agg>): (r: real)
    ensures r >= 0.0
  {
    if names == [] then 0.0 else ClampedSum(names[..|names| - 1], per) + Clamped(per, names[|names| - 1])
  }

  /** Some line of customer `n` has a non-blank e-mail (`rows.some(...)`). */
  predicate HasEmail(ls: seq<Line>, n: string) {
    exists i :: 0 <= i < |ls| && ls[i].name == n && ls[i].email != ""
  }

  /** How many of `names` have an e-mail address on some line. */
  function CountWithEmail(names: seq<string>, ls: seq<Line>): (r: nat)
    ensures r <= |names|
  {
    if names == [] then 0
    else CountWithEmail(names[..|names| - 1], ls) + (if HasEmail(ls, names[|names| - 1]) then 1 else 0)
  }

  /** The second loop of the memo: `totalOverdueAll` and `withEmail`. */
  method Totals(rows: seq<Row>, m: Mapping, customers: seq<string>, per: map<string, Agg>)
    returns (totalAll: real, withEmail: nat)
    ensures totalAll == ClampedSum(customers, per)
    ensures withEmail == CountWithEmail(customers, Lines(rows, m))
  {
    totalAll, withEmail := 0.0, 0;
    var ls := Lines(rows, m);
    for k := 0 to |customers|
      invariant totalAll == ClampedSum(customers[..k], per)
      invariant withEmail == CountWithEmail(customers[..k], ls)
    {
      assert customers[..k + 1][..k] == customers[..k];
      var name := customers[k];
      if name in per {
        totalAll := totalAll + Max0(per[name].total);
      }
      var hasEmail := HasEmail(ls, name);
      if hasEmail {
        withEmail := withEmail + 1;
      }
    }
    assert customers[..|customers|] == customers;
  }

  const Young := "0\U{2013}30"
  const Middle := "31\U{2013}60"
  const Old := "61+"

  /** The aging bucket of a customer's largest day count. */
  function BucketOf(days: int): string {
    if days <= 30 then Young else if days <= 60 then Middle else Old
  }

  /** The clamped totals of those of `names` whose entry falls in `bucket`. */
  function BucketSum(names: seq<string>, per: map<string, Agg>, bucket: string): (r: real)
    ensures r >= 0.0
  {
    if names == [] then 0.0
    else
      var n := names[|names| - 1];
      BucketSum(names[..|names| - 1], per, bucket)
      + (if n in per && BucketOf(per[n].oldestDays) == bucket then Max0(per[n].total) else 0.0)
  }

  /** The third loop of the memo: it visits the entries of `per` in the
      order they were added. */
  method Buckets(order: seq<string>, per: map<string, Agg>) returns (young: real, middle: real, aged: real)
    requires forall n :: n in order ==> n in per
    ensures young == BucketSum(order, per, Young)
    ensures middle == BucketSum(order, per, Middle)
    ensures aged == BucketSum(order, per, Old)
  {
    young, middle, aged := 0.0, 0.0, 0.0;
    for k := 0 to |order|
      invariant young == BucketSum(order[..k], per, Young)
      invariant middle == BucketSum(order[..k], per, Middle)
      invariant aged == BucketSum(order[..k], per, Old)
    {
      assert order[..k + 1][..k] == order[..k];
      var agg := per[order[k]];
      var d := agg.oldestDays;
      if d <= 30 {
        young := young + Max0(agg.total);
      } else if d <= 60 {
        middle := middle + Max0(agg.total);
      } else {
        aged := aged + Max0(agg.total);
      }
    }
    assert order[..|order|] == order;
  }

  /** Every customer lands in exactly one bucket, so the buckets add up to
      the overall clamped total. */
  lemma {:induction false} BucketsAddUp(names: seq<string>, per: map<string, Agg>)
    ensures BucketSum(names, per, Young) + BucketSum(names, per, Middle) + BucketSum(names, per, Old)
         == ClampedSum(names, per)
  {
    if names != [] {
      BucketsAddUp(names[..|names| - 1], per);
    }
  }

  /** A pie slice: a bucket and its rounded sum. */
  datatype Slice = Slice(name: string, value: real)

  /** The ranking's input: each entry of `per`, its clamped total rounded to cents. */
  function Entries(order: seq<string>, per: map<string, Agg>): (es: seq<Entry>)
    ensures |es| == |order|
  {
    seq(|order|, i requires 0 <= i < |order| => Entry(order[i], RoundCents(Clamped(per, order[i]))))
  }

  /** What the memo returns. */
  datatype DashboardData = DashboardData(
    customers: nat, withEmail: nat, selected: nat, totalOverdueAll: real,
    pie: seq<Slice>, top: seq<Entry>)

  /** The `dashboard` memo; `selected` is the size of the selection it reports. */
  method ComputeDashboard(rows: seq<Row>, m: Mapping, clock: Clock, selected: nat) returns (d: DashboardData)
    ensures d.customers == |CustomerList(Lines(rows, m))|
    ensures d.withEmail == CountWithEmail(CustomerList(Lines(rows, m)), Lines(rows, m))
    ensures d.selected == selected
    ensures d.totalOverdueAll == RoundCents(ClampedSum(CustomerList(Lines(rows, m)), PerOf(Lines(rows, m), clock)))
    ensures d.pie == PieOf(CustomerList(Lines(rows, m)), PerOf(Lines(rows, m), clock))
    ensures d.top == Top(Entries(CustomerList(Lines(rows, m)), PerOf(Lines(rows, m), clock)))
  {
    var customers := ListCustomers(rows, m);
    var per, order := Aggregate(rows, m, clock);
    var totalAll, withEmail := Totals(rows, m, customers, per);
    var young, middle, aged := Buckets(order, per);
    var pie := [Slice(Young, RoundCents(young)), Slice(Middle, RoundCents(middle)), Slice(Old, RoundCents(aged))];
    var top := Top(Entries(order, per));
    d := DashboardData(|customers|, withEmail, selected, RoundCents(totalAll), pie, top);
  }

  /** The pie: the three buckets in order, each rounded to cents. */
  function PieOf(names: seq<string>, per: map<string, Agg>): seq<Slice> {
    [Slice(Young, RoundCents(BucketSum(names, per, Young))),
     Slice(Middle, RoundCents(BucketSum(names, per, Middle))),
     Slice(Old, RoundCents(BucketSum(names, per, Old)))]
  }

  /** The dashboard's figures agree: before rounding, the pie adds up to the
      overall overdue total, and the ranking lists min(10, customers) of them
      in non-increasing order, equal totals in order of first appearance. */
  lemma DashboardFacts(ls: seq<Line>, clock: Clock)
    ensures var cs := CustomerList(ls);
      var per := PerOf(ls, clock);
      BucketSum(cs, per, Young) + BucketSum(cs, per, Middle) + BucketSum(cs, per, Old) == ClampedSum(cs, per)
    ensures |Top(Entries(CustomerList(ls), PerOf(ls, clock)))| == Min(10, |CustomerList(ls)|)
    ensures NonIncreasing(Top(Entries(CustomerList(ls), PerOf(ls, clock))))
    ensures forall t :: Ties(SortDesc(Entries(CustomerList(ls), PerOf(ls, clock))), t)
                     == Ties(Entries(CustomerList(ls), PerOf(ls, clock)), t)
  {
    var cs := CustomerList(ls);
    var per := PerOf(ls, clock);
    BucketsAddUp(cs, per);
    TopFacts(Entries(cs, per));
    forall t ensures Ties(SortDesc(Entries(cs, per)), t) == Ties(Entries(cs, per), t) {
      SortDescStable(Entries(cs, per), t);
    }
  }
}
