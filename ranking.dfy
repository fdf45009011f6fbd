/** The `top` ranking of the dashboard: the customers' rounded totals sorted
    by `(a, b) => b.total - a.total` with JavaScript's stable `sort`, then the
    first ten. */
module Ranking {
  datatype Entry = Entry(name: string, total: real)

  /** Each entry is at least as large as every later one. */
  predicate NonIncreasing(l: seq<Entry>) {
    forall i, j :: 0 <= i < j < |l| ==> l[i].total >= l[j].total
  }

  /** Places `x` after every entry of the sorted `l` whose total is not
      smaller, so that an entry sorted later never overtakes an equal one. */
  function Insert(l: seq<Entry>, x: Entry): seq<Entry> {
    if l == [] then [x]
    else if l[0].total >= x.total then [l[0]] + Insert(l[1..], x)
    else [x] + l
  }

  /** A stable sort into non-increasing order of total, taking the entries
      in their given order. */
  function SortDesc(s: seq<Entry>): seq<Entry> {
    if s == [] then [] else Insert(SortDesc(s[..|s| - 1]), s[|s| - 1])
  }

  function Min(a: int, b: int): int {
    if a <= b then a else b
  }

  /** `.sort(...).slice(0, 10)`. */
  function Top(entries: seq<Entry>): seq<Entry> {
    var sorted := SortDesc(entries);
    sorted[..Min(10, |sorted|)]
  }

  /** The entries of `l` whose total is `t`, in order. */
  function Ties(l: seq<Entry>, t: real): seq<Entry> {
    if l == [] then []
    else (if l[0].total == t then [l[0]] else []) + Ties(l[1..], t)
  }

  // ------------------------------------------------------------ insertion

  /** An entry no smaller than the head of a sorted list can go in front. */
  lemma ConsSorted(a: Entry, r: seq<Entry>)
    requires NonIncreasing(r) && (r == [] || a.total >= r[0].total)
    ensures NonIncreasing([a] + r)
  {
    var l := [a] + r;
    forall i, j | 0 <= i < j < |l| ensures l[i].total >= l[j].total {
      if i == 0 {
        assert l[j] == r[j - 1];
        assert r[0].total >= r[j - 1].total || j == 1;
      } else {
        assert l[i] == r[i - 1] && l[j] == r[j - 1];
      }
    }
  }

  lemma {:induction false} InsertShape(l: seq<Entry>, x: Entry)
    ensures |Insert(l, x)| == |l| + 1
    ensures Insert(l, x)[0] == x || (l != [] && Insert(l, x)[0] == l[0])
    ensures multiset(Insert(l, x)) == multiset(l) + multiset{x}
  {
    if l != [] && l[0].total >= x.total {
      InsertShape(l[1..], x);
      assert l == [l[0]] + l[1..];
    }
  }

  lemma {:induction false} InsertSorted(l: seq<Entry>, x: Entry)
    requires NonIncreasing(l)
    ensures NonIncreasing(Insert(l, x))
  {
    if l != [] && l[0].total >= x.total {
      assert NonIncreasing(l[1..]);
      InsertSorted(l[1..], x);
      InsertShape(l[1..], x);
      var rest := Insert(l[1..], x);
      if rest[0] != x {
        assert rest[0] == l[1];
      }
      ConsSorted(l[0], rest);
    } else if l != [] {
      ConsSorted(x, l);
    }
  }

  lemma {:induction false} TiesAppend(a: seq<Entry>, b: seq<Entry>, t: real)
    ensures Ties(a + b, t) == Ties(a, t) + Ties(b, t)
  {
    if a == [] {
      assert a + b == b;
    } else {
      var h := if a[0].total == t then [a[0]] else [];
      assert (a + b)[0] == a[0];
      assert (a + b)[1..] == a[1..] + b;
      assert Ties(a + b, t) == h + Ties(a[1..] + b, t);
      TiesAppend(a[1..], b, t);
      assert h + (Ties(a[1..], t) + Ties(b, t)) == (h + Ties(a[1..], t)) + Ties(b, t);
    }
  }

  /** In a sorted list, nothing ties with a total above the first one. */
  lemma {:induction false} TiesAbove(l: seq<Entry>, t: real)
    requires NonIncreasing(l) && l != [] && l[0].total < t
    ensures Ties(l, t) == []
  {
    if |l| > 1 {
      assert NonIncreasing(l[1..]);
      assert l[1..][0] == l[1];
      TiesAbove(l[1..], t);
    }
  }

  /** Insertion puts `x` after every entry that ties with it. */
  lemma {:induction false} InsertStable(l: seq<Entry>, x: Entry, t: real)
    requires NonIncreasing(l)
    ensures Ties(Insert(l, x), t) == Ties(l, t) + (if x.total == t then [x] else [])
  {
    if l == [] {
    } else if l[0].total >= x.total {
      assert NonIncreasing(l[1..]);
      InsertStable(l[1..], x, t);
      TiesAppend([l[0]], Insert(l[1..], x), t);
      assert Ties([l[0]], t) == (if l[0].total == t then [l[0]] else []) by {
        assert [l[0]][1..] == [];
      }
    } else {
      TiesAppend([x], l, t);
      assert Ties([x], t) == (if x.total == t then [x] else []) by {
        assert [x][1..] == [];
      }
      if x.total == t {
        TiesAbove(l, t);
      }
    }
  }

  // ------------------------------------------------------------ sorting

  /** The ranking is in non-increasing order of total. */
  lemma {:induction false} SortDescSorted(s: seq<Entry>)
    ensures NonIncreasing(SortDesc(s))
  {
    if s != [] {
      SortDescSorted(s[..|s| - 1]);
      InsertSorted(SortDesc(s[..|s| - 1]), s[|s| - 1]);
    }
  }

  /** The ranking holds exactly the given entries. */
  lemma {:induction false} SortDescPermutes(s: seq<Entry>)
    ensures multiset(SortDesc(s)) == multiset(s)
    ensures |SortDesc(s)| == |s|
  {
    if s != [] {
      var front := s[..|s| - 1];
      var x := s[|s| - 1];
      var sf := SortDesc(front);
      assert SortDesc(s) == Insert(sf, x);
      SortDescPermutes(front);
      InsertShape(sf, x);
      assert multiset(front + [x]) == multiset(front) + multiset{x};
      assert front + [x] == s;
    }
  }

  /** Stability: the entries with any given total keep their given order. */
  lemma {:induction false} SortDescStable(s: seq<Entry>, t: real)
    ensures Ties(SortDesc(s), t) == Ties(s, t)
  {
    if s != [] {
      var front := s[..|s| - 1];
      var x := s[|s| - 1];
      var sf := SortDesc(front);
      assert SortDesc(s) == Insert(sf, x);
      SortDescStable(front, t);
      SortDescSorted(front);
      InsertStable(sf, x, t);
      TiesAppend(front, [x], t);
      assert Ties([x], t) == (if x.total == t then [x] else []) by {
        assert [x][1..] == [];
      }
      assert front + [x] == s;
    }
  }

  /** The top ten: as many entries as there are, at most ten, the largest
      totals first, every one of them at least as large as any entry left out,
      ties in their given order. */
  lemma TopFacts(entries: seq<Entry>)
    ensures |Top(entries)| == Min(10, |entries|)
    ensures NonIncreasing(Top(entries))
    ensures forall e :: e in Top(entries) ==> e in entries
    ensures forall i, j :: 0 <= i < |Top(entries)| <= j < |SortDesc(entries)| ==>
      Top(entries)[i].total >= SortDesc(entries)[j].total
    ensures Top(entries) + SortDesc(entries)[|Top(entries)|..] == SortDesc(entries)
  {
    var sorted := SortDesc(entries);
    SortDescSorted(entries);
    SortDescPermutes(entries);
    forall e | e in Top(entries) ensures e in entries {
      assert e in sorted;
      assert e in multiset(sorted);
    }
  }
}
