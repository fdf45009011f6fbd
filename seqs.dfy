module Seqs {
  /** `s.filter(keep).map(f)`, built left to right. */
  function Select<T, U>(s: seq<T>, keep: T -> bool, f: T -> U): seq<U> {
    if s == [] then []
    else Select(s[..|s| - 1], keep, f) + (if keep(s[|s| - 1]) then [f(s[|s| - 1])] else [])
  }

  lemma {:induction false} SelectAppend<T, U>(a: seq<T>, b: seq<T>, keep: T -> bool, f: T -> U)
    ensures Select(a + b, keep, f) == Select(a, keep, f) + Select(b, keep, f)
    decreases |b|
  {
    if b == [] {
      assert a + b == a;
    } else {
      var b' := b[..|b| - 1];
      assert (a + b)[..|a + b| - 1] == a + b';
      assert (a + b)[|a + b| - 1] == b[|b| - 1];
      SelectAppend(a, b', keep, f);
    }
  }

  lemma {:induction false} SelectIndices<T, U>(s: seq<T>, keep: T -> bool, f: T -> U) returns (idx: seq<nat>)
    ensures |idx| == |Select(s, keep, f)|
    ensures forall a, b :: 0 <= a < b < |idx| ==> idx[a] < idx[b]
    ensures forall k :: 0 <= k < |idx| ==>
      idx[k] < |s| && keep(s[idx[k]]) && Select(s, keep, f)[k] == f(s[idx[k]])
    ensures forall i :: 0 <= i < |s| && keep(s[i]) ==> i in idx
  {
    if s == [] {
      idx := [];
    } else {
      var n := |s| - 1;
      var front := s[..n];
      var prev := SelectIndices(front, keep, f);
      assert forall i :: 0 <= i < n ==> front[i] == s[i];
      var sel := Select(front, keep, f);
      if keep(s[n]) {
        idx := prev + [n];
        assert Select(s, keep, f) == sel + [f(s[n])];
        forall k | 0 <= k < |idx|
          ensures idx[k] < |s| && keep(s[idx[k]]) && Select(s, keep, f)[k] == f(s[idx[k]])
        {
          if k < |prev| {
            assert idx[k] == prev[k];
          }
        }
      } else {
        idx := prev;
        assert Select(s, keep, f) == sel;
      }
    }
  }

  lemma SelectCons<T, U>(a: T, s: seq<T>, keep: T -> bool, f: T -> U)
    ensures Select([a] + s, keep, f) == (if keep(a) then [f(a)] else []) + Select(s, keep, f)
  {
    SelectAppend([a], s, keep, f);
    assert [a][..0] == [];
  }

  /** The sum of a sequence of amounts, added left to right. */
  function Sum(xs: seq<real>): real {
    if xs == [] then 0.0 else Sum(xs[..|xs| - 1]) + xs[|xs| - 1]
  }

  lemma {:induction false} SumAppend(a: seq<real>, b: seq<real>)
    ensures Sum(a + b) == Sum(a) + Sum(b)
    decreases |b|
  {
    if b == [] {
      assert a + b == a;
    } else {
      var b' := b[..|b| - 1];
      assert (a + b)[..|a + b| - 1] == a + b';
      SumAppend(a, b');
    }
  }
}
