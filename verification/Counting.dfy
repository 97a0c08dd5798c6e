/** Counting: how many elements sequences and sets of naturals have. */
module Counting {
  function Elems(s: seq<nat>): set<nat> {
    set v | v in s
  }

  lemma ElemsConcat(a: seq<nat>, b: seq<nat>)
    ensures Elems(a + b) == Elems(a) + Elems(b)
  {
  }

  lemma ElemsOfMultiset(a: seq<nat>, b: seq<nat>)
    requires multiset(a) == multiset(b)
    ensures Elems(a) == Elems(b) && |a| == |b|
  {
    forall v ensures v in a <==> v in b { assert v in multiset(a) <==> v in multiset(b); }
    assert |multiset(a)| == |multiset(b)|;
  }

  lemma {:induction false} DistinctCount(s: seq<nat>)
    requires forall k :: 0 <= k < |s| ==> s[k] !in s[..k]
    ensures |Elems(s)| == |s|
  {
    if s != [] {
      var n := |s| - 1;
      forall k | 0 <= k < n ensures s[..n][k] !in s[..n][..k] { assert s[..n][..k] == s[..k]; }
      DistinctCount(s[..n]);
      assert s == s[..n] + [s[n]];
      assert Elems(s) == Elems(s[..n]) + {s[n]};
    }
  }

  lemma {:induction false} AtMost(s: seq<nat>)
    ensures |Elems(s)| <= |s|
  {
    if s != [] {
      var n := |s| - 1;
      AtMost(s[..n]);
      assert s == s[..n] + [s[n]];
      assert Elems(s) == Elems(s[..n]) + {s[n]};
    }
  }

  lemma {:induction false} NoDuplicates(s: seq<nat>)
    requires |Elems(s)| == |s|
    ensures forall k :: 0 <= k < |s| ==> s[k] !in s[..k]
  {
    if s != [] {
      var n := |s| - 1;
      assert s == s[..n] + [s[n]];
      assert Elems(s) == Elems(s[..n]) + {s[n]};
      AtMost(s[..n]);
      NoDuplicates(s[..n]);
      forall k | 0 <= k < |s| ensures s[k] !in s[..k] {
        if k < n { assert s[..n][..k] == s[..k]; } else { assert s[n] !in Elems(s[..n]); }
      }
    }
  }

  lemma SubsetCount(a: set<nat>, b: set<nat>)
    requires a <= b
    ensures |a| <= |b| && (|a| == |b| <==> a == b)
  {
    assert b == a + (b - a);
    assert |b| == |a| + |b - a|;
    if |b - a| == 0 { assert b - a == {}; }
  }

  function Naturals(n: nat): set<nat> {
    if n == 0 then {} else Naturals(n - 1) + {n - 1}
  }

  lemma {:induction false} NaturalsAre(n: nat)
    ensures |Naturals(n)| == n && forall v: nat :: v in Naturals(n) <==> v < n
  {
    if n > 0 { NaturalsAre(n - 1); }
  }

  function Iota(n: nat): (s: seq<nat>)
    ensures |s| == n && forall i :: 0 <= i < n ==> s[i] == i
  {
    seq(n, i requires 0 <= i < n => i)
  }

  /** More than n numbers below n repeat. */
  lemma Repeated(path: seq<nat>, n: nat) returns (i: nat, j: nat)
    requires |path| > n && forall k :: 0 <= k < |path| ==> path[k] < n
    ensures i < j < |path| && path[i] == path[j]
  {
    if forall k :: 0 <= k < |path| ==> path[k] !in path[..k] {
      DistinctCount(path);
      NaturalsAre(n);
      SubsetCount(Elems(path), Naturals(n));
      assert false;
    } else {
      j :| 0 <= j < |path| && path[j] in path[..j];
      i :| 0 <= i < j && path[..j][i] == path[j];
    }
  }
}
