/** Sorting tokens by expert in Triton-distributed/tutorials/04-deepseek-infer-all2all.py: a
    stable argsort, its inverse by a second argsort, and a scattered store. */
module ExpertGather {
  import opened AllToAll
  import opened DivMod
  import Counting
  import TileMap

  // ----- Stable argsort -----

  /** The order that a stable sort by key puts positions in. */
  predicate Before(keys: seq<nat>, i: nat, j: nat)
    requires i < |keys| && j < |keys|
  {
    keys[i] < keys[j] || (keys[i] == keys[j] && i < j)
  }

  ghost predicate Ordered(keys: seq<nat>, s: seq<nat>) {
    && (forall a :: 0 <= a < |s| ==> s[a] < |keys|)
    && forall a, b :: 0 <= a < b < |s| ==> Before(keys, s[a], s[b])
  }

  /** What `argsort(stable=True)` returns: all positions, in stable order of their keys. */
  ghost predicate IsStableArgsort(keys: seq<nat>, s: seq<nat>) {
    Ordered(keys, s) && forall i: nat :: i < |keys| ==> i in s
  }

  ghost predicate SameElements(a: seq<nat>, b: seq<nat>) {
    forall x: nat :: x in a <==> x in b
  }

  /** The last of an order is the last of its elements. */
  lemma LastIsLast(keys: seq<nat>, a: seq<nat>, x: nat)
    requires Ordered(keys, a) && x in a
    ensures a != [] && x < |keys| && (x == a[|a| - 1] || Before(keys, x, a[|a| - 1]))
  {
    var i :| 0 <= i < |a| && a[i] == x;
    assert i < |a| - 1 ==> Before(keys, a[i], a[|a| - 1]);
  }

  lemma SameInit(keys: seq<nat>, a: seq<nat>, b: seq<nat>)
    requires Ordered(keys, a) && Ordered(keys, b) && SameElements(a, b) && a != [] && b != []
    requires a[|a| - 1] == b[|b| - 1]
    ensures SameElements(a[..|a| - 1], b[..|b| - 1])
  {
    var ai, bi := a[..|a| - 1], b[..|b| - 1];
    forall x: nat ensures x in ai <==> x in bi {
      InInit(keys, a, x);
      InInit(keys, b, x);
    }
  }

  /** There is only one such order. */
  lemma {:induction false} OrderIsUnique(keys: seq<nat>, a: seq<nat>, b: seq<nat>)
    requires Ordered(keys, a) && Ordered(keys, b) && SameElements(a, b)
    ensures a == b
    decreases |a|
  {
    assert b != [] ==> b[0] in b;
    if a != [] {
      var n, m := |a| - 1, |b| - 1;
      assert a[n] in b && b[m] in a;
      LastIsLast(keys, b, a[n]);
      LastIsLast(keys, a, b[m]);
      SameInit(keys, a, b);
      OrderIsUnique(keys, a[..n], b[..m]);
      hide Ordered, SameElements;
      assert a == a[..n] + [a[n]] && b == b[..m] + [b[m]];
    }
  }

  lemma InInit(keys: seq<nat>, a: seq<nat>, x: nat)
    requires Ordered(keys, a) && a != []
    ensures x in a[..|a| - 1] <==> x in a && x != a[|a| - 1]
  {
    var n := |a| - 1;
    forall i | 0 <= i < n ensures a[i] != a[n] { assert Before(keys, a[i], a[n]); }
    assert a == a[..n] + [a[n]];
  }

  // ----- The reference: expert by expert -----

  /** The positions below `n` that chose expert `e`, in increasing order. */
  function OffsetsOf(keys: seq<nat>, e: nat, n: nat): (s: seq<nat>)
    requires n <= |keys|
    ensures forall a :: 0 <= a < |s| ==> s[a] < n
  {
    if n == 0 then [] else OffsetsOf(keys, e, n - 1) + if keys[n - 1] == e then [n - 1] else []
  }

  lemma {:induction false} OffsetsOfAre(keys: seq<nat>, e: nat, n: nat)
    requires n <= |keys|
    ensures forall x: nat :: x in OffsetsOf(keys, e, n) <==> x < n && keys[x] == e
    ensures forall a, b :: 0 <= a < b < |OffsetsOf(keys, e, n)| ==> OffsetsOf(keys, e, n)[a] < OffsetsOf(keys, e, n)[b]
    ensures forall a :: 0 <= a < |OffsetsOf(keys, e, n)| ==> keys[OffsetsOf(keys, e, n)[a]] == e
  {
    if n > 0 { OffsetsOfAre(keys, e, n - 1); }
  }

  /** `bincount`, for the first `g` experts. */
  function Bincount(keys: seq<nat>, g: nat): (c: seq<nat>)
    ensures |c| == g
  {
    if g == 0 then [] else Bincount(keys, g - 1) + [|OffsetsOf(keys, g - 1, |keys|)|]
  }

  function ByExpert(keys: seq<nat>, g: nat): seq<nat> {
    if g == 0 then [] else ByExpert(keys, g - 1) + OffsetsOf(keys, g - 1, |keys|)
  }

  lemma OrderedConcat(keys: seq<nat>, front: seq<nat>, back: seq<nat>, e: nat)
    requires Ordered(keys, front) && (forall a :: 0 <= a < |front| ==> keys[front[a]] < e)
    requires forall a :: 0 <= a < |back| ==> back[a] < |keys| && keys[back[a]] == e
    requires forall a, b :: 0 <= a < b < |back| ==> back[a] < back[b]
    ensures Ordered(keys, front + back)
  {
  }

  lemma {:induction false} ByExpertIsOrdered(keys: seq<nat>, g: nat)
    ensures Ordered(keys, ByExpert(keys, g))
    ensures forall x: nat :: x in ByExpert(keys, g) <==> x < |keys| && keys[x] < g
  {
    hide OffsetsOf, ByExpert, Ordered;
    if g == 0 {
      NobodyIsOrdered(keys);
    } else {
      ByExpertIsOrdered(keys, g - 1);
      OffsetsOfAre(keys, g - 1, |keys|);
      ByExpertNext(keys, g);
      var front, back := ByExpert(keys, g - 1), OffsetsOf(keys, g - 1, |keys|);
      forall a | 0 <= a < |front| ensures front[a] < |keys| && keys[front[a]] < g - 1 { assert front[a] in front; }
      OrderedConcat(keys, front, back, g - 1);
    }
  }

  lemma NobodyIsOrdered(keys: seq<nat>)
    ensures ByExpert(keys, 0) == [] && Ordered(keys, [])
  {
  }

  lemma ByExpertNext(keys: seq<nat>, g: nat)
    requires g > 0
    ensures ByExpert(keys, g) == ByExpert(keys, g - 1) + OffsetsOf(keys, g - 1, |keys|)
  {
  }

  /** One more expert: its count at the end of the sums, its positions at the end of the order. */
  lemma OneMoreExpert(keys: seq<nat>, g: nat)
    requires g > 0
    ensures var before, c := Cumsum(Bincount(keys, g - 1)), Cumsum(Bincount(keys, g));
      c == before + [before[g - 1] + |OffsetsOf(keys, g - 1, |keys|)|]
    ensures ByExpert(keys, g) == ByExpert(keys, g - 1) + OffsetsOf(keys, g - 1, |keys|)
  {
    assert Bincount(keys, g)[..g - 1] == Bincount(keys, g - 1);
    hide OffsetsOf;
  }

  /** Expert e's positions stand between its cumulative counts. */
  lemma {:induction false} ByExpertSlots(keys: seq<nat>, g: nat, e: nat)
    requires e < g
    ensures var c := Cumsum(Bincount(keys, g));
      c[e] <= c[e + 1] <= |ByExpert(keys, g)| == c[g] && ByExpert(keys, g)[c[e]..c[e + 1]] == OffsetsOf(keys, e, |keys|)
    decreases g
  {
    hide Cumsum, Bincount, OffsetsOf, ByExpert;
    ByExpertLength(keys, g - 1);
    OneMoreExpert(keys, g);
    if e < g - 1 { ByExpertSlots(keys, g - 1, e); }
  }

  lemma {:induction false} ByExpertLength(keys: seq<nat>, g: nat)
    ensures Cumsum(Bincount(keys, g))[g] == |ByExpert(keys, g)|
  {
    if g > 0 {
      ByExpertLength(keys, g - 1);
      OneMoreExpert(keys, g);
    }
  }

  /** Between `cumsum[e]` and `cumsum[e + 1]` a stable argsort has exactly the positions that
      chose expert e, in increasing order. */
  lemma SlotsOfExpert(keys: seq<nat>, order: seq<nat>, g: nat, e: nat)
    requires IsStableArgsort(keys, order) && (forall i :: 0 <= i < |keys| ==> keys[i] < g) && e < g
    ensures var c := Cumsum(Bincount(keys, g));
      c[e] <= c[e + 1] <= |order| && order[c[e]..c[e + 1]] == OffsetsOf(keys, e, |keys|)
  {
    ByExpertIsOrdered(keys, g);
    forall x: nat ensures x in order <==> x in ByExpert(keys, g) { }
    OrderIsUnique(keys, order, ByExpert(keys, g));
    ByExpertSlots(keys, g, e);
  }

  /** The reference is itself what a stable argsort returns, so there always is one. */
  lemma ByExpertIsArgsort(keys: seq<nat>, g: nat)
    requires forall i :: 0 <= i < |keys| ==> keys[i] < g
    ensures IsStableArgsort(keys, ByExpert(keys, g))
  {
    ByExpertIsOrdered(keys, g);
  }

  // ----- The second argsort inverts the first -----

  /** The argsort of an argsort is its inverse. */
  lemma ArgsortOfArgsort(keys: seq<nat>, order: seq<nat>, scatter: seq<nat>)
    requires IsStableArgsort(keys, order) && IsStableArgsort(order, scatter)
    ensures |scatter| == |order| == |keys|
    ensures forall i :: 0 <= i < |scatter| ==> scatter[i] < |order| && order[scatter[i]] == i
    ensures forall k :: 0 <= k < |order| ==> scatter[order[k]] == k
  {
    ArgsortLength(keys, order);
    ArgsortLength(order, scatter);
    var n := |keys|;
    var flat := seq(n, _ => 0);
    var t := seq(n, i requires 0 <= i < n => order[scatter[i]]);
    forall a, b | 0 <= a < b < n ensures Before(flat, t[a], t[b]) {
      assert Before(order, scatter[a], scatter[b]);
      Injective(keys, order, scatter[a], scatter[b]);
    }
    forall x: nat | x < n ensures x in t {
      assert x in order;
      var k: nat :| k < n && order[k] == x;
      assert k in scatter;
      var i: nat :| i < n && scatter[i] == k;
      assert t[i] == x;
    }
    forall x: nat ensures x in t <==> x in Counting.Iota(n) {
      if x < n { assert Counting.Iota(n)[x] == x; }
    }
    OrderIsUnique(flat, t, Counting.Iota(n));
    forall i | 0 <= i < n ensures order[scatter[i]] == i { assert t[i] == i; }
    forall k | 0 <= k < n ensures scatter[order[k]] == k {
      Injective(keys, order, scatter[order[k]], k);
    }
  }

  lemma Injective(keys: seq<nat>, order: seq<nat>, i: nat, j: nat)
    requires Ordered(keys, order) && i < |order| && j < |order|
    ensures order[i] == order[j] ==> i == j
  {
    if i < j { assert Before(keys, order[i], order[j]); }
    if j < i { assert Before(keys, order[j], order[i]); }
  }

  lemma {:induction false} ArgsortLength(keys: seq<nat>, order: seq<nat>)
    requires IsStableArgsort(keys, order)
    ensures |order| == |keys|
  {
    forall k | 0 <= k < |order| ensures order[k] !in order[..k] {
      forall j | 0 <= j < k ensures order[j] != order[k] { Injective(keys, order, j, k); }
    }
    Counting.DistinctCount(order);
    Counting.NaturalsAre(|keys|);
    forall x: nat ensures x in Counting.Elems(order) <==> x in Counting.Naturals(|keys|) { }
    assert Counting.Elems(order) == Counting.Naturals(|keys|);
  }

  // ----- The scattered store -----

  /** What the slots hold when the lanes of the offsets in `done` have stored. */
  ghost predicate Gathered(gather: seq<nat>, order: seq<nat>, topk: nat, rowStart: nat, done: set<nat>)
    requires topk > 0
  {
    forall k :: 0 <= k < |gather| ==>
      gather[k] == if rowStart + k < |order| && order[rowStart + k] in done then order[rowStart + k] / topk else 0
  }

  ghost predicate Inverse(order: seq<nat>, scatter: seq<nat>) {
    && |scatter| == |order|
    && (forall i :: 0 <= i < |scatter| ==> scatter[i] < |order| && order[scatter[i]] == i)
    && (forall k :: 0 <= k < |order| ==> order[k] < |scatter| && scatter[order[k]] == k)
  }

  /** One lane of the kernel in `calc_gather_index`: it stores its token to its sorted slot, if
      the slot is among the rows asked for. */
  method StoreLane(gather: array<nat>, order: seq<nat>, scatter: seq<nat>, topk: nat, rowStart: nat, rowEnd: nat,
                   offset: nat, ghost done: set<nat>)
    requires topk > 0 && Inverse(order, scatter) && rowStart + gather.Length == rowEnd
    requires Gathered(gather[..], order, topk, rowStart, done)
    modifies gather
    ensures Gathered(gather[..], order, topk, rowStart, done + {offset})
  {
    if offset < |order| && rowStart <= scatter[offset] < rowEnd {
      gather[scatter[offset] - rowStart] := offset / topk;
    }
  }

  /** The offsets of `n` lanes from `base` on. */
  function Lanes(base: nat, n: nat): set<nat> {
    if n == 0 then {} else Lanes(base, n - 1) + {base + n - 1}
  }

  lemma {:induction false} LanesAre(base: nat, n: nat)
    ensures forall i: nat :: i in Lanes(base, n) <==> base <= i < base + n
  {
    if n > 0 { LanesAre(base, n - 1); }
  }

  /** One program of the kernel: each lane stores its token. */
  method GatherBlock(gather: array<nat>, order: seq<nat>, scatter: seq<nat>, topk: nat, rowStart: nat, rowEnd: nat,
                     base: nat, blockSize: nat, ghost done: set<nat>)
    requires topk > 0 && Inverse(order, scatter) && rowStart + gather.Length == rowEnd
    requires Gathered(gather[..], order, topk, rowStart, done)
    modifies gather
    ensures Gathered(gather[..], order, topk, rowStart, done + Lanes(base, blockSize))
  {
    hide Gathered, Inverse;
    assert done + Lanes(base, 0) == done;
    for lane := 0 to blockSize
      invariant Gathered(gather[..], order, topk, rowStart, done + Lanes(base, lane))
    {
      StoreLane(gather, order, scatter, topk, rowStart, rowEnd, base + lane, done + Lanes(base, lane));
      assert done + Lanes(base, lane) + {base + lane} == done + Lanes(base, lane + 1);
    }
  }

  /** `run` names every lane of every program, as (program, lane), in the order in which the
      device happens to run them. */
  ghost predicate IsLaunch(run: seq<(nat, nat)>, programs: nat, blockSize: nat) {
    forall p: (nat, nat) :: p.0 < programs && p.1 < blockSize ==> p in run
  }

  ghost function Offsets(run: seq<(nat, nat)>, blockSize: nat): set<nat> {
    set p | p in run :: p.0 * blockSize + p.1
  }

  lemma LaunchCovers(run: seq<(nat, nat)>, n: nat, blockSize: nat, i: nat)
    requires blockSize > 0 && IsLaunch(run, (n + blockSize - 1) / blockSize, blockSize) && i < n
    ensures i in Offsets(run, blockSize)
  {
    var programs, pid, lane := (n + blockSize - 1) / blockSize, i / blockSize, i % blockSize;
    CeilCovers(n, blockSize);
    TileMap.Split(i, blockSize);
    if programs <= pid { MulMono(programs, pid, blockSize); }
    assert (pid, lane) in run;
  }

  /** `calc_gather_index`: the kernel on every program of its grid, the lanes of all programs in
      any order. */
  method CalcGatherIndex(keys: seq<nat>, topk: nat, order: seq<nat>, scatter: seq<nat>,
                         rowStart: nat, rowEnd: nat, blockSize: nat, run: seq<(nat, nat)>) returns (gather: array<nat>)
    requires IsStableArgsort(keys, order) && IsStableArgsort(order, scatter)
    requires topk > 0 && rowStart <= rowEnd && blockSize > 0
    requires IsLaunch(run, (|keys| + blockSize - 1) / blockSize, blockSize)
    ensures |order| == |keys| && fresh(gather) && gather.Length == rowEnd - rowStart
    ensures forall k :: 0 <= k < gather.Length ==>
      gather[k] == if rowStart + k < |order| then order[rowStart + k] / topk else 0
  {
    InverseOf(keys, order, scatter);
    gather := new nat[rowEnd - rowStart](_ => 0);
    NothingGathered(gather[..], order, topk, rowStart);
    assert Offsets(run[..0], blockSize) == {};
    hide IsStableArgsort, Gathered, Inverse, IsLaunch;
    for i := 0 to |run|
      invariant fresh(gather) && gather.Length == rowEnd - rowStart
      invariant Gathered(gather[..], order, topk, rowStart, Offsets(run[..i], blockSize))
    {
      var (pid, lane) := run[i];
      NextOffset(run, blockSize, i);
      StoreLane(gather, order, scatter, topk, rowStart, rowEnd, pid * blockSize + lane, Offsets(run[..i], blockSize));
    }
    assert run[..|run|] == run;
    forall i: nat | i < |keys| ensures i in Offsets(run, blockSize) { LaunchCovers(run, |keys|, blockSize, i); }
    AllGathered(keys, gather[..], order, topk, rowStart, Offsets(run, blockSize));
  }

  lemma NextOffset(run: seq<(nat, nat)>, blockSize: nat, i: nat)
    requires i < |run|
    ensures Offsets(run[..i], blockSize) + {run[i].0 * blockSize + run[i].1} == Offsets(run[..i + 1], blockSize)
  {
    assert run[..i + 1] == run[..i] + [run[i]];
  }

  lemma InverseOf(keys: seq<nat>, order: seq<nat>, scatter: seq<nat>)
    requires IsStableArgsort(keys, order) && IsStableArgsort(order, scatter)
    ensures Inverse(order, scatter) && |order| == |keys|
  {
    ArgsortOfArgsort(keys, order, scatter);
  }

  lemma NothingGathered(gather: seq<nat>, order: seq<nat>, topk: nat, rowStart: nat)
    requires topk > 0 && forall k :: 0 <= k < |gather| ==> gather[k] == 0
    ensures Gathered(gather, order, topk, rowStart, {})
  {
  }

  lemma AllGathered(keys: seq<nat>, gather: seq<nat>, order: seq<nat>, topk: nat, rowStart: nat, done: set<nat>)
    requires topk > 0 && IsStableArgsort(keys, order) && Gathered(gather, order, topk, rowStart, done)
    requires forall i: nat :: i < |keys| ==> i in done
    ensures forall k :: 0 <= k < |gather| ==>
      gather[k] == if rowStart + k < |order| then order[rowStart + k] / topk else 0
  {
  }

  /** The slots of expert e name, in increasing order, the tokens that chose it. */
  lemma GatheredTokens(keys: seq<nat>, order: seq<nat>, topk: nat, g: nat, e: nat, gather: seq<nat>, slot: nat)
    requires IsStableArgsort(keys, order) && (forall i :: 0 <= i < |keys| ==> keys[i] < g) && e < g && topk > 0
    requires |gather| == |order| && forall k :: 0 <= k < |order| ==> gather[k] == order[k] / topk
    requires Cumsum(Bincount(keys, g))[e] <= slot < Cumsum(Bincount(keys, g))[e + 1]
    ensures var c := Cumsum(Bincount(keys, g));
      var chosen := OffsetsOf(keys, e, |keys|);
      && |chosen| == c[e + 1] - c[e] && slot < |gather| && gather[slot] == chosen[slot - c[e]] / topk
      && keys[chosen[slot - c[e]]] == e
      && (slot + 1 < c[e + 1] ==> slot + 1 < |gather| && gather[slot] <= gather[slot + 1])
  {
    SlotsOfExpert(keys, order, g, e);
    OffsetsOfAre(keys, e, |keys|);
    var c := Cumsum(Bincount(keys, g));
    var chosen := OffsetsOf(keys, e, |keys|);
    hide Cumsum, Bincount, OffsetsOf, IsStableArgsort;
    assert order[c[e]..c[e + 1]][slot - c[e]] == order[slot] == chosen[slot - c[e]];
    assert gather[slot] == order[slot] / topk;
    if slot + 1 < c[e + 1] {
      assert order[c[e]..c[e + 1]][slot + 1 - c[e]] == order[slot + 1];
      TileMap.QuotientMono(order[slot], order[slot + 1], topk);
    }
  }
}
