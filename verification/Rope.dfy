/** Rope interleaving in Megakernels/megakernels/llama.py: permuting the rows of the q and k
    projections and the cos/sin tables lets the kernels rotate neighbouring elements, and no
    attention score changes.  Over exact reals. */
module Rope {
  import opened DivMod
  import opened TileMap

  // ----- The index list -----

  /** Where position `r` of a head is taken from: even positions from the first half, odd ones
      from the second. */
  function HeadIndex(half: nat, r: nat): (i: nat)
    requires r < 2 * half
    ensures i < 2 * half
  {
    if r % 2 == 0 then r / 2 else r / 2 + half
  }

  function HeadPosition(half: nat, i: nat): (r: nat)
    requires i < 2 * half
    ensures r < 2 * half
  {
    if i < half then 2 * i else 2 * (i - half) + 1
  }

  lemma HeadIndexInverse(half: nat, r: nat)
    requires r < 2 * half
    ensures HeadPosition(half, HeadIndex(half, r)) == r && HeadIndex(half, HeadPosition(half, r)) == r
  {
  }

  function Indices(heads: nat, half: nat): (s: seq<nat>)
    ensures |s| == heads * (2 * half)
  {
    if heads == 0 then []
    else
      assert heads * (2 * half) == (heads - 1) * (2 * half) + 2 * half;
      Indices(heads - 1, half) + HeadIndices(heads - 1, half, half)
  }

  /** The first `2 * n` indices of head `head`. */
  function HeadIndices(head: nat, half: nat, n: nat): (s: seq<nat>)
    requires n <= half
    ensures |s| == 2 * n
  {
    if n == 0 then []
    else HeadIndices(head, half, n - 1) + [n - 1 + head * (2 * half), n - 1 + half + head * (2 * half)]
  }

  lemma {:induction false} HeadIndicesAt(head: nat, half: nat, n: nat, r: nat)
    requires n <= half && r < 2 * n
    ensures HeadIndices(head, half, n)[r] == head * (2 * half) + HeadIndex(half, r)
  {
    if r < 2 * (n - 1) { HeadIndicesAt(head, half, n - 1, r); }
  }

  lemma {:induction false} IndicesAt(heads: nat, half: nat, head: nat, r: nat)
    requires head < heads && r < 2 * half
    ensures head * (2 * half) + r < heads * (2 * half)
    ensures Indices(heads, half)[head * (2 * half) + r] == head * (2 * half) + HeadIndex(half, r)
  {
    MulStep(head, heads, 2 * half);
    assert heads * (2 * half) == (heads - 1) * (2 * half) + 2 * half;
    if head < heads - 1 {
      IndicesAt(heads - 1, half, head, r);
    } else {
      HeadIndicesAt(head, half, half, r);
    }
  }

  /** Elements i and i + half of a head become neighbours. */
  lemma NeighbourIndices(heads: nat, half: nat, head: nat, i: nat)
    requires head < heads && i < half
    ensures head * (2 * half) + 2 * i + 1 < |Indices(heads, half)| == heads * (2 * half)
    ensures Indices(heads, half)[head * (2 * half) + 2 * i] == head * (2 * half) + i
    ensures Indices(heads, half)[head * (2 * half) + 2 * i + 1] == head * (2 * half) + half + i
  {
    hide Indices, HeadIndex;
    NeighbourHeadIndices(half, i);
    IndicesAt(heads, half, head, 2 * i);
    IndicesAt(heads, half, head, 2 * i + 1);
  }

  lemma NeighbourHeadIndices(half: nat, i: nat)
    requires i < half
    ensures HeadIndex(half, 2 * i) == i && HeadIndex(half, 2 * i + 1) == half + i
  {
  }

  function HeadOf(half: nat, p: nat): nat
    requires half > 0
  {
    Quotient(p, 2 * half)
  }

  function Quotient(n: nat, d: nat): nat
    requires d > 0
  {
    n / d
  }

  function PositionIn(half: nat, p: nat): (r: nat)
    requires half > 0
    ensures r < 2 * half
  {
    p % (2 * half)
  }

  lemma RowNumber(heads: nat, half: nat, head: nat, r: nat)
    requires r < 2 * half
    ensures HeadOf(half, Pair(head, r, 2 * half)) == head && PositionIn(half, Pair(head, r, 2 * half)) == r
    ensures Pair(head, r, 2 * half) < heads * (2 * half) <==> head < heads
  {
    Joined(head, r, 2 * half, heads);
    hide Pair;
  }

  lemma IndexSplit(heads: nat, half: nat, p: nat)
    requires p < heads * (2 * half)
    ensures half > 0
    ensures var head, r := HeadOf(half, p), PositionIn(half, p);
      && head < heads && p == Pair(head, r, 2 * half)
      && Indices(heads, half)[p] == Pair(head, HeadIndex(half, r), 2 * half) < heads * (2 * half)
  {
    assert half > 0;
    Split(p, 2 * half);
    QuotientBelow(p, 2 * half, heads);
    IndicesAt(heads, half, HeadOf(half, p), PositionIn(half, p));
    hide Indices, HeadIndex;
    RowNumber(heads, half, HeadOf(half, p), HeadIndex(half, PositionIn(half, p)));
  }

  lemma IndexHit(heads: nat, half: nat, p: nat) returns (q: nat)
    requires p < heads * (2 * half)
    ensures q < heads * (2 * half) && Indices(heads, half)[q] == p
  {
    hide Indices, HeadIndex, HeadPosition, HeadOf, PositionIn, Pair;
    IndexSplit(heads, half, p);
    var r := PositionIn(half, p);
    HeadIndexInverse(half, r);
    q := Pair(HeadOf(half, p), HeadPosition(half, r), 2 * half);
    RowNumber(heads, half, HeadOf(half, p), HeadPosition(half, r));
    IndexSplit(heads, half, q);
  }

  lemma IndexOnce(heads: nat, half: nat, q: nat, q': nat)
    requires q < heads * (2 * half) && q' < heads * (2 * half) && Indices(heads, half)[q] == Indices(heads, half)[q']
    ensures q == q'
  {
    hide Indices, HeadIndex, HeadPosition, HeadOf, PositionIn, Pair;
    IndexSplit(heads, half, q);
    IndexSplit(heads, half, q');
    var r, r' := PositionIn(half, q), PositionIn(half, q');
    RowNumber(heads, half, HeadOf(half, q), HeadIndex(half, r));
    RowNumber(heads, half, HeadOf(half, q'), HeadIndex(half, r'));
    HeadIndexInverse(half, r);
    HeadIndexInverse(half, r');
  }

  /** The list is a permutation of all row numbers that keeps every row in its head. */
  lemma IndicesPermute(heads: nat, half: nat, p: nat)
    requires p < heads * (2 * half)
    ensures var s := Indices(heads, half);
      && half > 0 && s[p] < |s| && HeadOf(half, s[p]) == HeadOf(half, p)
      && exists q: nat :: q < |s| && s[q] == p && forall q': nat :: q' < |s| && s[q'] == p ==> q' == q
  {
    hide Indices, HeadIndex, HeadPosition, HeadOf, PositionIn, Pair;
    IndexSplit(heads, half, p);
    RowNumber(heads, half, HeadOf(half, p), HeadIndex(half, PositionIn(half, p)));
    var q := IndexHit(heads, half, p);
    forall q': nat | q' < heads * (2 * half) && Indices(heads, half)[q'] == p ensures q' == q {
      IndexOnce(heads, half, q, q');
    }
  }

  /** The nested loops of `interleave_rope`. */
  method IndicesForQ(numAttentionHeads: nat, headDim: nat) returns (indices: seq<nat>)
    requires headDim % 2 == 0
    ensures indices == Indices(numAttentionHeads, headDim / 2)
  {
    indices := [];
    var halfHeadDim := headDim / 2;
    for n := 0 to numAttentionHeads
      invariant indices == Indices(n, halfHeadDim)
    {
      var offset := n * headDim;
      assert offset == n * (2 * halfHeadDim);
      var before := indices;
      for i := 0 to halfHeadDim
        invariant indices == before + HeadIndices(n, halfHeadDim, i)
      {
        indices := indices + [i + offset];
        indices := indices + [i + halfHeadDim + offset];
        assert indices == before + HeadIndices(n, halfHeadDim, i + 1);
      }
    }
  }

  // ----- Permuting rows -----

  function Permute<V>(x: seq<V>, indices: seq<nat>): (y: seq<V>)
    requires forall p :: 0 <= p < |indices| ==> indices[p] < |x|
    ensures |y| == |indices| && forall p :: 0 <= p < |indices| ==> y[p] == x[indices[p]]
  {
    seq(|indices|, p requires 0 <= p < |indices| => x[indices[p]])
  }

  /** `weight[:] = weight[indices]`. */
  method PermuteRows<V>(weight: array<V>, indices: seq<nat>)
    requires |indices| == weight.Length && forall p :: 0 <= p < |indices| ==> indices[p] < weight.Length
    modifies weight
    ensures weight[..] == Permute(old(weight[..]), indices)
  {
    var rows := weight[..];
    for p := 0 to weight.Length
      invariant rows == old(weight[..])
      invariant forall k :: 0 <= k < p ==> weight[k] == rows[indices[k]]
    {
      weight[p] := rows[indices[p]];
    }
  }

  function Head(x: seq<real>, half: nat, head: nat): (y: seq<real>)
    requires head * (2 * half) + 2 * half <= |x|
    ensures |y| == 2 * half
  {
    x[head * (2 * half)..head * (2 * half) + 2 * half]
  }

  function HeadList(half: nat): (s: seq<nat>)
    ensures |s| == 2 * half && forall r :: 0 <= r < 2 * half ==> s[r] == HeadIndex(half, r)
  {
    seq(2 * half, r requires 0 <= r < 2 * half => HeadIndex(half, r))
  }

  /** `one_head_indices` are the first head's indices, and every head is permuted by them. */
  lemma OneHeadIndices(heads: nat, half: nat)
    requires heads > 0
    ensures 2 * half <= |Indices(heads, half)| && Indices(heads, half)[..2 * half] == HeadList(half)
  {
    MulMono(1, heads, 2 * half);
    forall r | 0 <= r < 2 * half ensures Indices(heads, half)[r] == HeadIndex(half, r) { IndicesAt(heads, half, 0, r); }
  }

  /** `indices_for_k` are the first `num_key_value_heads` heads' indices. */
  lemma {:induction false} IndicesForK(heads: nat, kvHeads: nat, half: nat)
    requires kvHeads <= heads
    ensures kvHeads * (2 * half) <= |Indices(heads, half)|
    ensures Indices(heads, half)[..kvHeads * (2 * half)] == Indices(kvHeads, half)
  {
    MulMono(kvHeads, heads, 2 * half);
    if kvHeads < heads {
      assert heads * (2 * half) == (heads - 1) * (2 * half) + 2 * half;
      MulMono(kvHeads, heads - 1, 2 * half);
      IndicesForK(heads - 1, kvHeads, half);
    }
  }

  lemma IndicesBelow(heads: nat, half: nat)
    ensures forall p :: 0 <= p < |Indices(heads, half)| ==> Indices(heads, half)[p] < heads * (2 * half)
  {
    forall p | 0 <= p < |Indices(heads, half)| ensures Indices(heads, half)[p] < heads * (2 * half) {
      IndicesPermute(heads, half, p);
    }
  }

  lemma HeadAt(x: seq<real>, half: nat, head: nat, r: nat)
    requires head * (2 * half) + 2 * half <= |x| && r < 2 * half
    ensures Head(x, half, head)[r] == x[head * (2 * half) + r]
  {
  }

  lemma HeadOfPermuted(x: seq<real>, heads: nat, half: nat, head: nat)
    requires |x| == heads * (2 * half) && head < heads
    ensures head * (2 * half) + 2 * half <= |x|
    ensures forall p :: 0 <= p < |Indices(heads, half)| ==> Indices(heads, half)[p] < |x|
    ensures Head(Permute(x, Indices(heads, half)), half, head) == Permute(Head(x, half, head), HeadList(half))
  {
    hide Indices, Head, HeadIndex;
    MulStep(head, heads, 2 * half);
    IndicesBelow(heads, half);
    var y := Permute(x, Indices(heads, half));
    forall r | 0 <= r < 2 * half ensures Head(y, half, head)[r] == Permute(Head(x, half, head), HeadList(half))[r] {
      IndicesAt(heads, half, head, r);
      HeadAt(y, half, head, r);
      HeadAt(x, half, head, HeadList(half)[r]);
    }
  }

  // ----- Rotations -----

  /** `rotate_half_interleaved`. */
  function RotateHalfInterleaved(x: seq<real>): (y: seq<real>)
    requires |x| % 2 == 0
    ensures |y| == |x|
  {
    seq(|x|, p requires 0 <= p < |x| => if p % 2 == 0 then -x[p + 1] else x[p - 1])
  }

  /** The usual rotation, of one half against the other. */
  function RotateHalf(x: seq<real>): (y: seq<real>)
    requires |x| % 2 == 0
    ensures |y| == |x|
  {
    seq(|x|, p requires 0 <= p < |x| => if p < |x| / 2 then -x[p + |x| / 2] else x[p - |x| / 2])
  }

  function Times(a: real, b: real): real {
    a * b
  }

  function Embed(x: seq<real>, rotated: seq<real>, cos: seq<real>, sin: seq<real>): (y: seq<real>)
    requires |x| == |rotated| == |cos| == |sin|
    ensures |y| == |x| && forall p :: 0 <= p < |x| ==> y[p] == Times(x[p], cos[p]) + Times(rotated[p], sin[p])
  {
    seq(|x|, p requires 0 <= p < |x| => Times(x[p], cos[p]) + Times(rotated[p], sin[p]))
  }

  function RopeInterleaved(x: seq<real>, cos: seq<real>, sin: seq<real>): (y: seq<real>)
    requires |x| == |cos| == |sin| && |x| % 2 == 0
    ensures |y| == |x|
  {
    Embed(x, RotateHalfInterleaved(x), cos, sin)
  }

  function RopeHalf(x: seq<real>, cos: seq<real>, sin: seq<real>): (y: seq<real>)
    requires |x| == |cos| == |sin| && |x| % 2 == 0
    ensures |y| == |x|
  {
    Embed(x, RotateHalf(x), cos, sin)
  }

  lemma EmbedIs(x: seq<real>, rotated: seq<real>, cos: seq<real>, sin: seq<real>, p: nat)
    requires |x| == |rotated| == |cos| == |sin| && p < |x|
    ensures Embed(x, rotated, cos, sin)[p] == x[p] * cos[p] + rotated[p] * sin[p]
  {
    TimesIs(x[p], cos[p]);
    TimesIs(rotated[p], sin[p]);
    hide Times;
  }

  lemma Negated(a: real, b: real, c: real)
    ensures a + (-b) * c == a - b * c
  {
  }

  lemma RotatedPair(x: seq<real>, i: nat)
    requires |x| % 2 == 0 && 2 * i < |x|
    ensures 2 * i + 1 < |x|
    ensures RotateHalfInterleaved(x)[2 * i] == -x[2 * i + 1] && RotateHalfInterleaved(x)[2 * i + 1] == x[2 * i]
  {
  }

  lemma RotatedHalves(x: seq<real>, half: nat, i: nat)
    requires |x| == 2 * half && i < half
    ensures RotateHalf(x)[i] == -x[i + half] && RotateHalf(x)[i + half] == x[i]
  {
  }

  /** The rotation of neighbours, element by element. */
  lemma RopeInterleavedIs(x: seq<real>, cos: seq<real>, sin: seq<real>, i: nat)
    requires |x| == |cos| == |sin| && |x| % 2 == 0 && 2 * i < |x|
    ensures 2 * i + 1 < |x|
    ensures RopeInterleaved(x, cos, sin)[2 * i] == x[2 * i] * cos[2 * i] - x[2 * i + 1] * sin[2 * i]
    ensures RopeInterleaved(x, cos, sin)[2 * i + 1] == x[2 * i + 1] * cos[2 * i + 1] + x[2 * i] * sin[2 * i + 1]
  {
    hide Embed, Times, RotateHalfInterleaved;
    RotatedPair(x, i);
    EmbedIs(x, RotateHalfInterleaved(x), cos, sin, 2 * i);
    EmbedIs(x, RotateHalfInterleaved(x), cos, sin, 2 * i + 1);
    Negated(x[2 * i] * cos[2 * i], x[2 * i + 1], sin[2 * i]);
  }

  /** The rotation of halves, element by element. */
  lemma RopeHalfIs(x: seq<real>, cos: seq<real>, sin: seq<real>, half: nat, i: nat)
    requires |x| == |cos| == |sin| == 2 * half && i < half
    ensures RopeHalf(x, cos, sin)[i] == x[i] * cos[i] - x[i + half] * sin[i]
    ensures RopeHalf(x, cos, sin)[i + half] == x[i + half] * cos[i + half] + x[i] * sin[i + half]
  {
    hide Embed, Times, RotateHalf;
    RotatedHalves(x, half, i);
    EmbedIs(x, RotateHalf(x), cos, sin, i);
    EmbedIs(x, RotateHalf(x), cos, sin, i + half);
    Negated(x[i] * cos[i], x[i + half], sin[i]);
  }

  lemma TimesIs(a: real, b: real)
    ensures Times(a, b) == a * b
  {
  }

  lemma RotationAgrees(x: seq<real>, half: nat, p: nat)
    requires |x| == 2 * half && p < 2 * half
    ensures RotateHalfInterleaved(Permute(x, HeadList(half)))[p] == RotateHalf(x)[HeadIndex(half, p)]
  {
    var y := Permute(x, HeadList(half));
    if p % 2 == 0 {
      assert HeadIndex(half, p) == p / 2 && HeadIndex(half, p + 1) == p / 2 + half;
      assert y[p + 1] == x[p / 2 + half];
    } else {
      assert HeadIndex(half, p) == p / 2 + half && HeadIndex(half, p - 1) == p / 2;
      assert y[p - 1] == x[p / 2];
    }
    hide Permute, HeadList, HeadIndex;
  }

  lemma RotationsAgree(x: seq<real>, half: nat)
    requires |x| == 2 * half
    ensures RotateHalfInterleaved(Permute(x, HeadList(half))) == Permute(RotateHalf(x), HeadList(half))
  {
    hide RotateHalfInterleaved, RotateHalf, HeadIndex, Permute, HeadList;
    var list := HeadList(half);
    forall p | 0 <= p < 2 * half
      ensures RotateHalfInterleaved(Permute(x, list))[p] == Permute(RotateHalf(x), list)[p]
    {
      RotationAgrees(x, half, p);
    }
  }

  lemma EmbedPermuted(x: seq<real>, rotated: seq<real>, cos: seq<real>, sin: seq<real>, list: seq<nat>)
    requires |x| == |rotated| == |cos| == |sin| && forall p :: 0 <= p < |list| ==> list[p] < |x|
    ensures Embed(Permute(x, list), Permute(rotated, list), Permute(cos, list), Permute(sin, list))
         == Permute(Embed(x, rotated, cos, sin), list)
  {
    hide Permute;
    var p, q := Embed(Permute(x, list), Permute(rotated, list), Permute(cos, list), Permute(sin, list)),
                Permute(Embed(x, rotated, cos, sin), list);
    forall i | 0 <= i < |list| ensures p[i] == q[i] {
      var j := list[i];
      assert Permute(x, list)[i] == x[j] && Permute(rotated, list)[i] == rotated[j];
      assert Permute(cos, list)[i] == cos[j] && Permute(sin, list)[i] == sin[j];
    }
  }

  /** Rotating the permuted vector with permuted tables is permuting the rotated vector. */
  lemma RopeCommutes(x: seq<real>, cos: seq<real>, sin: seq<real>, half: nat)
    requires |x| == |cos| == |sin| == 2 * half
    ensures RopeInterleaved(Permute(x, HeadList(half)), Permute(cos, HeadList(half)), Permute(sin, HeadList(half)))
         == Permute(RopeHalf(x, cos, sin), HeadList(half))
  {
    hide RotateHalfInterleaved, RotateHalf, Permute, HeadList, Embed, HeadIndex;
    RotationsAgree(x, half);
    EmbedPermuted(x, RotateHalf(x), cos, sin, HeadList(half));
  }

  // ----- Scores -----

  function Dot(x: seq<real>, y: seq<real>): real
    requires |x| == |y|
  {
    if x == [] then 0.0 else Dot(x[..|x| - 1], y[..|x| - 1]) + Times(x[|x| - 1], y[|x| - 1])
  }

  // A dot product is bilinear, and finds the elements of a vector by unit vectors.

  function Added(x: seq<real>, y: seq<real>): (z: seq<real>)
    requires |x| == |y|
    ensures |z| == |x| && forall i :: 0 <= i < |x| ==> z[i] == x[i] + y[i]
  {
    seq(|x|, i requires 0 <= i < |x| => x[i] + y[i])
  }

  function Unit(n: nat, k: nat): (e: seq<real>)
    ensures |e| == n && forall i :: 0 <= i < n ==> e[i] == if i == k then 1.0 else 0.0
  {
    seq(n, i => if i == k then 1.0 else 0.0)
  }

  lemma DotLast(x: seq<real>, y: seq<real>)
    requires |x| == |y| && x != []
    ensures var n := |x| - 1; Dot(x, y) == Dot(x[..n], y[..n]) + Times(x[n], y[n])
  {
    hide Times;
  }

  lemma DotNone(x: seq<real>, y: seq<real>)
    requires |x| == |y| == 0
    ensures Dot(x, y) == 0.0
  {
  }

  lemma {:induction false} DotAdds(x: seq<real>, y: seq<real>, z: seq<real>)
    requires |x| == |y| == |z|
    ensures Dot(Added(x, y), z) == Dot(x, z) + Dot(y, z)
  {
    hide Times, Dot;
    if x == [] {
      DotNone(Added(x, y), z);
      DotNone(x, z);
      DotNone(y, z);
    } else {
      var n := |x| - 1;
      DotAdds(x[..n], y[..n], z[..n]);
      assert Added(x, y)[..n] == Added(x[..n], y[..n]);
      DotLast(Added(x, y), z);
      DotLast(x, z);
      DotLast(y, z);
      TimesAdds(x[n], y[n], z[n]);
    }
  }

  lemma TimesAdds(x: real, y: real, z: real)
    ensures Times(x + y, z) == Times(x, z) + Times(y, z) && Times(x, z) == Times(z, x)
  {
  }

  function Scaled(a: real, x: seq<real>): (y: seq<real>)
    ensures |y| == |x| && forall i :: 0 <= i < |x| ==> y[i] == Times(a, x[i])
  {
    seq(|x|, i requires 0 <= i < |x| => Times(a, x[i]))
  }

  lemma {:induction false} DotScales(a: real, x: seq<real>, z: seq<real>)
    requires |x| == |z|
    ensures Dot(Scaled(a, x), z) == a * Dot(x, z)
  {
    hide Times, Dot;
    if x == [] {
      DotNone(Scaled(a, x), z);
      DotNone(x, z);
    } else {
      var n := |x| - 1;
      DotScales(a, x[..n], z[..n]);
      assert Scaled(a, x)[..n] == Scaled(a, x[..n]);
      DotLast(Scaled(a, x), z);
      DotLast(x, z);
      hide Scaled;
      TimesScales(a, x[n], z[n], Dot(x[..n], z[..n]));
    }
  }

  lemma TimesScales(a: real, x: real, z: real, d: real)
    ensures a * d + Times(Times(a, x), z) == a * (d + Times(x, z))
  {
    assert a * x * z == a * (x * z);
  }

  lemma {:induction false} DotSymmetric(x: seq<real>, z: seq<real>)
    requires |x| == |z|
    ensures Dot(x, z) == Dot(z, x)
  {
    hide Times, Dot;
    if x == [] {
      DotNone(x, z);
      DotNone(z, x);
    } else {
      var n := |x| - 1;
      DotSymmetric(x[..n], z[..n]);
      DotLast(x, z);
      DotLast(z, x);
      TimesAdds(x[n], x[n], z[n]);
    }
  }

  lemma {:induction false} DotUnit(x: seq<real>, k: nat)
    requires k < |x|
    ensures Dot(x, Unit(|x|, k)) == x[k]
  {
    var n := |x| - 1;
    TimesIs(x[n], Unit(|x|, k)[n]);
    hide Times;
    if k < n {
      assert Unit(|x|, k)[..n] == Unit(n, k);
      DotUnit(x[..n], k);
    } else {
      DotNothing(x[..n], Unit(|x|, k)[..n]);
    }
  }

  lemma {:induction false} DotNothing(x: seq<real>, zeros: seq<real>)
    requires |x| == |zeros| && forall i :: 0 <= i < |zeros| ==> zeros[i] == 0.0
    ensures Dot(x, zeros) == 0.0
  {
    if x != [] {
      DotNothing(x[..|x| - 1], zeros[..|x| - 1]);
      TimesIs(x[|x| - 1], 0.0);
      hide Times;
    }
  }

  /** The products of the first `n` pairs of halves. */
  function PairDot(x: seq<real>, y: seq<real>, half: nat, n: nat): real
    requires |x| == |y| == 2 * half && n <= half
  {
    if n == 0 then 0.0
    else PairDot(x, y, half, n - 1) + Times(x[n - 1], y[n - 1]) + Times(x[n - 1 + half], y[n - 1 + half])
  }

  lemma {:induction false} DotConcat(a: seq<real>, b: seq<real>, c: seq<real>, d: seq<real>)
    requires |a| == |c| && |b| == |d|
    ensures Dot(a + b, c + d) == Dot(a, c) + Dot(b, d)
    decreases |b|
  {
    if b == [] {
      assert a + b == a && c + d == c;
    } else {
      var n := |b| - 1;
      assert (a + b)[..|a| + n] == a + b[..n] && (c + d)[..|a| + n] == c + d[..n];
      DotConcat(a, b[..n], c, d[..n]);
    }
  }

  lemma {:induction false} HalvesArePairs(x: seq<real>, y: seq<real>, half: nat, n: nat)
    requires |x| == |y| == 2 * half && n <= half
    ensures PairDot(x, y, half, n) == Dot(x[..n], y[..n]) + Dot(x[half..half + n], y[half..half + n])
  {
    hide Times;
    if n > 0 {
      HalvesArePairs(x, y, half, n - 1);
      assert x[..n][..n - 1] == x[..n - 1] && y[..n][..n - 1] == y[..n - 1];
      assert x[half..half + n][..n - 1] == x[half..half + n - 1] && y[half..half + n][..n - 1] == y[half..half + n - 1];
    }
  }

  lemma DotNext(x: seq<real>, y: seq<real>, n: nat)
    requires |x| == |y| && n < |x|
    ensures Dot(x[..n + 1], y[..n + 1]) == Dot(x[..n], y[..n]) + Times(x[n], y[n])
  {
    assert x[..n + 1][..n] == x[..n] && y[..n + 1][..n] == y[..n];
    hide Times;
  }

  lemma PermutedPair(x: seq<real>, half: nat, i: nat)
    requires |x| == 2 * half && i < half
    ensures var p := Permute(x, HeadList(half)); p[2 * i] == x[i] && p[2 * i + 1] == x[i + half]
  {
    assert HeadIndex(half, 2 * i) == i && HeadIndex(half, 2 * i + 1) == i + half;
  }

  lemma {:induction false} NeighboursArePairs(x: seq<real>, y: seq<real>, half: nat, n: nat)
    requires |x| == |y| == 2 * half && n <= half
    ensures var p, q := Permute(x, HeadList(half)), Permute(y, HeadList(half));
      Dot(p[..2 * n], q[..2 * n]) == PairDot(x, y, half, n)
  {
    hide Permute, HeadList, HeadIndex, Times, Dot;
    var p, q := Permute(x, HeadList(half)), Permute(y, HeadList(half));
    if n == 0 {
      assert p[..0] == [] && q[..0] == [] && Dot([], []) == 0.0 by { DotEmpty(); }
    } else {
      NeighboursArePairs(x, y, half, n - 1);
      PermutedPair(x, half, n - 1);
      PermutedPair(y, half, n - 1);
      DotNext(p, q, 2 * n - 2);
      DotNext(p, q, 2 * n - 1);
    }
  }

  lemma DotEmpty()
    ensures Dot([], []) == 0.0
  {
  }

  lemma DotHalves(x: seq<real>, y: seq<real>, half: nat)
    requires |x| == |y| == 2 * half
    ensures Dot(x, y) == Dot(x[..half], y[..half]) + Dot(x[half..half + half], y[half..half + half])
  {
    hide Dot;
    assert x == x[..half] + x[half..half + half] && y == y[..half] + y[half..half + half];
    DotConcat(x[..half], x[half..half + half], y[..half], y[half..half + half]);
  }

  /** Permuting both sides of a dot product does not change it. */
  lemma DotPermuted(x: seq<real>, y: seq<real>, half: nat)
    requires |x| == |y| == 2 * half
    ensures Dot(Permute(x, HeadList(half)), Permute(y, HeadList(half))) == Dot(x, y)
  {
    hide Permute, HeadList, HeadIndex, Times, Dot, PairDot;
    var p, q := Permute(x, HeadList(half)), Permute(y, HeadList(half));
    NeighboursArePairs(x, y, half, half);
    HalvesArePairs(x, y, half, half);
    DotHalves(x, y, half);
    assert p[..2 * half] == p && q[..2 * half] == q;
  }

  /** Every attention score is unchanged: q and k come out of the permuted projections, are
      rotated with the permuted tables of their positions, and meet in the same dot product as
      the original q and k rotated half against half. */
  lemma ScoresUnchanged(q: seq<real>, k: seq<real>, heads: nat, kvHeads: nat, half: nat, head: nat, kvHead: nat,
                        cosQ: seq<real>, sinQ: seq<real>, cosK: seq<real>, sinK: seq<real>)
    requires |q| == heads * (2 * half) && |k| == kvHeads * (2 * half) && head < heads && kvHead < kvHeads
    requires |cosQ| == |sinQ| == |cosK| == |sinK| == 2 * half
    ensures head * (2 * half) + 2 * half <= |q| && kvHead * (2 * half) + 2 * half <= |k|
    ensures forall p :: 0 <= p < |Indices(heads, half)| ==> Indices(heads, half)[p] < |q|
    ensures forall p :: 0 <= p < |Indices(kvHeads, half)| ==> Indices(kvHeads, half)[p] < |k|
    ensures var one := HeadList(half);
      Dot(RopeInterleaved(Head(Permute(q, Indices(heads, half)), half, head), Permute(cosQ, one), Permute(sinQ, one)),
          RopeInterleaved(Head(Permute(k, Indices(kvHeads, half)), half, kvHead),
                          Permute(cosK, one), Permute(sinK, one)))
        == Dot(RopeHalf(Head(q, half, head), cosQ, sinQ), RopeHalf(Head(k, half, kvHead), cosK, sinK))
  {
    hide Permute, HeadList, Indices, RopeInterleaved, RopeHalf, Dot, Head;
    HeadOfPermuted(q, heads, half, head);
    HeadOfPermuted(k, kvHeads, half, kvHead);
    RopeCommutes(Head(q, half, head), cosQ, sinQ, half);
    RopeCommutes(Head(k, half, kvHead), cosK, sinK, half);
    DotPermuted(RopeHalf(Head(q, half, head), cosQ, sinQ), RopeHalf(Head(k, half, kvHead), cosK, sinK), half);
  }

  // ----- The projections -----

  function MatVec(rows: seq<seq<real>>, x: seq<real>): (y: seq<real>)
    requires forall i :: 0 <= i < |rows| ==> |rows[i]| == |x|
    ensures |y| == |rows| && forall i :: 0 <= i < |rows| ==> y[i] == Dot(rows[i], x)
  {
    seq(|rows|, i requires 0 <= i < |rows| => Dot(rows[i], x))
  }

  /** Permuting a projection's rows permutes its output. */
  lemma PermutedProjection(rows: seq<seq<real>>, x: seq<real>, indices: seq<nat>)
    requires forall i :: 0 <= i < |rows| ==> |rows[i]| == |x|
    requires forall p :: 0 <= p < |indices| ==> indices[p] < |rows|
    ensures MatVec(Permute(rows, indices), x) == Permute(MatVec(rows, x), indices)
  {
    hide Dot;
  }
}
