/** Matrix-vector instructions of Megakernels/megakernels/python_vm.py that add their share to a
    residual: split over row blocks and reduction blocks, in any order, they add the whole
    product.  Over exact reals. */
module PyVm {
  import opened DivMod
  import opened Rope

  /** `get_start_end`, cut off at the end of what is sliced. */
  function Cut(n: nat, x: nat): (r: nat)
    ensures r <= n && r <= x && (r == n || r == x)
  {
    if x < n then x else n
  }

  /** Row `row` times `vec`, over columns `lo` to `hi`. */
  function Part(row: seq<real>, vec: seq<real>, lo: nat, hi: nat): real
    requires lo <= hi <= |row| == |vec|
  {
    Dot(row[lo..hi], vec[lo..hi])
  }

  /** One reduction block of a row. */
  function Block(row: seq<real>, vec: seq<real>, size: nat, idx: nat): real
    requires |row| == |vec|
  {
    var lo, hi := Cut(|row|, size * idx), Cut(|row|, size * idx + size);
    if lo <= hi then Part(row, vec, lo, hi) else 0.0
  }

  /** The first `n` reduction blocks of a row. */
  function Blocks(row: seq<real>, vec: seq<real>, size: nat, n: nat): real
    requires |row| == |vec|
  {
    if n == 0 then 0.0 else Blocks(row, vec, size, n - 1) + Block(row, vec, size, n - 1)
  }

  lemma {:induction false} BlocksArePrefix(row: seq<real>, vec: seq<real>, size: nat, n: nat)
    requires |row| == |vec|
    ensures Blocks(row, vec, size, n) == Part(row, vec, 0, Cut(|row|, size * n))
  {
    hide Dot;
    if n == 0 {
      assert row[0..0] == [] && vec[0..0] == [];
      DotEmpty();
    } else {
      BlocksArePrefix(row, vec, size, n - 1);
      assert size * n == size * (n - 1) + size;
      var lo, hi := Cut(|row|, size * (n - 1)), Cut(|row|, size * n);
      assert row[0..lo] + row[lo..hi] == row[0..hi] && vec[0..lo] + vec[lo..hi] == vec[0..hi];
      DotConcat(row[0..lo], row[lo..hi], vec[0..lo], vec[lo..hi]);
    }
  }

  /** Blocks that reach the end add up to the whole product, whether or not they divide it. */
  lemma BlocksAreDot(row: seq<real>, vec: seq<real>, size: nat, n: nat)
    requires |row| == |vec| <= size * n
    ensures Blocks(row, vec, size, n) == Dot(row, vec)
  {
    BlocksArePrefix(row, vec, size, n);
    assert row[0..|row|] == row && vec[0..|vec|] == vec;
  }

  // ----- The instruction -----

  /** A `matvec_with_residual` call: row blocks `first` to `last`, reduction block `reduction`. */
  datatype Call = Call(first: nat, last: nat, reduction: nat)

  datatype Problem = Problem(mat: seq<seq<real>>, vec: seq<real>, blockSize: nat, reductionSize: nat)

  ghost predicate Valid(p: Problem) {
    forall i :: 0 <= i < |p.mat| ==> |p.mat[i]| == |p.vec|
  }

  predicate Covers(p: Problem, c: Call, i: nat) {
    p.blockSize * c.first <= i < p.blockSize * c.last
  }

  /** What the call adds to row `i`. */
  function Share(p: Problem, c: Call, i: nat): real
    requires i < |p.mat| && |p.mat[i]| == |p.vec|
  {
    if Covers(p, c, i) then Block(p.mat[i], p.vec, p.reductionSize, c.reduction) else 0.0
  }

  function Updated(p: Problem, c: Call, residual: seq<real>): (r: seq<real>)
    requires Valid(p) && |residual| == |p.mat|
    ensures |r| == |residual| && forall i :: 0 <= i < |r| ==> r[i] == residual[i] + Share(p, c, i)
  {
    seq(|residual|, i requires 0 <= i < |residual| => residual[i] + Share(p, c, i))
  }

  /** `matvec_with_residual`. */
  method MatvecWithResidual(p: Problem, c: Call, residual: array<real>)
    requires Valid(p) && residual.Length == |p.mat| && c.first <= c.last
    modifies residual
    ensures residual[..] == Updated(p, c, old(residual[..]))
  {
    assert forall i: nat :: !Covers(p, Call(c.first, c.first, c.reduction), i);
    hide Block, Share, Covers;
    var rows := |p.mat|;
    for blockIdx := c.first to c.last
      invariant forall i :: 0 <= i < rows ==>
        residual[i] == old(residual[i]) + if Covers(p, Call(c.first, blockIdx, c.reduction), i)
                                          then Block(p.mat[i], p.vec, p.reductionSize, c.reduction) else 0.0
    {
      var start, end := Cut(rows, p.blockSize * blockIdx), Cut(rows, p.blockSize * blockIdx + p.blockSize);
      NextBlock(p, c, blockIdx);
      for i := start to end
        invariant forall k :: 0 <= k < rows ==>
          residual[k] == old(residual[k]) + if Covers(p, Call(c.first, blockIdx, c.reduction), k) || start <= k < i
                                            then Block(p.mat[k], p.vec, p.reductionSize, c.reduction) else 0.0
      {
        residual[i] := residual[i] + Block(p.mat[i], p.vec, p.reductionSize, c.reduction);
      }
    }
    forall i | 0 <= i < rows ensures residual[i] == old(residual[i]) + Share(p, c, i) { ShareIs(p, c, i); }
  }

  /** A reduction block is the product of a slice, cut off at the end. */
  lemma BlockIs(row: seq<real>, vec: seq<real>, size: nat, idx: nat)
    requires |row| == |vec|
    ensures var lo, hi := Cut(|vec|, size * idx), Cut(|vec|, size * idx + size);
      lo <= hi && Block(row, vec, size, idx) == Dot(row[lo..hi], vec[lo..hi])
  {
  }

  /** The rows of the call's blocks get the product of the reduction block, cut off at the end of
      the vector; the rows before and after stay as they were. */
  lemma UpdatedIs(p: Problem, c: Call, residual: seq<real>, i: nat)
    requires Valid(p) && |residual| == |p.mat| && i < |residual|
    ensures var at := p.reductionSize * c.reduction;
      var lo, hi := Cut(|p.vec|, at), Cut(|p.vec|, at + p.reductionSize);
      && lo <= hi && |p.mat[i]| == |p.vec|
      && Updated(p, c, residual)[i] == if p.blockSize * c.first <= i < p.blockSize * c.last
                                       then residual[i] + Dot(p.mat[i][lo..hi], p.vec[lo..hi]) else residual[i]
  {
    ShareIs(p, c, i);
    BlockIs(p.mat[i], p.vec, p.reductionSize, c.reduction);
    hide Block, Share, Dot;
  }

  lemma NextBlock(p: Problem, c: Call, b: nat)
    requires c.first <= b
    ensures Cut(|p.mat|, p.blockSize * b) <= Cut(|p.mat|, p.blockSize * b + p.blockSize)
    ensures forall i: nat :: i < |p.mat| ==>
      (Covers(p, Call(c.first, b + 1, c.reduction), i) <==>
        || Covers(p, Call(c.first, b, c.reduction), i)
        || Cut(|p.mat|, p.blockSize * b) <= i < Cut(|p.mat|, p.blockSize * b + p.blockSize))
      && !(Covers(p, Call(c.first, b, c.reduction), i) && Cut(|p.mat|, p.blockSize * b) <= i)
  {
    assert p.blockSize * (b + 1) == p.blockSize * b + p.blockSize;
    MulMono(c.first, b, p.blockSize);
  }

  lemma ShareIs(p: Problem, c: Call, i: nat)
    requires i < |p.mat| && |p.mat[i]| == |p.vec|
    ensures Share(p, c, i) == if Covers(p, c, i) then Block(p.mat[i], p.vec, p.reductionSize, c.reduction) else 0.0
  {
  }

  /** Two such instructions commute, whatever matrices and vectors they multiply and whatever rows
      and blocks they cover; so a DAG need not order them. */
  lemma CallsCommute(p: Problem, a: Call, q: Problem, b: Call, residual: seq<real>)
    requires Valid(p) && Valid(q) && |residual| == |p.mat| == |q.mat|
    ensures Updated(p, a, Updated(q, b, residual)) == Updated(q, b, Updated(p, a, residual))
  {
    hide Share;
  }

  function AllUpdated(p: Problem, calls: seq<Call>, residual: seq<real>): (r: seq<real>)
    requires Valid(p) && |residual| == |p.mat|
    ensures |r| == |residual|
  {
    if calls == [] then residual
    else Updated(p, calls[|calls| - 1], AllUpdated(p, calls[..|calls| - 1], residual))
  }

  function Shares(p: Problem, calls: seq<Call>, i: nat): real
    requires i < |p.mat| && |p.mat[i]| == |p.vec|
  {
    if calls == [] then 0.0 else Shares(p, calls[..|calls| - 1], i) + Share(p, calls[|calls| - 1], i)
  }

  lemma {:induction false} AllUpdatedIs(p: Problem, calls: seq<Call>, residual: seq<real>, i: nat)
    requires Valid(p) && |residual| == |p.mat| && i < |residual|
    ensures AllUpdated(p, calls, residual)[i] == residual[i] + Shares(p, calls, i)
  {
    hide Share, Updated;
    if calls != [] { AllUpdatedIs(p, calls[..|calls| - 1], residual, i); }
  }

  /** Every reduction block of row `i` is covered by exactly one call. */
  ghost predicate CoveredOnce(p: Problem, calls: seq<Call>, i: nat, n: nat) {
    && (forall k :: 0 <= k < |calls| && Covers(p, calls[k], i) ==> calls[k].reduction < n)
    && forall b: nat :: b < n ==> OnceBy(p, calls, i, b)
  }

  ghost predicate OnceBy(p: Problem, calls: seq<Call>, i: nat, b: nat) {
    exists k: nat :: Only(p, calls, i, b, k)
  }

  ghost predicate Only(p: Problem, calls: seq<Call>, i: nat, b: nat, k: nat) {
    && k < |calls| && Covers(p, calls[k], i) && calls[k].reduction == b
    && forall j :: 0 <= j < |calls| && Covers(p, calls[j], i) && calls[j].reduction == b ==> j == k
  }

  /** The shares of the calls that cover row `i` with a block below `n`. */
  function SharesBelow(p: Problem, calls: seq<Call>, i: nat, n: nat): real
    requires i < |p.mat| && |p.mat[i]| == |p.vec|
  {
    if calls == [] then 0.0
    else
      var m := |calls| - 1;
      SharesBelow(p, calls[..m], i, n) + if calls[m].reduction < n then Share(p, calls[m], i) else 0.0
  }

  lemma {:induction false} SharesBelowAll(p: Problem, calls: seq<Call>, i: nat, n: nat)
    requires i < |p.mat| && |p.mat[i]| == |p.vec|
    requires forall k :: 0 <= k < |calls| && Covers(p, calls[k], i) ==> calls[k].reduction < n
    ensures SharesBelow(p, calls, i, n) == Shares(p, calls, i)
  {
    if calls != [] {
      SharesBelowAll(p, calls[..|calls| - 1], i, n);
      ShareIs(p, calls[|calls| - 1], i);
    }
  }

  /** Raising `n` by one adds the share of the one call for block `n`, if there is one. */
  lemma {:induction false} SharesBelowNext(p: Problem, calls: seq<Call>, i: nat, n: nat, k: nat)
    requires i < |p.mat| && |p.mat[i]| == |p.vec|
    requires
      || Only(p, calls, i, n, k)
      || (k == |calls| && forall j :: 0 <= j < |calls| && Covers(p, calls[j], i) ==> calls[j].reduction != n)
    ensures SharesBelow(p, calls, i, n + 1)
         == SharesBelow(p, calls, i, n) + if k < |calls| then Block(p.mat[i], p.vec, p.reductionSize, n) else 0.0
  {
    if calls != [] {
      var m := |calls| - 1;
      var init := calls[..m];
      ShareIs(p, calls[m], i);
      hide Block, Share, Covers;
      if k == m {
        assert forall j :: 0 <= j < m && Covers(p, init[j], i) ==> init[j].reduction != n by {
          forall j | 0 <= j < m && Covers(p, init[j], i) ensures init[j].reduction != n { assert init[j] == calls[j]; }
        }
        SharesBelowNext(p, init, i, n, m);
      } else if k < m {
        assert Only(p, init, i, n, k);
        SharesBelowNext(p, init, i, n, k);
      } else {
        SharesBelowNext(p, init, i, n, m);
      }
    }
  }

  lemma {:induction false} SharesAreBlocks(p: Problem, calls: seq<Call>, i: nat, n: nat, limit: nat)
    requires i < |p.mat| && |p.mat[i]| == |p.vec| && n <= limit && CoveredOnce(p, calls, i, limit)
    ensures SharesBelow(p, calls, i, n) == Blocks(p.mat[i], p.vec, p.reductionSize, n)
  {
    if n == 0 {
      NoShares(p, calls, i);
    } else {
      SharesAreBlocks(p, calls, i, n - 1, limit);
      var b: nat := n - 1;
      assert OnceBy(p, calls, i, b);
      var k: nat :| Only(p, calls, i, b, k);
      SharesBelowNext(p, calls, i, b, k);
    }
  }

  lemma {:induction false} NoShares(p: Problem, calls: seq<Call>, i: nat)
    requires i < |p.mat| && |p.mat[i]| == |p.vec|
    ensures SharesBelow(p, calls, i, 0) == 0.0
  {
    if calls != [] { NoShares(p, calls[..|calls| - 1], i); }
  }

  /** One call per reduction block, each over all row blocks, covers every row as required. */
  lemma OneCallPerBlock(p: Problem, calls: seq<Call>, last: nat, i: nat, n: nat)
    requires i < p.blockSize * last && |calls| == n
    requires forall k :: 0 <= k < n ==> calls[k] == Call(0, last, k)
    ensures CoveredOnce(p, calls, i, n)
  {
    forall b: nat | b < n ensures OnceBy(p, calls, i, b) {
      assert Only(p, calls, i, b, b);
    }
  }

  /** Calls that cover each reduction block of a row once, in whatever order they run, add the
      row's whole product to its residual. */
  lemma ResidualGetsProduct(p: Problem, calls: seq<Call>, residual: seq<real>, i: nat, n: nat)
    requires Valid(p) && |residual| == |p.mat| && i < |residual|
    requires CoveredOnce(p, calls, i, n) && |p.vec| <= p.reductionSize * n
    ensures AllUpdated(p, calls, residual)[i] == residual[i] + Dot(p.mat[i], p.vec)
  {
    AllUpdatedIs(p, calls, residual, i);
    SharesBelowAll(p, calls, i, n);
    SharesAreBlocks(p, calls, i, n, n);
    BlocksAreDot(p.mat[i], p.vec, p.reductionSize, n);
  }
}
