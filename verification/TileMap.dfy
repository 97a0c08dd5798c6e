/** Index arithmetic of the GEMM kernels in Triton-distributed/tutorials/07 to 10: the grouped
    tile order and the rank swizzles are permutations of the output tiles. */
module TileMap {
  import opened DivMod

  // ----- Rotations -----

  function Rotate(x: nat, s: nat, n: nat): nat
    requires n > 0
  {
    (x + s) % n
  }

  function Unrotate(y: nat, s: nat, n: nat): nat
    requires n > 0
  {
    Rotate(y, n - s % n, n)
  }

  lemma RotateIs(x: nat, s: nat, n: nat)
    requires x < n
    ensures var c := s % n; c < n && Rotate(x, s, n) == if x + c < n then x + c else x + c - n
  {
    var q, c := s / n, s % n;
    assert s == q * n + c;
    if x + c < n {
      Unique(q, x + c, n);
    } else {
      assert (q + 1) * n == q * n + n;
      Unique(q + 1, x + c - n, n);
    }
  }

  lemma RotateInverse(x: nat, s: nat, n: nat)
    requires x < n
    ensures Rotate(x, s, n) < n && Unrotate(Rotate(x, s, n), s, n) == x
    ensures Unrotate(x, s, n) < n && Rotate(Unrotate(x, s, n), s, n) == x
  {
    var c := s % n;
    RotateIs(x, s, n);
    if c == 0 { Unique(1, 0, n); } else { Unique(0, n - c, n); }
    RotateIs(x, n - c, n);
    RotateIs(Rotate(x, s, n), n - c, n);
    RotateIs(Unrotate(x, s, n), s, n);
  }

  // ----- Mixed-radix numbers -----

  function Pair(q: nat, r: nat, d: nat): nat {
    q * d + r
  }

  lemma Split(x: nat, d: nat)
    requires d > 0
    ensures Pair(x / d, x % d, d) == x && x % d < d
  {
  }

  lemma Joined(q: nat, r: nat, d: nat, n: nat)
    requires r < d
    ensures Pair(q, r, d) / d == q && Pair(q, r, d) % d == r
    ensures Pair(q, r, d) < n * d <==> q < n
  {
    Unique(q, r, d);
    MulStep(q, n, d);
    if n <= q { MulMono(n, q, d); }
  }

  // Three digits: the lowest below p, the next below l.

  function High(x: nat, l: nat, p: nat): nat
    requires l > 0 && p > 0
  {
    x / p / l
  }

  function Middle(x: nat, l: nat, p: nat): nat
    requires l > 0 && p > 0
  {
    x / p % l
  }

  function Low(x: nat, p: nat): nat
    requires p > 0
  {
    x % p
  }

  lemma Triple(a: nat, b: nat, i: nat, n: nat, l: nat, p: nat)
    requires b < l && i < p
    ensures var x := Pair(Pair(a, b, l), i, p);
      High(x, l, p) == a && Middle(x, l, p) == b && Low(x, p) == i && (x < n * l * p <==> a < n)
  {
    Joined(a, b, l, n);
    hide Pair;
    Joined(Pair(a, b, l), i, p, n * l);
  }

  lemma Untriple(x: nat, n: nat, l: nat, p: nat)
    requires l > 0 && p > 0
    ensures x == Pair(Pair(High(x, l, p), Middle(x, l, p), l), Low(x, p), p) && Middle(x, l, p) < l && Low(x, p) < p
    ensures x < n * l * p <==> High(x, l, p) < n
  {
    Split(x, p);
    Split(x / p, l);
    hide Pair;
    Triple(x / p / l, x / p % l, x % p, n, l, p);
  }

  // ----- The grouped order -----

  /** `num_pid_m`, `num_pid_n` and `GROUP_SIZE_M`. */
  datatype Grid = Grid(m: nat, n: nat, group: nat)

  predicate GridTile(g: Grid, tile: (nat, nat)) {
    tile.0 < g.m && tile.1 < g.n
  }

  /** Rows in group `gid`: the last group may be short. */
  function GroupSize(g: Grid, gid: nat): int {
    if g.m - gid * g.group < g.group then g.m - gid * g.group else g.group
  }

  lemma GroupFacts(g: Grid, id: nat)
    requires g.group > 0 && id < g.m * g.n
    ensures g.n > 0 && g.group * g.n > 0
    ensures GroupSize(g, id / (g.group * g.n)) > 0
    ensures var gid := id / (g.group * g.n); id % (g.group * g.n) < GroupSize(g, gid) * g.n
    ensures id == Pair(id / (g.group * g.n), id % (g.group * g.n), g.group * g.n)
  {
    assert g.n > 0;
    MulMono(1, g.group, g.n);
    var w := g.group * g.n;
    var gid, l := id / w, id % w;
    Split(id, w);
    var first := gid * g.group;
    assert first * g.n == gid * w;
    if g.m <= first { MulMono(g.m, first, g.n); }
    assert (g.m - first) * g.n == g.m * g.n - first * g.n;
  }

  /** The tile of position `inGroup` in group `gid`, whose rows are taken from `position`. */
  function InGroup(gid: nat, size: nat, group: nat, position: nat, inGroup: nat): (nat, nat)
    requires size > 0
  {
    (Pair(gid, position % size, group), inGroup / size)
  }

  /** The tile of position `id`.  Tutorials 07 and 08 take the row from `tile_id %
      group_size_m` (`absolute`), 09 and 10 from the position inside the group. */
  function Grouped(g: Grid, id: nat, absolute: bool): (nat, nat)
    requires g.group > 0 && id < g.m * g.n
  {
    GroupFacts(g, id);
    var inGroup := g.group * g.n;
    InGroup(id / inGroup, GroupSize(g, id / inGroup), g.group, if absolute then id else id % inGroup, id % inGroup)
  }

  /** How far the rows of a group are rotated by not taking `tile_id` relative to the group. */
  function Twist(g: Grid, gid: nat, absolute: bool): nat {
    if absolute then gid * (g.group * g.n) else 0
  }

  /** The position of a tile. */
  function Ungrouped(g: Grid, tile: (nat, nat), absolute: bool): nat
    requires g.group > 0 && GridTile(g, tile)
  {
    var gid := tile.0 / g.group;
    var first := gid * g.group;
    assert first <= tile.0 < g.m;
    var size := GroupSize(g, gid);
    Pair(gid, Pair(tile.1, Unrotate(tile.0 - first, Twist(g, gid, absolute), size), size), g.group * g.n)
  }

  lemma ModShift(q: nat, x: nat, d: nat)
    requires d > 0
    ensures (q * d + x) % d == x % d
  {
    var p, r := x / d, x % d;
    assert q * d + x == (q + p) * d + r;
    Unique(q + p, r, d);
  }

  /** Taking an offset position modulo the group size rotates the rows. */
  lemma RowIs(id: nat, base: nat, l: nat, size: nat)
    requires size > 0 && id == base + l
    ensures id % size == Rotate(l % size, base, size) && l % size == Rotate(l % size, 0, size)
  {
    var x := l % size + base;
    assert id == l / size * size + x;
    ModShift(l / size, x, size);
    Unique(0, l % size, size);
  }

  lemma GroupedIs(g: Grid, id: nat, absolute: bool)
    requires g.group > 0 && id < g.m * g.n
    ensures g.group * g.n > 0 && GroupSize(g, id / (g.group * g.n)) > 0
    ensures var w := g.group * g.n;
      var gid, l, size := id / w, id % w, GroupSize(g, id / w);
      Grouped(g, id, absolute) == (Pair(gid, Rotate(l % size, Twist(g, gid, absolute), size), g.group), l / size)
  {
    GroupFacts(g, id);
    var w := g.group * g.n;
    var gid, l := id / w, id % w;
    RowOfGroup(gid, l, GroupSize(g, gid), w);
    hide Rotate, GroupSize;
    assert id == Pair(gid, l, w);
    hide Pair;
  }

  lemma RowOfGroup(gid: nat, l: nat, size: nat, w: nat)
    requires size > 0
    ensures Pair(gid, l, w) % size == Rotate(l % size, gid * w, size) && l % size == Rotate(l % size, 0, size)
  {
    RowIs(Pair(gid, l, w), gid * w, l, size);
  }

  lemma UngroupedIs(g: Grid, gid: nat, x: nat, col: nat, absolute: bool)
    requires g.group > 0 && x < GroupSize(g, gid) && col < g.n
    ensures var size := GroupSize(g, gid);
      Ungrouped(g, (Pair(gid, x, g.group), col), absolute)
        == Pair(gid, Pair(col, Unrotate(x, Twist(g, gid, absolute), size), size), g.group * g.n)
  {
    Unique(gid, x, g.group);
    hide Unrotate, Twist;
  }

  lemma QuotientBelow(l: nat, size: nat, n: nat)
    requires size > 0 && l < size * n
    ensures l / size < n
  {
    Split(l, size);
    if n <= l / size { MulMono(n, l / size, size); }
  }

  /** Every position names a tile of the grid, and the tile determines the position. */
  lemma GroupedIsTile(g: Grid, id: nat, absolute: bool)
    requires g.group > 0 && id < g.m * g.n
    ensures GridTile(g, Grouped(g, id, absolute)) && Ungrouped(g, Grouped(g, id, absolute), absolute) == id
  {
    GroupFacts(g, id);
    GroupedIs(g, id, absolute);
    hide Grouped, Rotate, Twist, Ungrouped, Unrotate;
    var w := g.group * g.n;
    var gid, l := id / w, id % w;
    var size := GroupSize(g, gid);
    RotateInverse(l % size, Twist(g, gid, absolute), size);
    var x := Rotate(l % size, Twist(g, gid, absolute), size);
    QuotientBelow(l, size, g.n);
    UngroupedIs(g, gid, x, l / size, absolute);
    Split(l, size);
    hide Pair;
  }

  /** Every tile of the grid has a position. */
  lemma TileIsGrouped(g: Grid, tile: (nat, nat), absolute: bool)
    requires g.group > 0 && GridTile(g, tile)
    ensures Ungrouped(g, tile, absolute) < g.m * g.n
    ensures Grouped(g, Ungrouped(g, tile, absolute), absolute) == tile
  {
    var gid := tile.0 / g.group;
    var size, w := GroupSize(g, gid), g.group * g.n;
    var twist := Twist(g, gid, absolute);
    Split(tile.0, g.group);
    var y: nat := tile.0 - gid * g.group;
    assert y < size;
    RotateInverse(y, twist, size);
    hide Rotate, Twist;
    var x := Unrotate(y, twist, size);
    var l := Pair(tile.1, x, size);
    var id := Pair(gid, l, w);
    assert id == Ungrouped(g, tile, absolute);
    hide Ungrouped, Unrotate;
    UngroupedFits(g, gid, tile.1, x);
    Joined(gid, l, w, 0);
    Joined(tile.1, x, size, 0);
    hide Pair, GroupSize;
    GroupedIs(g, id, absolute);
    hide Grouped;
  }

  lemma UngroupedFits(g: Grid, gid: nat, col: nat, x: nat)
    requires g.group > 0 && col < g.n && x < GroupSize(g, gid)
    ensures var size, w := GroupSize(g, gid), g.group * g.n;
      Pair(col, x, size) < w && Pair(gid, Pair(col, x, size), w) < g.m * g.n
  {
    var size, w := GroupSize(g, gid), g.group * g.n;
    var l := Pair(col, x, size);
    Joined(col, x, size, g.n);
    assert l < g.n * size;
    MulMono(size, g.group, g.n);
    assert gid * w == gid * g.group * g.n;
    MulMono(gid * g.group + size, g.m, g.n);
    assert (gid * g.group + size) * g.n == gid * g.group * g.n + size * g.n;
  }

  /** The tiles of a group have consecutive ids, column by column; in a column, tutorials 09 and
      10 go down the rows, and tutorials 07 and 08 start where the id's remainder says. */
  lemma GroupedPlace(g: Grid, gid: nat, col: nat, x: nat)
    requires g.group > 0 && gid * g.group < g.m && col < g.n
    requires x < if g.m - gid * g.group < g.group then g.m - gid * g.group else g.group
    ensures var size: nat := if g.m - gid * g.group < g.group then g.m - gid * g.group else g.group;
      var id := gid * (g.group * g.n) + (col * size + x);
      && id < g.m * g.n
      && Grouped(g, id, false) == (gid * g.group + x, col)
      && Grouped(g, id, true) == (gid * g.group + id % size, col)
  {
    var size: nat := GroupSize(g, gid);
    UngroupedFits(g, gid, col, x);
    var l, w := Pair(col, x, size), g.group * g.n;
    var id := Pair(gid, l, w);
    Joined(gid, l, w, 0);
    Joined(col, x, size, 0);
    GroupedIs(g, id, false);
    GroupedIs(g, id, true);
    RowOfGroup(gid, l, size, w);
    hide Grouped, Rotate;
  }

  // ----- Node and rank swizzle (tutorials 07 and 08) -----

  /** `perRank` tile rows per rank, `local` ranks per node, `nodes` nodes. */
  datatype Ranks = Ranks(perRank: nat, local: nat, nodes: nat)

  predicate SomeRanks(k: Ranks) {
    k.perRank > 0 && k.local > 0 && k.nodes > 0
  }

  function Rows(k: Ranks): nat {
    k.nodes * k.local * k.perRank
  }

  /** Rotates the node of a tile row by `dn` and its local rank by `dl`.  Tutorial 08 rotates by
      `node_id + 1` and `rank + 1`, tutorial 07 on several nodes by `node_id` and `rank`. */
  function NodeRankSwizzle(k: Ranks, dn: nat, dl: nat, pidM: nat): nat
    requires SomeRanks(k)
  {
    var mRank := pidM / k.perRank;
    var pidMIntraRank := pidM % k.perRank;
    var swizzleMNodeId := Rotate(mRank / k.local, dn, k.nodes);
    var swizzleMLocalRank := Rotate(mRank % k.local, dl, k.local);
    var swizzleMRank := Pair(swizzleMNodeId, swizzleMLocalRank, k.local);
    Pair(swizzleMRank, pidMIntraRank, k.perRank)
  }

  lemma Recompose(k: Ranks, dn: nat, dl: nat, pidM: nat)
    requires SomeRanks(k)
    ensures var a, b := High(pidM, k.local, k.perRank), Middle(pidM, k.local, k.perRank);
      NodeRankSwizzle(k, dn, dl, pidM)
        == Pair(Pair(Rotate(a, dn, k.nodes), Rotate(b, dl, k.local), k.local), Low(pidM, k.perRank), k.perRank)
  {
    hide Rotate;
  }

  /** A row taken apart: node, local rank and row inside the rank. */
  lemma SwizzleParts(k: Ranks, dn: nat, dl: nat, pidM: nat)
    requires SomeRanks(k) && pidM < Rows(k)
    ensures var a, b, i := High(pidM, k.local, k.perRank), Middle(pidM, k.local, k.perRank), Low(pidM, k.perRank);
      var r := NodeRankSwizzle(k, dn, dl, pidM);
      && a < k.nodes && b < k.local && pidM == Pair(Pair(a, b, k.local), i, k.perRank) && r < Rows(k)
      && High(r, k.local, k.perRank) == Rotate(a, dn, k.nodes)
      && Middle(r, k.local, k.perRank) == Rotate(b, dl, k.local)
      && Low(r, k.perRank) == i
  {
    var a, b, i := High(pidM, k.local, k.perRank), Middle(pidM, k.local, k.perRank), Low(pidM, k.perRank);
    Untriple(pidM, k.nodes, k.local, k.perRank);
    Recompose(k, dn, dl, pidM);
    RotateInverse(a, dn, k.nodes);
    RotateInverse(b, dl, k.local);
    hide NodeRankSwizzle, Rotate, Pair, High, Middle, Low;
    Triple(Rotate(a, dn, k.nodes), Rotate(b, dl, k.local), i, k.nodes, k.local, k.perRank);
  }

  /** The swizzle is a permutation of the rows, undone by the opposite rotations. */
  lemma SwizzleInverse(k: Ranks, dn: nat, dl: nat, pidM: nat)
    requires SomeRanks(k) && pidM < Rows(k)
    ensures var un, ul := k.nodes - dn % k.nodes, k.local - dl % k.local;
      && NodeRankSwizzle(k, dn, dl, pidM) < Rows(k)
      && NodeRankSwizzle(k, un, ul, NodeRankSwizzle(k, dn, dl, pidM)) == pidM
      && NodeRankSwizzle(k, un, ul, pidM) < Rows(k)
      && NodeRankSwizzle(k, dn, dl, NodeRankSwizzle(k, un, ul, pidM)) == pidM
  {
    var un, ul := k.nodes - dn % k.nodes, k.local - dl % k.local;
    SwizzleParts(k, dn, dl, pidM);
    SwizzleParts(k, un, ul, pidM);
    RotateInverse(High(pidM, k.local, k.perRank), dn, k.nodes);
    RotateInverse(Middle(pidM, k.local, k.perRank), dl, k.local);
    Recompose(k, dn, dl, NodeRankSwizzle(k, un, ul, pidM));
    Recompose(k, un, ul, NodeRankSwizzle(k, dn, dl, pidM));
    hide NodeRankSwizzle, Rotate, Rows, Pair, High, Middle, Low;
  }

  /** Row i of local rank b of node a goes to row i of the rotated rank of the rotated node. */
  lemma SwizzlePlace(k: Ranks, dn: nat, dl: nat, a: nat, b: nat, i: nat)
    requires SomeRanks(k) && a < k.nodes && b < k.local && i < k.perRank
    ensures NodeRankSwizzle(k, dn, dl, (a * k.local + b) * k.perRank + i)
         == ((a + dn) % k.nodes * k.local + (b + dl) % k.local) * k.perRank + i
  {
    Triple(a, b, i, k.nodes, k.local, k.perRank);
    Recompose(k, dn, dl, Pair(Pair(a, b, k.local), i, k.perRank));
    hide NodeRankSwizzle, High, Middle, Low;
  }

  lemma RotateLast(s: nat, n: nat)
    requires n > 0
    ensures Rotate(n - 1, s + 1, n) == s % n
  {
    assert n - 1 + (s + 1) == 1 * n + s;
    ModShift(1, s, n);
  }

  /** Tutorial 08 leaves the rows of its own rank to the end. */
  lemma OwnRankLast(k: Ranks, rank: nat, pidM: nat)
    requires SomeRanks(k) && rank < k.nodes * k.local && pidM < Rows(k)
    requires High(pidM, k.local, k.perRank) == k.nodes - 1 && Middle(pidM, k.local, k.perRank) == k.local - 1
    ensures NodeRankSwizzle(k, rank / k.local + 1, rank + 1, pidM) / k.perRank == rank
  {
    var a, b := rank / k.local, rank % k.local;
    Recompose(k, a + 1, rank + 1, pidM);
    Untriple(pidM, k.nodes, k.local, k.perRank);
    RotateLast(a, k.nodes);
    RotateLast(rank, k.local);
    hide NodeRankSwizzle, Rotate, High, Middle, Low;
    Split(rank, k.local);
    Joined(a, b, k.local, k.nodes);
    Unique(0, a, k.nodes);
    hide Pair;
    Joined(rank, Low(pidM, k.perRank), k.perRank, 0);
  }

  /** Tutorial 07, whose caller need not pad: on one node the rows are shifted, on several they
      are swizzled. */
  function GatherSwizzle(k: Ranks, numPidM: nat, rank: nat, pidM: nat): nat
    requires SomeRanks(k) && numPidM > 0
  {
    if k.nodes == 1 then Rotate(pidM, rank % (k.nodes * k.local) * k.perRank, numPidM)
    else NodeRankSwizzle(k, rank / k.local, rank, pidM)
  }

  lemma GatherSwizzleIs(k: Ranks, numPidM: nat, rank: nat, pidM: nat)
    requires SomeRanks(k) && numPidM > 0 && rank < k.nodes * k.local
    ensures k.nodes == 1 ==> GatherSwizzle(k, numPidM, rank, pidM) == (pidM + rank * k.perRank) % numPidM
    ensures k.nodes > 1 ==> GatherSwizzle(k, numPidM, rank, pidM) == NodeRankSwizzle(k, rank / k.local, rank, pidM)
  {
    Unique(0, rank, k.nodes * k.local);
    hide NodeRankSwizzle;
  }

  /** The rows that `num_pid_m` counts are permuted on every rank exactly when there is one
      node, or when the ranks' own tile rows make up all of them. */
  lemma GatherSwizzleStays(k: Ranks, numPidM: nat)
    requires SomeRanks(k) && k.perRank <= numPidM <= Rows(k)
    ensures k.nodes == 1 || numPidM == Rows(k) <==>
      forall rank: nat, pidM: nat ::
        rank < k.nodes * k.local && pidM < numPidM ==> GatherSwizzle(k, numPidM, rank, pidM) < numPidM
  {
    if k.nodes == 1 {
      forall rank: nat, pidM: nat | rank < k.nodes * k.local && pidM < numPidM
        ensures GatherSwizzle(k, numPidM, rank, pidM) < numPidM
      {
        RotateInverse(pidM, rank % (k.nodes * k.local) * k.perRank, numPidM);
      }
    } else if numPidM == Rows(k) {
      forall rank: nat, pidM: nat | rank < k.nodes * k.local && pidM < numPidM
        ensures GatherSwizzle(k, numPidM, rank, pidM) < numPidM
      {
        SwizzleInverse(k, rank / k.local, rank, pidM);
      }
    } else {
      LastRankOverflows(k, numPidM);
    }
  }

  lemma LastRankOverflows(k: Ranks, numPidM: nat)
    requires SomeRanks(k) && k.perRank <= numPidM < Rows(k) && k.nodes > 1
    ensures var rank: nat, pidM: nat := k.nodes * k.local - 1, k.perRank - 1;
      rank < k.nodes * k.local && pidM < numPidM && GatherSwizzle(k, numPidM, rank, pidM) == Rows(k) - 1
  {
    MulMono(1, k.nodes, k.local);
    var rank: nat := k.nodes * k.local - 1;
    assert rank == (k.nodes - 1) * k.local + (k.local - 1);
    Unique(k.nodes - 1, k.local - 1, k.local);
    Unique(0, k.perRank - 1, k.perRank);
    Unique(0, 0, k.local);
    RotateIs(0, k.nodes - 1, k.nodes);
    Unique(0, k.nodes - 1, k.nodes);
    RotateIs(0, rank, k.local);
    assert GatherSwizzle(k, numPidM, rank, k.perRank - 1) == rank * k.perRank + (k.perRank - 1);
    assert (rank + 1) * k.perRank == rank * k.perRank + k.perRank;
  }

  /** When every rank's rows are whole tiles, the ranks' tile rows make up all of them. */
  lemma WholeTiles(k: Ranks, blockM: nat, m: nat)
    requires SomeRanks(k) && blockM > 0 && m == k.nodes * k.local * (k.perRank * blockM)
    ensures (m + blockM - 1) / blockM == Rows(k)
  {
    assert m == Rows(k) * blockM;
    Unique(Rows(k), blockM - 1, blockM);
  }

  function Cdiv(n: nat, d: nat): nat
    requires d > 0
  {
    (n + d - 1) / d
  }

  lemma CdivIs(n: nat, d: nat, q: nat)
    requires d > 0
    ensures Cdiv(n, d) <= q <==> n <= q * d
  {
    var c := Cdiv(n, d);
    Split(n + d - 1, d);
    hide Cdiv;
    if c <= q { MulMono(c, q, d); } else { MulMono(q + 1, c, d); assert (q + 1) * d == q * d + d; }
  }

  /** The row counts that tutorial 07 computes, where a rank has `m` matrix rows: what its
      swizzle needs on several nodes is that rounding up rank by rank gives no more tile rows
      than rounding up once. */
  lemma GatherSwizzleRows(nodes: nat, local: nat, m: nat, block: nat)
    requires nodes > 0 && local > 0 && m > 0 && block > 0
    ensures var k, numPidM := Ranks(Cdiv(m, block), local, nodes), Cdiv(nodes * local * m, block);
      && SomeRanks(k) && 0 < numPidM <= nodes * local * Cdiv(m, block)
      && (nodes == 1 || numPidM == nodes * local * Cdiv(m, block) <==>
            forall rank: nat, pidM: nat :: rank < nodes * local && pidM < numPidM ==>
              GatherSwizzle(k, numPidM, rank, pidM) < numPidM)
  {
    var k, numPidM := Ranks(Cdiv(m, block), local, nodes), Cdiv(nodes * local * m, block);
    MulMono(1, nodes, local);
    CdivRows(nodes * local, m, block);
    hide Cdiv, GatherSwizzle;
    GatherSwizzleStays(k, numPidM);
  }

  lemma CdivRows(w: nat, m: nat, block: nat)
    requires w > 0 && m > 0 && block > 0
    ensures 0 < Cdiv(m, block) <= Cdiv(w * m, block) <= w * Cdiv(m, block)
  {
    hide Cdiv;
    var c, all := Cdiv(m, block), Cdiv(w * m, block);
    MulMono(1, w, m);
    CdivIs(m, block, 0);
    CdivIs(m, block, c);
    CdivIs(m, block, all);
    CdivIs(w * m, block, all);
    CdivIs(w * m, block, w * c);
    Scaled(w, m, c, block);
  }

  lemma Scaled(w: nat, m: nat, c: nat, block: nat)
    requires m <= c * block
    ensures w * m <= w * c * block
  {
    MulMono(m, c * block, w);
    assert c * block * w == w * c * block;
  }

  /** On two nodes of one rank with one matrix row each, and tiles of two rows, there is one tile
      row, and rank 1 computes a second one. */
  lemma RaggedRowsLeave(k: Ranks)
    requires k == Ranks(Cdiv(1, 2), 1, 2)
    ensures Cdiv(2 * 1 * 1, 2) == 1 && Rows(k) == 2 && SomeRanks(k) && GatherSwizzle(k, 1, 1, 0) == 1
  {
  }

  /** Tutorial 07 waits for exactly the ranks that own a row of its tile. */
  lemma WaitsForOwners(offsAm: nat, blockM: nat, m: nat, mPerRank: nat, r: nat)
    requires mPerRank > 0 && blockM > 0 && offsAm < m
    ensures var end := if offsAm + blockM < m then offsAm + blockM else m;
      offsAm / mPerRank <= r <= (end - 1) / mPerRank <==>
        exists row: nat :: offsAm <= row < end && r == row / mPerRank
  {
    var end := if offsAm + blockM < m then offsAm + blockM else m;
    if offsAm / mPerRank <= r <= (end - 1) / mPerRank {
      var row := OwnedRow(offsAm, end - 1, mPerRank, r);
    }
    forall row: nat | offsAm <= row < end ensures offsAm / mPerRank <= row / mPerRank <= (end - 1) / mPerRank {
      QuotientMono(offsAm, row, mPerRank);
      QuotientMono(row, end - 1, mPerRank);
    }
  }

  lemma OwnedRow(first: nat, last: nat, mPerRank: nat, r: nat) returns (row: nat)
    requires mPerRank > 0 && first <= last && first / mPerRank <= r <= last / mPerRank
    ensures first <= row <= last && row / mPerRank == r
  {
    row := first;
    if r != first / mPerRank {
      row := r * mPerRank;
      Split(first, mPerRank);
      Split(last, mPerRank);
      MulStep(first / mPerRank, r, mPerRank);
      MulMono(r, last / mPerRank, mPerRank);
      Unique(r, 0, mPerRank);
    }
  }

  lemma QuotientMono(a: nat, b: nat, d: nat)
    requires d > 0 && a <= b
    ensures a / d <= b / d
  {
    Split(a, d);
    Split(b, d);
    MulStep(b / d, a / d, d);
  }

  // ----- Chunk swizzle (tutorials 09 and 10) -----

  /** `chunk` tile rows per copy chunk, `chunks` chunks per rank, `world` ranks, `block` matrix
      rows per tile. */
  datatype Chunks = Chunks(chunk: nat, chunks: nat, world: nat, block: nat)

  predicate SomeChunks(k: Chunks) {
    k.chunk > 0 && k.chunks > 0 && k.world > 0 && k.block > 0
  }

  function MPerChunk(k: Chunks): nat {
    k.chunk * k.block
  }

  function MPerRank(k: Chunks): nat {
    k.chunks * MPerChunk(k)
  }

  function ChunkRows(k: Chunks): nat {
    k.chunks * (k.world * k.chunk)
  }

  /** The rank whose rows a tile position gets: the position's rank offset, rotated by `rank` in
      tutorial 09 and by `rank + 1` in tutorial 10. */
  function RankOffset(k: Chunks, shift: nat, pidM: nat): nat
    requires SomeChunks(k)
  {
    MulMono(1, k.world, k.chunk);
    Rotate(pidM % (k.chunk * k.world) / k.chunk, shift, k.world)
  }

  function ChunkOffset(k: Chunks, pidM: nat): nat
    requires SomeChunks(k)
  {
    MulMono(1, k.world, k.chunk);
    pidM / (k.chunk * k.world)
  }

  function MatrixRow(r: nat, mPerRank: nat, c: nat, mPerChunk: nat, b: nat, block: nat): nat {
    r * mPerRank + c * mPerChunk + b * block
  }

  function ChunkSwizzle(k: Chunks, shift: nat, pidM: nat): nat
    requires SomeChunks(k)
  {
    MatrixRow(RankOffset(k, shift, pidM), MPerRank(k), ChunkOffset(k, pidM), MPerChunk(k), pidM % k.chunk, k.block)
      / k.block
  }

  /** A tile row's first matrix row. */
  lemma ChunkRow(r: nat, c: nat, b: nat, chunks: nat, chunk: nat, block: nat)
    ensures MatrixRow(r, chunks * (chunk * block), c, chunk * block, b, block)
         == Pair(Pair(r, c, chunks), b, chunk) * block
  {
    calc {
      Pair(Pair(r, c, chunks), b, chunk) * block;
      ((r * chunks + c) * chunk + b) * block;
      (r * chunks + c) * chunk * block + b * block;
      (r * chunks + c) * (chunk * block) + b * block;
      r * chunks * (chunk * block) + c * (chunk * block) + b * block;
    }
    assert r * chunks * (chunk * block) == r * (chunks * (chunk * block));
  }

  /** The division is exact, and gives the three parts in another order. */
  lemma ChunkSwizzleIs(k: Chunks, shift: nat, pidM: nat)
    requires SomeChunks(k)
    ensures ChunkSwizzle(k, shift, pidM)
         == Pair(Pair(RankOffset(k, shift, pidM), ChunkOffset(k, pidM), k.chunks), pidM % k.chunk, k.chunk)
  {
    var r, c, b := RankOffset(k, shift, pidM), ChunkOffset(k, pidM), pidM % k.chunk;
    hide RankOffset, ChunkOffset;
    ChunkRow(r, c, b, k.chunks, k.chunk, k.block);
    hide MatrixRow, Pair;
    Unique(Pair(Pair(r, c, k.chunks), b, k.chunk), 0, k.block);
  }

  lemma PairPair(a: nat, b: nat, i: nat, l: nat, p: nat)
    ensures Pair(Pair(a, b, l), i, p) == Pair(a, Pair(b, i, p), p * l)
  {
    assert (a * l + b) * p == a * l * p + b * p;
    assert a * l * p == a * (p * l);
  }

  lemma Regroup(x: nat, chunk: nat, world: nat)
    requires chunk > 0 && world > 0
    ensures chunk * world > 0
    ensures x / (chunk * world) == x / chunk / world && x % (chunk * world) / chunk == x / chunk % world
    ensures x % (chunk * world) % chunk == x % chunk
  {
    MulMono(1, world, chunk);
    var q, b := x / chunk, x % chunk;
    var c, r := q / world, q % world;
    Split(x, chunk);
    Split(q, world);
    PairPair(c, r, b, world, chunk);
    Joined(r, b, chunk, world);
    var low := Pair(r, b, chunk);
    assert low < chunk * world && x == Pair(c, low, chunk * world);
    Joined(c, low, chunk * world, 0);
    hide Pair;
  }

  lemma OffsetsAre(k: Chunks, shift: nat, pidM: nat)
    requires SomeChunks(k)
    ensures RankOffset(k, shift, pidM) == Rotate(Middle(pidM, k.world, k.chunk), shift, k.world)
    ensures ChunkOffset(k, pidM) == High(pidM, k.world, k.chunk)
  {
    hide Rotate;
    Regroup(pidM, k.chunk, k.world);
  }

  lemma Product(a: nat, b: nat, c: nat)
    ensures a * (b * c) == a * b * c
  {
  }

  /** A position taken apart: chunk, rank offset and tile row inside the chunk. */
  lemma ChunkParts(k: Chunks, shift: nat, pidM: nat)
    requires SomeChunks(k) && pidM < ChunkRows(k)
    ensures var c, x, b := ChunkOffset(k, pidM), Middle(pidM, k.world, k.chunk), Low(pidM, k.chunk);
      && c < k.chunks && x < k.world && b < k.chunk && pidM == Pair(Pair(c, x, k.world), b, k.chunk)
      && RankOffset(k, shift, pidM) == Rotate(x, shift, k.world) < k.world
  {
    hide Rotate, Pair, RankOffset, ChunkOffset, High, Middle, Low;
    Product(k.chunks, k.world, k.chunk);
    OffsetsAre(k, shift, pidM);
    Untriple(pidM, k.chunks, k.world, k.chunk);
    RotateInverse(Middle(pidM, k.world, k.chunk), shift, k.world);
  }

  /** Row b of position x of chunk c goes to row b of that chunk of the rotated rank. */
  lemma ChunkPlace(k: Chunks, shift: nat, c: nat, x: nat, b: nat)
    requires SomeChunks(k) && x < k.world && b < k.chunk
    ensures ChunkSwizzle(k, shift, (c * k.world + x) * k.chunk + b)
         == ((x + shift) % k.world * k.chunks + c) * k.chunk + b
  {
    var pidM := Pair(Pair(c, x, k.world), b, k.chunk);
    Triple(c, x, b, 0, k.world, k.chunk);
    ChunkSwizzleIs(k, shift, pidM);
    OffsetsAre(k, shift, pidM);
    hide ChunkSwizzle, RankOffset, ChunkOffset, High, Middle;
  }

  /** The position whose swizzled row is `row`. */
  function ChunkUnswizzle(k: Chunks, shift: nat, row: nat): nat
    requires SomeChunks(k)
  {
    var q := row / k.chunk;
    Pair(Pair(q % k.chunks, Unrotate(q / k.chunks, shift, k.world), k.world), row % k.chunk, k.chunk)
  }

  lemma ChunkCount(k: Chunks)
    ensures ChunkRows(k) == k.chunks * k.world * k.chunk == k.world * k.chunks * k.chunk
  {
  }

  /** The chunk swizzle maps positions to rows, and the row determines the position. */
  lemma ChunkSwizzleInverse(k: Chunks, shift: nat, pidM: nat)
    requires SomeChunks(k) && pidM < ChunkRows(k)
    ensures ChunkSwizzle(k, shift, pidM) < ChunkRows(k)
    ensures ChunkUnswizzle(k, shift, ChunkSwizzle(k, shift, pidM)) == pidM
  {
    ChunkSwizzleIs(k, shift, pidM);
    ChunkParts(k, shift, pidM);
    ChunkCount(k);
    var c, x, b := ChunkOffset(k, pidM), Middle(pidM, k.world, k.chunk), Low(pidM, k.chunk);
    RotateInverse(x, shift, k.world);
    hide Rotate, Unrotate, ChunkOffset, RankOffset, ChunkSwizzle, ChunkRows, Pair;
    Triple(RankOffset(k, shift, pidM), c, b, k.world, k.chunks, k.chunk);
  }

  /** Every row has a position. */
  lemma ChunkUnswizzleInverse(k: Chunks, shift: nat, row: nat)
    requires SomeChunks(k) && row < ChunkRows(k)
    ensures ChunkUnswizzle(k, shift, row) < ChunkRows(k)
    ensures ChunkSwizzle(k, shift, ChunkUnswizzle(k, shift, row)) == row
  {
    ChunkCount(k);
    Untriple(row, k.world, k.chunks, k.chunk);
    var r, c, b := High(row, k.chunks, k.chunk), Middle(row, k.chunks, k.chunk), Low(row, k.chunk);
    RotateInverse(r, shift, k.world);
    var x := Unrotate(r, shift, k.world);
    hide Rotate, Unrotate, Pair, ChunkRows;
    Triple(c, x, b, k.chunks, k.world, k.chunk);
    var pidM := Pair(Pair(c, x, k.world), b, k.chunk);
    assert pidM == ChunkUnswizzle(k, shift, row);
    ChunkSwizzleIs(k, shift, pidM);
    Regroup(pidM, k.chunk, k.world);
    hide ChunkSwizzle;
  }

  lemma InsideChunk(r: nat, c: nat, b: nat, k: Chunks)
    requires SomeChunks(k) && c < k.chunks && b < k.chunk
    ensures var start := MatrixRow(r, MPerRank(k), c, MPerChunk(k), b, k.block);
      && MPerChunk(k) > 0 && MPerRank(k) > 0
      && start / MPerChunk(k) == r * k.chunks + c && start % MPerChunk(k) == b * k.block
      && b * k.block + k.block <= MPerChunk(k)
      && start / MPerRank(k) == r && start % MPerRank(k) == c * MPerChunk(k) + b * k.block
      && c * MPerChunk(k) + MPerChunk(k) <= MPerRank(k)
  {
    MulMono(1, k.chunk, k.block);
    MulStep(b, k.chunk, k.block);
    var m := MPerChunk(k);
    hide MPerChunk;
    MulMono(1, k.chunks, m);
    MulStep(c, k.chunks, m);
    assert r * (k.chunks * m) + c * m == (r * k.chunks + c) * m;
    Unique(r * k.chunks + c, b * k.block, m);
    Unique(r, c * m + b * k.block, k.chunks * m);
  }

  /** Tutorial 09: the rows of a tile lie in the one chunk it waits for; that chunk is the one
      that rank `offs_rank` pushes as its chunk number `ChunkOffset`, to those very rows. */
  lemma WaitsForChunk(k: Chunks, rank: nat, pidM: nat)
    requires SomeChunks(k) && pidM < ChunkRows(k)
    ensures var start, r, c := ChunkSwizzle(k, rank, pidM) * k.block, RankOffset(k, rank, pidM), ChunkOffset(k, pidM);
      && MPerChunk(k) > 0 && MPerRank(k) > 0
      && start / MPerChunk(k) == r * k.chunks + c && start / MPerRank(k) == r
      && r * MPerRank(k) + c * MPerChunk(k) <= start
      && start + k.block <= r * MPerRank(k) + c * MPerChunk(k) + MPerChunk(k)
  {
    ChunkSwizzleIs(k, rank, pidM);
    ChunkParts(k, rank, pidM);
    var r, c, b := RankOffset(k, rank, pidM), ChunkOffset(k, pidM), pidM % k.chunk;
    hide RankOffset, ChunkOffset, ChunkSwizzle, Rotate;
    ChunkRow(r, c, b, k.chunks, k.chunk, k.block);
    hide Pair;
    InsideChunk(r, c, b, k);
    assert MatrixRow(r, MPerRank(k), c, MPerChunk(k), b, k.block) == r * MPerRank(k) + c * MPerChunk(k) + b * k.block;
    hide MPerRank, MPerChunk, MatrixRow, ChunkRows;
  }

  /** Tutorial 10: a tile of rows that belong to rank t goes to t's scatter buffer, to the place
      for rank `rank`'s share of those rows. */
  lemma ScatterTarget(k: Chunks, rank: nat, pidM: nat)
    requires SomeChunks(k) && pidM < ChunkRows(k)
    ensures var start, t := ChunkSwizzle(k, rank + 1, pidM) * k.block, RankOffset(k, rank + 1, pidM);
      && MPerRank(k) > 0 && t < k.world && start / MPerRank(k) == t
      && start % MPerRank(k) + k.block <= MPerRank(k)
      && t * MPerRank(k) + start % MPerRank(k) == start
  {
    ChunkSwizzleIs(k, rank + 1, pidM);
    ChunkParts(k, rank + 1, pidM);
    var t, c, b := RankOffset(k, rank + 1, pidM), ChunkOffset(k, pidM), pidM % k.chunk;
    hide RankOffset, ChunkOffset, ChunkSwizzle, Rotate;
    ChunkRow(t, c, b, k.chunks, k.chunk, k.block);
    hide Pair;
    InsideChunk(t, c, b, k);
    assert MatrixRow(t, MPerRank(k), c, MPerChunk(k), b, k.block) == t * MPerRank(k) + c * MPerChunk(k) + b * k.block;
    hide MPerRank, MPerChunk, MatrixRow, ChunkRows;
  }

  // ----- XCD remap (tutorial 09) -----

  function XcdRemap(xcds: nat, sms: nat, pid: nat): nat
    requires xcds > 0
  {
    if xcds != 1 then pid % xcds * (sms / xcds) + pid / xcds else pid
  }

  lemma Commute(a: nat, b: nat)
    ensures a * b == b * a
  {
  }

  lemma XcdRemapIs(xcds: nat, perXcd: nat, pid: nat)
    requires xcds > 0
    ensures XcdRemap(xcds, xcds * perXcd, pid) == Pair(pid % xcds, pid / xcds, perXcd)
  {
    if xcds == 1 { Unique(pid, 0, 1); } else { Unique(perXcd, 0, xcds); }
  }

  /** The q-th program that the hardware puts on XCD r becomes program q of r's own range. */
  lemma XcdPlace(xcds: nat, perXcd: nat, q: nat, r: nat)
    requires r < xcds
    ensures XcdRemap(xcds, xcds * perXcd, q * xcds + r) == r * perXcd + q
  {
    XcdRemapIs(xcds, perXcd, q * xcds + r);
    hide XcdRemap;
    Joined(q, r, xcds, 0);
  }

  /** With NUM_XCDS dividing NUM_SMS the remap is a permutation of the program ids. */
  lemma XcdRemapInverse(xcds: nat, perXcd: nat, pid: nat)
    requires xcds > 0 && pid < xcds * perXcd
    ensures XcdRemap(xcds, xcds * perXcd, pid) < xcds * perXcd
    ensures XcdRemap(perXcd, xcds * perXcd, XcdRemap(xcds, xcds * perXcd, pid)) == pid
  {
    hide XcdRemap, Pair;
    assert perXcd > 0;
    var q, r := pid / xcds, pid % xcds;
    Commute(xcds, perXcd);
    Split(pid, xcds);
    Joined(q, r, xcds, perXcd);
    Joined(r, q, perXcd, xcds);
    XcdRemapIs(xcds, perXcd, pid);
    XcdRemapIs(perXcd, xcds, Pair(r, q, perXcd));
  }
}
