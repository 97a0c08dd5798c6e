/** The tile loops of Triton-distributed/tutorials/07 to 10: the programs of a launch together
    compute every output tile once, over every k-block once and in order. */
module TileSchedule {
  import opened DivMod
  import opened TileMap

  // ----- From tile ids to output tiles -----

  /** The AllGather GEMM of tutorial 07, the GEMM ReduceScatter of tutorial 08, and the chunked
      kernels of tutorials 09 (`shift` is the rank) and 10 (the rank plus 1). */
  datatype Kernel =
    | Gather(grid: Grid, ranks: Ranks, rank: nat)
    | Scatter(grid: Grid, ranks: Ranks, rank: nat)
    | Chunked(grid: Grid, chunks: Chunks, shift: nat)

  /** The rows divide as each kernel's caller sees to; tutorial 07 does not need it on one node. */
  predicate Fits(k: Kernel) {
    && k.grid.group > 0
    && match k
       case Gather(g, r, rank) => SomeRanks(r) && rank < r.nodes * r.local && (r.nodes == 1 || g.m == Rows(r))
       case Scatter(g, r, rank) => SomeRanks(r) && rank < r.nodes * r.local && g.m == Rows(r)
       case Chunked(g, c, _) => SomeChunks(c) && g.m == ChunkRows(c)
  }

  function TotalTiles(k: Kernel): nat {
    k.grid.m * k.grid.n
  }

  function SwizzleRow(k: Kernel, row: nat): nat
    requires Fits(k) && row < k.grid.m
  {
    match k
    case Gather(g, r, rank) => GatherSwizzle(r, g.m, rank, row)
    case Scatter(g, r, rank) => NodeRankSwizzle(r, rank / r.local + 1, rank + 1, row)
    case Chunked(_, c, shift) => ChunkSwizzle(c, shift, row)
  }

  function UnswizzleRow(k: Kernel, row: nat): nat
    requires Fits(k) && row < k.grid.m
  {
    match k
    case Gather(g, r, rank) =>
      if r.nodes == 1 then Unrotate(row, rank % (r.nodes * r.local) * r.perRank, g.m)
      else NodeRankSwizzle(r, r.nodes - rank / r.local % r.nodes, r.local - rank % r.local, row)
    case Scatter(_, r, rank) =>
      NodeRankSwizzle(r, r.nodes - (rank / r.local + 1) % r.nodes, r.local - (rank + 1) % r.local, row)
    case Chunked(_, c, shift) => ChunkUnswizzle(c, shift, row)
  }

  lemma GatherRowInverse(k: Kernel, row: nat)
    requires Fits(k) && row < k.grid.m && k.Gather?
    ensures SwizzleRow(k, row) < k.grid.m && UnswizzleRow(k, SwizzleRow(k, row)) == row
    ensures UnswizzleRow(k, row) < k.grid.m && SwizzleRow(k, UnswizzleRow(k, row)) == row
  {
    var r, rank := k.ranks, k.rank;
    if r.nodes == 1 {
      RotateInverse(row, rank % (r.nodes * r.local) * r.perRank, k.grid.m);
    } else {
      SwizzleInverse(r, rank / r.local, rank, row);
    }
    hide Rotate, NodeRankSwizzle, Rows, Unrotate;
  }

  lemma ScatterRowInverse(k: Kernel, row: nat)
    requires Fits(k) && row < k.grid.m && k.Scatter?
    ensures SwizzleRow(k, row) < k.grid.m && UnswizzleRow(k, SwizzleRow(k, row)) == row
    ensures UnswizzleRow(k, row) < k.grid.m && SwizzleRow(k, UnswizzleRow(k, row)) == row
  {
    SwizzleInverse(k.ranks, k.rank / k.ranks.local + 1, k.rank + 1, row);
    hide Rotate, NodeRankSwizzle, Rows, Unrotate, GatherSwizzle;
  }

  lemma ChunkedRowInverse(k: Kernel, row: nat)
    requires Fits(k) && row < k.grid.m && k.Chunked?
    ensures SwizzleRow(k, row) < k.grid.m && UnswizzleRow(k, SwizzleRow(k, row)) == row
    ensures UnswizzleRow(k, row) < k.grid.m && SwizzleRow(k, UnswizzleRow(k, row)) == row
  {
    ChunkSwizzleInverse(k.chunks, k.shift, row);
    ChunkUnswizzleInverse(k.chunks, k.shift, row);
    hide ChunkSwizzle, ChunkUnswizzle, ChunkRows;
  }

  lemma SwizzleRowInverse(k: Kernel, row: nat)
    requires Fits(k) && row < k.grid.m
    ensures SwizzleRow(k, row) < k.grid.m && UnswizzleRow(k, SwizzleRow(k, row)) == row
    ensures UnswizzleRow(k, row) < k.grid.m && SwizzleRow(k, UnswizzleRow(k, row)) == row
  {
    hide SwizzleRow, UnswizzleRow, Fits;
    match k
    case Gather(_, _, _) => GatherRowInverse(k, row);
    case Scatter(_, _, _) => ScatterRowInverse(k, row);
    case Chunked(_, _, _) => ChunkedRowInverse(k, row);
  }

  /** The output tile of a tile id, swizzled. */
  function Place(k: Kernel, id: nat): (nat, nat)
    requires Fits(k) && id < TotalTiles(k)
  {
    GroupedIsTile(k.grid, id, !k.Chunked?);
    var tile := Grouped(k.grid, id, !k.Chunked?);
    (SwizzleRow(k, tile.0), tile.1)
  }

  /** How each kernel groups and swizzles. */
  lemma PlaceIs(k: Kernel, id: nat)
    requires Fits(k) && id < TotalTiles(k)
    ensures k.grid.group > 0 && id < k.grid.m * k.grid.n
    ensures k.Gather? ==> var (row, col) := Grouped(k.grid, id, true);
      k.grid.m > 0 && Place(k, id) == (GatherSwizzle(k.ranks, k.grid.m, k.rank, row), col)
    ensures k.Scatter? ==> var (row, col) := Grouped(k.grid, id, true);
      Place(k, id) == (NodeRankSwizzle(k.ranks, k.rank / k.ranks.local + 1, k.rank + 1, row), col)
    ensures k.Chunked? ==> var (row, col) := Grouped(k.grid, id, false);
      Place(k, id) == (ChunkSwizzle(k.chunks, k.shift, row), col)
  {
    GroupedIsTile(k.grid, id, !k.Chunked?);
    hide Grouped, GatherSwizzle, NodeRankSwizzle, ChunkSwizzle, Ungrouped;
  }

  function Unplace(k: Kernel, tile: (nat, nat)): nat
    requires Fits(k) && GridTile(k.grid, tile)
  {
    SwizzleRowInverse(k, tile.0);
    Ungrouped(k.grid, (UnswizzleRow(k, tile.0), tile.1), !k.Chunked?)
  }

  /** Grouping and swizzle together are a bijection from tile ids to output tiles. */
  lemma PlaceIsTile(k: Kernel, id: nat)
    requires Fits(k) && id < TotalTiles(k)
    ensures GridTile(k.grid, Place(k, id)) && Unplace(k, Place(k, id)) == id
  {
    GroupedIsTile(k.grid, id, !k.Chunked?);
    var tile := Grouped(k.grid, id, !k.Chunked?);
    SwizzleRowInverse(k, tile.0);
    hide Grouped, Ungrouped, SwizzleRow, UnswizzleRow;
  }

  lemma TileIsPlaced(k: Kernel, tile: (nat, nat))
    requires Fits(k) && GridTile(k.grid, tile)
    ensures Unplace(k, tile) < TotalTiles(k) && Place(k, Unplace(k, tile)) == tile
  {
    SwizzleRowInverse(k, tile.0);
    TileIsGrouped(k.grid, (UnswizzleRow(k, tile.0), tile.1), !k.Chunked?);
    hide Grouped, Ungrouped, SwizzleRow, UnswizzleRow;
  }

  // ----- The tile ids of one program -----

  function TilesPerSm(pid: nat, numSms: nat, tiles: nat): nat
    requires numSms > 0
  {
    tiles / numSms + if pid < tiles % numSms then 1 else 0
  }

  function Ids(pid: nat, numSms: nat, tiles: nat): (ids: seq<nat>)
    requires numSms > 0
    ensures |ids| == TilesPerSm(pid, numSms, tiles)
  {
    seq(TilesPerSm(pid, numSms, tiles), (j: nat) => pid + j * numSms)
  }

  lemma IdsNext(pid: nat, numSms: nat, tiles: nat, j: nat)
    requires numSms > 0 && j < |Ids(pid, numSms, tiles)|
    ensures var ids := Ids(pid, numSms, tiles); ids[j] == if j == 0 then pid else ids[j - 1] + numSms
  {
    assert j * numSms == (j - 1) * numSms + numSms;
  }

  /** The count is right: one more stride would leave the tiles. */
  lemma InStride(pid: nat, numSms: nat, tiles: nat, j: nat)
    requires pid < numSms
    ensures j < TilesPerSm(pid, numSms, tiles) <==> pid + j * numSms < tiles
  {
    var q, r := tiles / numSms, tiles % numSms;
    Split(tiles, numSms);
    MulStep(j, q, numSms);
    MulStep(q, j, numSms);
  }

  // ----- What a program computes -----

  /** The accumulator of an output tile after the first `n` k-blocks; `dot` adds one block. */
  function Partial<A>(dot: (A, nat, nat, nat) -> A, zero: A, tile: (nat, nat), n: nat): A {
    if n == 0 then zero else dot(Partial(dot, zero, tile, n - 1), tile.0, tile.1, n - 1)
  }

  /** What is stored when the tiles of `ids` are done. */
  function Stored<A>(k: Kernel, dot: (A, nat, nat, nat) -> A, zero: A, kTiles: nat, ids: seq<nat>): map<(nat, nat), A>
    requires Fits(k) && forall i :: 0 <= i < |ids| ==> ids[i] < TotalTiles(k)
  {
    if ids == [] then map[]
    else
      var n := |ids| - 1;
      var tile := Place(k, ids[n]);
      Stored(k, dot, zero, kTiles, ids[..n])[tile := Partial(dot, zero, tile, kTiles)]
  }

  lemma StoredNext<A>(k: Kernel, dot: (A, nat, nat, nat) -> A, zero: A, kTiles: nat, ids: seq<nat>, j: nat)
    requires Fits(k) && (forall i :: 0 <= i < |ids| ==> ids[i] < TotalTiles(k)) && j < |ids|
    ensures var tile := Place(k, ids[j]);
      Stored(k, dot, zero, kTiles, ids[..j + 1])
        == Stored(k, dot, zero, kTiles, ids[..j])[tile := Partial(dot, zero, tile, kTiles)]
  {
    assert ids[..j + 1][..j] == ids[..j];
    hide Place, Partial;
  }

  lemma IdsBelow(pid: nat, numSms: nat, tiles: nat)
    requires pid < numSms
    ensures forall j :: 0 <= j < |Ids(pid, numSms, tiles)| ==> Ids(pid, numSms, tiles)[j] < tiles
  {
    forall j | 0 <= j < |Ids(pid, numSms, tiles)| ensures Ids(pid, numSms, tiles)[j] < tiles {
      InStride(pid, numSms, tiles, j);
    }
  }

  /** Where the flattened loop stands after `it` rounds: k-block `ki` of tile number `j`. */
  ghost predicate Progress<A>(k: Kernel, dot: (A, nat, nat, nat) -> A, zero: A, kTiles: nat, ids: seq<nat>, it: nat,
                              j: int, ki: int, tile: (nat, nat), acc: A, out: map<(nat, nat), A>)
    requires Fits(k) && forall i :: 0 <= i < |ids| ==> ids[i] < TotalTiles(k)
  {
    if it == 0 then j == ki == -1 && acc == zero && out == map[]
    else
      && 0 <= ki < kTiles && 0 <= j < |ids| && it == j * kTiles + ki + 1 && tile == Place(k, ids[j])
      && acc == (if ki == kTiles - 1 then zero else Partial(dot, zero, tile, ki + 1))
      && out == Stored(k, dot, zero, kTiles, ids[..if ki == kTiles - 1 then j + 1 else j])
  }

  /** The loop moves on only while tiles are left. */
  lemma NextTile(kTiles: nat, tiles: nat, j: int, ki: int, it: nat)
    requires it < kTiles * tiles && -1 <= ki < kTiles && -1 <= j < tiles
    requires if it == 0 then j == ki == -1 else 0 <= ki && 0 <= j && it == j * kTiles + ki + 1
    ensures kTiles > 0 && tiles > 0
    ensures var ki', j' := if ki == kTiles - 1 then 0 else ki + 1, if ki == kTiles - 1 || ki == -1 then j + 1 else j;
      j' < tiles && it + 1 == j' * kTiles + ki' + 1
  {
    assert kTiles > 0 && tiles > 0;
    assert (j + 1) * kTiles == j * kTiles + kTiles;
    if j + 1 >= tiles { MulMono(tiles, j + 1, kTiles); }
  }

  lemma ProgressNext<A>(k: Kernel, dot: (A, nat, nat, nat) -> A, zero: A, kTiles: nat, ids: seq<nat>, it: nat,
                        j: int, ki: int, tile: (nat, nat), acc: A, out: map<(nat, nat), A>)
    returns (j': nat, ki': nat)
    requires Fits(k) && (forall i :: 0 <= i < |ids| ==> ids[i] < TotalTiles(k)) && it < kTiles * |ids|
    requires Progress(k, dot, zero, kTiles, ids, it, j, ki, tile, acc, out)
    ensures kTiles > 0 && ki' == (if ki == kTiles - 1 then 0 else ki + 1)
    ensures j' == (if ki' == 0 then j + 1 else j) < |ids|
    ensures var tile' := if ki' == 0 then Place(k, ids[j']) else tile;
      var acc' := dot(acc, tile'.0, tile'.1, ki');
      Progress(k, dot, zero, kTiles, ids, it + 1, j', ki', tile', if ki' == kTiles - 1 then zero else acc',
               if ki' == kTiles - 1 then out[tile' := acc'] else out)
  {
    hide Place, Stored, Partial, Fits, TotalTiles;
    NextTile(kTiles, |ids|, j, ki, it);
    ki' := if ki == kTiles - 1 then 0 else ki + 1;
    j' := if ki' == 0 then j + 1 else j;
    var tile' := Place(k, ids[j']);
    PartialNext(dot, zero, tile', ki');
    StoredNext(k, dot, zero, kTiles, ids, j');
    NothingStored(k, dot, zero, kTiles);
    assert ids[..0] == [];
  }

  lemma LastTile(kTiles: nat, tiles: nat, j: nat, ki: nat)
    requires ki < kTiles && kTiles * tiles == j * kTiles + ki + 1
    ensures j == tiles - 1 && ki == kTiles - 1
  {
    assert tiles > 0;
    assert (tiles - 1) * kTiles + (kTiles - 1) == j * kTiles + ki;
    Unique(j, ki, kTiles);
    Unique(tiles - 1, kTiles - 1, kTiles);
  }

  lemma ProgressDone<A>(k: Kernel, dot: (A, nat, nat, nat) -> A, zero: A, kTiles: nat, ids: seq<nat>,
                        j: int, ki: int, tile: (nat, nat), acc: A, out: map<(nat, nat), A>)
    requires Fits(k) && forall i :: 0 <= i < |ids| ==> ids[i] < TotalTiles(k)
    ensures Progress(k, dot, zero, kTiles, ids, kTiles * |ids|, j, ki, tile, acc, out) ==>
      out == if kTiles == 0 then map[] else Stored(k, dot, zero, kTiles, ids)
  {
    hide Place, Partial, Fits, TotalTiles, Stored;
    NothingStored(k, dot, zero, kTiles);
    if Progress(k, dot, zero, kTiles, ids, kTiles * |ids|, j, ki, tile, acc, out) {
      if kTiles * |ids| == 0 {
        assert kTiles == 0 || ids == [];
      } else {
        LastTile(kTiles, |ids|, j, ki);
        assert ids[..|ids|] == ids;
      }
    }
  }

  /** The flattened loop of tutorials 07 and 08: one loop over k-blocks of tiles, that moves to
      the program's next tile whenever the k-blocks wrap around. */
  method PersistentGemm<A>(k: Kernel, dot: (A, nat, nat, nat) -> A, zero: A, kTiles: nat, startPid: nat, numSms: nat)
    returns (out: map<(nat, nat), A>)
    requires Fits(k) && !k.Chunked? && startPid < numSms
    ensures var ids := Ids(startPid, numSms, TotalTiles(k));
      && (forall i :: 0 <= i < |ids| ==> ids[i] < TotalTiles(k))
      && out == if kTiles == 0 then map[] else Stored(k, dot, zero, kTiles, ids)
  {
    var numTiles := TotalTiles(k);
    var tilesPerSm := numTiles / numSms;
    if startPid < numTiles % numSms { tilesPerSm := tilesPerSm + 1; }
    ghost var ids := Ids(startPid, numSms, numTiles);
    IdsBelow(startPid, numSms, numTiles);
    assert tilesPerSm == |ids|;
    hide Place, Ids, TilesPerSm, Stored, Partial, Fits, TotalTiles;
    var tileId, ki, tile, accumulator := startPid - numSms, -1, (0, 0), zero;
    out := map[];
    ghost var j := -1;
    for it := 0 to kTiles * tilesPerSm
      invariant -1 <= j < |ids| && tileId == if j < 0 then startPid - numSms else ids[j]
      invariant Progress(k, dot, zero, kTiles, ids, it, j, ki, tile, accumulator, out)
    {
      ghost var j', ki' := ProgressNext(k, dot, zero, kTiles, ids, it, j, ki, tile, accumulator, out);
      hide Progress;
      ki := if ki == kTiles - 1 then 0 else ki + 1;
      if ki == 0 {
        IdsNext(startPid, numSms, numTiles, j');
        tileId := tileId + numSms;
        tile := Place(k, tileId);
      }
      j := j';
      accumulator := dot(accumulator, tile.0, tile.1, ki);
      if ki == kTiles - 1 {
        out := out[tile := accumulator];
        accumulator := zero;
      }
    }
    ProgressDone(k, dot, zero, kTiles, ids, j, ki, tile, accumulator, out);
  }

  lemma NothingStored<A>(k: Kernel, dot: (A, nat, nat, nat) -> A, zero: A, kTiles: nat)
    requires Fits(k)
    ensures Stored(k, dot, zero, kTiles, []) == map[]
  {
  }

  lemma PartialNext<A>(dot: (A, nat, nat, nat) -> A, zero: A, tile: (nat, nat), n: nat)
    ensures Partial(dot, zero, tile, 0) == zero
    ensures Partial(dot, zero, tile, n + 1) == dot(Partial(dot, zero, tile, n), tile.0, tile.1, n)
  {
  }

  /** The loop of tutorial 09: the remapped program walks over its tiles, and each over its
      k-blocks. */
  method ConsumerGemm<A>(k: Kernel, dot: (A, nat, nat, nat) -> A, zero: A, kTiles: nat, programId: nat, xcds: nat,
                  numSms: nat)
    returns (out: map<(nat, nat), A>)
    requires Fits(k) && k.Chunked? && xcds > 0 && numSms % xcds == 0 && programId < numSms
    ensures XcdRemap(xcds, numSms, programId) < numSms
    ensures var ids := Ids(XcdRemap(xcds, numSms, programId), numSms, TotalTiles(k));
      (forall i :: 0 <= i < |ids| ==> ids[i] < TotalTiles(k)) && out == Stored(k, dot, zero, kTiles, ids)
  {
    hide Place, Stored, Partial, Fits;
    RemapInRange(xcds, numSms, programId);
    var pid := if xcds != 1 then programId % xcds * (numSms / xcds) + programId / xcds else programId;
    assert pid == XcdRemap(xcds, numSms, programId);
    hide XcdRemap, Ids, TilesPerSm;
    ghost var ids := Ids(pid, numSms, TotalTiles(k));
    IdsBelow(pid, numSms, TotalTiles(k));
    hide TotalTiles;
    var tileId := pid;
    out := map[];
    ghost var j := 0;
    assert ids[..0] == [];
    NothingStored(k, dot, zero, kTiles);
    MoreIds(pid, numSms, TotalTiles(k), 0, pid);
    while tileId < TotalTiles(k)
      invariant 0 <= j <= |ids| && (j < |ids| <==> tileId < TotalTiles(k)) && (j < |ids| ==> tileId == ids[j])
      invariant out == Stored(k, dot, zero, kTiles, ids[..j])
      decreases |ids| - j
    {
      var tile := Place(k, tileId);
      var acc := zero;
      PartialNext(dot, zero, tile, 0);
      for kb := 0 to kTiles
        invariant acc == Partial(dot, zero, tile, kb)
      {
        PartialNext(dot, zero, tile, kb);
        acc := dot(acc, tile.0, tile.1, kb);
      }
      StoredNext(k, dot, zero, kTiles, ids, j);
      out := out[tile := acc];
      MoreIds(pid, numSms, TotalTiles(k), j + 1, tileId + numSms);
      tileId := tileId + numSms;
      j := j + 1;
    }
    assert ids[..|ids|] == ids;
  }

  lemma RemapInRange(xcds: nat, numSms: nat, programId: nat)
    requires xcds > 0 && numSms % xcds == 0 && programId < numSms
    ensures XcdRemap(xcds, numSms, programId) < numSms
  {
    hide XcdRemap;
    Split(numSms, xcds);
    XcdRemapInverse(xcds, numSms / xcds, programId);
  }

  lemma MoreIds(pid: nat, numSms: nat, tiles: nat, j: nat, next: nat)
    requires pid < numSms
    requires j <= |Ids(pid, numSms, tiles)| && next == if j == 0 then pid else Ids(pid, numSms, tiles)[j - 1] + numSms
    ensures j < |Ids(pid, numSms, tiles)| <==> next < tiles
    ensures j < |Ids(pid, numSms, tiles)| ==> Ids(pid, numSms, tiles)[j] == next
  {
    InStride(pid, numSms, tiles, j);
    assert j * numSms == (j - 1) * numSms + numSms;
  }

  // ----- Every output tile once -----

  /** Every tile id is in the stride of exactly one program, once. */
  lemma IdOwner(numSms: nat, tiles: nat, id: nat, pid: nat, j: nat)
    requires pid < numSms && id < tiles
    ensures j < |Ids(pid, numSms, tiles)| && Ids(pid, numSms, tiles)[j] == id
       <==> pid == id % numSms && j == id / numSms
  {
    Split(id, numSms);
    InStride(pid, numSms, tiles, j);
    Unique(j, pid, numSms);
  }

  /** What a program has stored: its own tiles, each with all its k-blocks. */
  lemma {:induction false} StoredIs<A>(k: Kernel, dot: (A, nat, nat, nat) -> A, zero: A, kTiles: nat, ids: seq<nat>)
    requires Fits(k) && forall i :: 0 <= i < |ids| ==> ids[i] < TotalTiles(k)
    ensures var out := Stored(k, dot, zero, kTiles, ids);
      && (forall tile :: tile in out ==>
            GridTile(k.grid, tile) && Unplace(k, tile) in ids && out[tile] == Partial(dot, zero, tile, kTiles))
      && (forall id :: id in ids ==> Place(k, id) in out)
  {
    if ids != [] {
      var n := |ids| - 1;
      StoredIs(k, dot, zero, kTiles, ids[..n]);
      PlaceIsTile(k, ids[n]);
      assert ids == ids[..n] + [ids[n]];
      hide Place, Unplace, Partial, Fits, TotalTiles, GridTile;
    }
  }

  /** A program never computes a tile twice. */
  lemma NeverTwice(k: Kernel, numSms: nat, pid: nat, i: nat, j: nat)
    requires Fits(k) && pid < numSms && i < j < |Ids(pid, numSms, TotalTiles(k))|
    ensures var ids := Ids(pid, numSms, TotalTiles(k));
      ids[i] < TotalTiles(k) && ids[j] < TotalTiles(k) && Place(k, ids[i]) != Place(k, ids[j])
  {
    hide Ids, Place, Unplace, TilesPerSm, Fits;
    var ids := Ids(pid, numSms, TotalTiles(k));
    IdsBelow(pid, numSms, TotalTiles(k));
    hide TotalTiles;
    IdOwner(numSms, TotalTiles(k), ids[j], pid, i);
    IdOwner(numSms, TotalTiles(k), ids[j], pid, j);
    PlaceIsTile(k, ids[i]);
    PlaceIsTile(k, ids[j]);
  }

  /** The programs of a launch together compute every output tile exactly once: each tile is
      stored by exactly one program, with all its k-blocks. */
  lemma EveryTileOnce<A>(k: Kernel, dot: (A, nat, nat, nat) -> A, zero: A, kTiles: nat, numSms: nat, tile: (nat, nat),
                  pid: nat)
    requires Fits(k) && GridTile(k.grid, tile) && pid < numSms
    ensures var ids := Ids(pid, numSms, TotalTiles(k));
      && (forall i :: 0 <= i < |ids| ==> ids[i] < TotalTiles(k))
      && var out := Stored(k, dot, zero, kTiles, ids);
         && (tile in out <==> pid == Unplace(k, tile) % numSms)
         && (tile in out ==> out[tile] == Partial(dot, zero, tile, kTiles))
  {
    hide Fits, Ids, Place, Unplace, Stored, Partial, TilesPerSm;
    var tiles := TotalTiles(k);
    hide TotalTiles;
    var ids, id := Ids(pid, numSms, tiles), Unplace(k, tile);
    IdsBelow(pid, numSms, tiles);
    TileIsPlaced(k, tile);
    StoredIs(k, dot, zero, kTiles, ids);
    OwnsId(numSms, tiles, id, pid);
  }

  lemma OwnsId(numSms: nat, tiles: nat, id: nat, pid: nat)
    requires pid < numSms && id < tiles
    ensures id in Ids(pid, numSms, tiles) <==> pid == id % numSms
  {
    hide Ids, TilesPerSm;
    var ids := Ids(pid, numSms, tiles);
    forall j: nat | j < |ids| ensures ids[j] == id ==> pid == id % numSms {
      IdOwner(numSms, tiles, id, pid, j);
    }
    if pid == id % numSms {
      IdOwner(numSms, tiles, id, pid, id / numSms);
    }
  }
}
