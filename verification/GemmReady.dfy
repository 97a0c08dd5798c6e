/** Readiness of the GEMM ReduceScatter producer, Triton-distributed/tutorials/
    08-overlapping-gemm-reduce-scatter.py: the programs of the persistent kernel interleave, each
    storing its tiles and counting them per owner rank; whoever stores a rank's last tile
    notifies the rank's barrier. */
module GemmReady {
  import opened Counting
  import opened DivMod
  import opened TileMap
  import opened TileSchedule

  ghost predicate Ready(k: Kernel) {
    k.Scatter? && Fits(k) && k.grid.n > 0
  }

  function RankCount(k: Kernel): nat
    requires k.Scatter?
  {
    k.ranks.nodes * k.ranks.local
  }

  /** The rank that the rows of a tile belong to. */
  function Owner(k: Kernel, id: nat): nat
    requires Fits(k) && k.Scatter? && id < TotalTiles(k)
  {
    Place(k, id).0 / k.ranks.perRank
  }

  /** The loop over `counter_id` runs once, for the owner: tiles do not straddle ranks. */
  lemma CounterRange(pidM: nat, perRank: nat, blockM: nat)
    requires perRank > 0 && blockM > 0
    ensures perRank * blockM > 0
    ensures pidM * blockM / (perRank * blockM) == pidM / perRank
    ensures (pidM * blockM + blockM - 1) / (perRank * blockM) == pidM / perRank
  {
    var q, r := pidM / perRank, pidM % perRank;
    Split(pidM, perRank);
    MulMono(1, perRank, blockM);
    MulStep(r, perRank, blockM);
    assert pidM * blockM == q * (perRank * blockM) + r * blockM;
    Unique(q, r * blockM, perRank * blockM);
    Unique(q, r * blockM + (blockM - 1), perRank * blockM);
  }

  /** `tiled_m_size` is the number of tile rows of a rank. */
  lemma TiledMSize(c: nat, perRank: nat, blockM: nat)
    requires perRank > 0 && blockM > 0
    ensures perRank * blockM * (c + 1) > 0
    ensures (perRank * blockM * (c + 1) - 1) / blockM - perRank * blockM * c / blockM + 1 == perRank
  {
    MulMono(1, perRank, blockM);
    assert perRank * blockM * c == perRank * c * blockM;
    assert perRank * blockM * (c + 1) == (perRank * c + perRank) * blockM;
    assert perRank * blockM * (c + 1) - 1 == (perRank * c + perRank - 1) * blockM + (blockM - 1);
    Unique(perRank * c, 0, blockM);
    Unique(perRank * c + perRank - 1, blockM - 1, blockM);
    MulMono(1, c + 1, perRank * blockM);
  }

  /** `tiled_m_size * tiled_n`. */
  function Full(k: Kernel): nat
    requires k.Scatter?
  {
    k.ranks.perRank * k.grid.n
  }

  // ----- How many tiles a rank owns -----

  ghost function Owned(k: Kernel, ids: set<nat>, r: nat): set<nat>
    requires Fits(k) && k.Scatter?
  {
    set id | id in ids && id < TotalTiles(k) && Owner(k, id) == r
  }

  function TileOf(k: Kernel, r: nat, i: nat): (nat, nat)
    requires k.Scatter? && k.grid.n > 0
  {
    (r * k.ranks.perRank + i / k.grid.n, i % k.grid.n)
  }

  lemma TileOfOwned(k: Kernel, r: nat, i: nat)
    requires Ready(k) && r < RankCount(k) && i < Full(k)
    ensures GridTile(k.grid, TileOf(k, r, i)) && TileOf(k, r, i).0 / k.ranks.perRank == r
  {
    Split(i, k.grid.n);
    if k.ranks.perRank <= i / k.grid.n { MulMono(k.ranks.perRank, i / k.grid.n, k.grid.n); }
    Joined(r, i / k.grid.n, k.ranks.perRank, RankCount(k));
  }

  function OwnedIds(k: Kernel, r: nat, n: nat): (ids: seq<nat>)
    requires Ready(k) && r < RankCount(k) && n <= Full(k)
    ensures |ids| == n
  {
    if n == 0 then []
    else
      TileOfOwned(k, r, n - 1);
      OwnedIds(k, r, n - 1) + [Unplace(k, TileOf(k, r, n - 1))]
  }

  lemma {:induction false} OwnedIdsAt(k: Kernel, r: nat, n: nat, i: nat)
    requires Ready(k) && r < RankCount(k) && i < n <= Full(k)
    ensures var id := OwnedIds(k, r, n)[i];
      id < TotalTiles(k) && Place(k, id) == TileOf(k, r, i) && Owner(k, id) == r
  {
    hide Place, Unplace, Fits, TotalTiles, Full;
    if i == n - 1 {
      TileOfOwned(k, r, i);
      TileIsPlaced(k, TileOf(k, r, i));
    } else {
      OwnedIdsAt(k, r, n - 1, i);
    }
  }

  /** Which of its owner's tiles a tile is. */
  lemma OwnedTile(k: Kernel, id: nat) returns (i: nat)
    requires Ready(k) && id < TotalTiles(k)
    ensures Owner(k, id) < RankCount(k) && i < Full(k) && TileOf(k, Owner(k, id), i) == Place(k, id)
  {
    var r, tile := Owner(k, id), Place(k, id);
    PlaceIsTile(k, id);
    Split(tile.0, k.ranks.perRank);
    var y := tile.0 % k.ranks.perRank;
    Joined(r, y, k.ranks.perRank, RankCount(k));
    i := Pair(y, tile.1, k.grid.n);
    Joined(y, tile.1, k.grid.n, k.ranks.perRank);
    hide Place, Unplace;
  }

  lemma OwnedHasIndex(k: Kernel, id: nat)
    requires Ready(k) && id < TotalTiles(k)
    ensures Owner(k, id) < RankCount(k) && id in OwnedIds(k, Owner(k, id), Full(k))
  {
    hide Place, Unplace, Fits, TotalTiles, Full, TileOf;
    var i := OwnedTile(k, id);
    OwnedIdsAt(k, Owner(k, id), Full(k), i);
    PlaceIsTile(k, id);
    PlaceIsTile(k, OwnedIds(k, Owner(k, id), Full(k))[i]);
    hide OwnedIds;
  }

  /** Each rank owns `tiled_m_size * tiled_n` tiles. */
  lemma OwnedCount(k: Kernel, r: nat)
    requires Ready(k) && r < RankCount(k)
    ensures |Owned(k, Naturals(TotalTiles(k)), r)| == Full(k)
  {
    hide Place, Unplace, Fits, TotalTiles, Full, Owner, OwnedIds, RankCount;
    var ids := OwnedIds(k, r, Full(k));
    NaturalsAre(TotalTiles(k));
    forall i | 0 <= i < |ids|
      ensures ids[i] < TotalTiles(k) && Owner(k, ids[i]) == r && Place(k, ids[i]) == TileOf(k, r, i)
    {
      OwnedIdsAt(k, r, Full(k), i);
    }
    forall i | 0 <= i < |ids| ensures ids[i] !in ids[..i] {
      forall j | 0 <= j < i ensures ids[j] != ids[i] { TileOfDiffers(k, r, i, j); }
    }
    DistinctCount(ids);
    forall id: nat | id < TotalTiles(k) && Owner(k, id) == r ensures id in Elems(ids) { OwnedHasIndex(k, id); }
    assert Owned(k, Naturals(TotalTiles(k)), r) == Elems(ids);
  }

  lemma TileOfDiffers(k: Kernel, r: nat, i: nat, j: nat)
    requires k.Scatter? && k.grid.n > 0 && i != j
    ensures TileOf(k, r, i) != TileOf(k, r, j)
  {
    Split(i, k.grid.n);
    Split(j, k.grid.n);
  }

  // ----- The programs -----

  /** A program works on its tile number `j`: computing it, having stored it, or having added 1
      to the owner's counter and seen `val` there before. */
  datatype Stage = Computing | Stored | Added(val: nat)
  datatype Prog = Prog(j: nat, stage: Stage)

  /** `stored` and `added` are the tile ids stored and counted so far; `notified` counts the
      notifications of each rank's barrier. */
  datatype State = State(progs: seq<Prog>, stored: set<nat>, added: set<nat>, counter: seq<nat>, notified: seq<nat>)

  function Home(id: nat, numSms: nat): (p: nat)
    requires numSms > 0
    ensures p < numSms
  {
    id % numSms
  }

  function Turn(id: nat, numSms: nat): nat
    requires numSms > 0
  {
    id / numSms
  }

  function ProgIds(k: Kernel, numSms: nat, p: nat): seq<nat>
    requires numSms > 0
  {
    Ids(p, numSms, TotalTiles(k))
  }

  /** `id` is tile number `j` of program `p`. */
  lemma HomeAndTurn(k: Kernel, numSms: nat, p: nat, j: nat)
    requires p < numSms && j < |ProgIds(k, numSms, p)|
    ensures var id := ProgIds(k, numSms, p)[j];
      id < TotalTiles(k) && Home(id, numSms) == p && Turn(id, numSms) == j
  {
    IdsBelow(p, numSms, TotalTiles(k));
    IdOwner(numSms, TotalTiles(k), ProgIds(k, numSms, p)[j], p, j);
  }

  lemma HasTurn(k: Kernel, numSms: nat, id: nat)
    requires numSms > 0 && id < TotalTiles(k)
    ensures var p, j := Home(id, numSms), Turn(id, numSms);
      p < numSms && j < |ProgIds(k, numSms, p)| && ProgIds(k, numSms, p)[j] == id
  {
    IdOwner(numSms, TotalTiles(k), id, id % numSms, id / numSms);
  }

  ghost predicate Shape(k: Kernel, numSms: nat, s: State) {
    && Ready(k) && numSms > 0 && |s.progs| == numSms && |s.counter| == |s.notified| == RankCount(k)
    && forall p :: 0 <= p < numSms ==>
         && s.progs[p].j <= |ProgIds(k, numSms, p)|
         && (s.progs[p].j == |ProgIds(k, numSms, p)| ==> s.progs[p].stage == Computing)
  }

  ghost predicate Busy(k: Kernel, numSms: nat, s: State, p: nat) {
    Shape(k, numSms, s) && p < numSms && s.progs[p].j < |ProgIds(k, numSms, p)|
  }

  ghost function Current(k: Kernel, numSms: nat, s: State, p: nat): nat
    requires Busy(k, numSms, s, p)
  {
    ProgIds(k, numSms, p)[s.progs[p].j]
  }

  lemma CurrentIs(k: Kernel, numSms: nat, s: State, p: nat)
    requires Busy(k, numSms, s, p)
    ensures var id := Current(k, numSms, s, p);
      id < TotalTiles(k) && Home(id, numSms) == p && Turn(id, numSms) == s.progs[p].j && Owner(k, id) < RankCount(k)
  {
    HomeAndTurn(k, numSms, p, s.progs[p].j);
    OwnedHasIndex(k, Current(k, numSms, s, p));
  }

  /** One step of program `p`: the store, the atomic add, or the rest of the loop body. */
  ghost function Next(k: Kernel, numSms: nat, s: State, p: nat): State
    requires Busy(k, numSms, s, p)
  {
    CurrentIs(k, numSms, s, p);
    var id, j := Current(k, numSms, s, p), s.progs[p].j;
    var r := Owner(k, id);
    match s.progs[p].stage
    case Computing => s.(progs := s.progs[p := Prog(j, Stored)], stored := s.stored + {id})
    case Stored =>
      s.(progs := s.progs[p := Prog(j, Added(s.counter[r]))], added := s.added + {id},
         counter := s.counter[r := s.counter[r] + 1])
    case Added(val) =>
      s.(progs := s.progs[p := Prog(j + 1, Computing)],
         notified := if val == Full(k) - 1 then s.notified[r := s.notified[r] + 1] else s.notified)
  }

  ghost predicate Initial(k: Kernel, numSms: nat, s: State) {
    && Shape(k, numSms, s) && s.stored == s.added == {}
    && (forall p :: 0 <= p < numSms ==> s.progs[p] == Prog(0, Computing))
    && (forall r :: 0 <= r < RankCount(k) ==> s.counter[r] == s.notified[r] == 0)
  }

  // ----- Invariant -----

  ghost predicate HasStored(s: State, numSms: nat, id: nat)
    requires |s.progs| == numSms > 0
  {
    var p := s.progs[Home(id, numSms)];
    p.j > Turn(id, numSms) || (p.j == Turn(id, numSms) && p.stage != Computing)
  }

  ghost predicate HasAdded(s: State, numSms: nat, id: nat)
    requires |s.progs| == numSms > 0
  {
    var p := s.progs[Home(id, numSms)];
    p.j > Turn(id, numSms) || (p.j == Turn(id, numSms) && p.stage.Added?)
  }

  /** The two sets are what the programs' positions say. */
  ghost predicate Positions(k: Kernel, numSms: nat, s: State)
    requires |s.progs| == numSms > 0
  {
    && (forall id: nat :: id in s.stored <==> id < TotalTiles(k) && HasStored(s, numSms, id))
    && (forall id: nat :: id in s.added <==> id < TotalTiles(k) && HasAdded(s, numSms, id))
  }

  ghost predicate Counted(k: Kernel, numSms: nat, s: State)
    requires Shape(k, numSms, s)
  {
    forall r :: 0 <= r < RankCount(k) ==> s.counter[r] == |Owned(k, s.added, r)|
  }

  /** Program `p` is about to notify rank `r`. */
  ghost predicate Pending(k: Kernel, numSms: nat, s: State, p: nat, r: nat) {
    && Busy(k, numSms, s, p) && Current(k, numSms, s, p) < TotalTiles(k)
    && s.progs[p].stage.Added? && s.progs[p].stage.val == Full(k) - 1 && Owner(k, Current(k, numSms, s, p)) == r
  }

  /** Rank `r` has been notified once its counter is full, or exactly one program is about to. */
  ghost predicate Notice(k: Kernel, numSms: nat, s: State, r: nat)
    requires Shape(k, numSms, s) && r < RankCount(k)
  {
    && s.counter[r] <= Full(k)
    && (s.counter[r] < Full(k) ==> s.notified[r] == 0 && forall p: nat :: !Pending(k, numSms, s, p, r))
    && (s.counter[r] == Full(k) ==>
          || (s.notified[r] == 1 && forall p: nat :: !Pending(k, numSms, s, p, r))
          || (s.notified[r] == 0 && exists p: nat :: OnlyPending(k, numSms, s, p, r)))
  }

  ghost predicate OnlyPending(k: Kernel, numSms: nat, s: State, p: nat, r: nat) {
    Pending(k, numSms, s, p, r) && forall q: nat :: Pending(k, numSms, s, q, r) ==> q == p
  }

  ghost predicate Inv(k: Kernel, numSms: nat, s: State) {
    && Shape(k, numSms, s) && Positions(k, numSms, s) && Counted(k, numSms, s)
    && forall r: nat :: r < RankCount(k) ==> Notice(k, numSms, s, r)
  }

  lemma FullIsPositive(k: Kernel)
    requires Ready(k)
    ensures Full(k) > 0
  {
    MulMono(1, k.ranks.perRank, k.grid.n);
  }

  lemma InitialInv(k: Kernel, numSms: nat, s: State)
    requires Initial(k, numSms, s)
    ensures Inv(k, numSms, s)
  {
    FullIsPositive(k);
    hide Full, RankCount, TotalTiles, Ready, Home, Turn, ProgIds, Owner;
    forall r: nat | r < RankCount(k) ensures s.counter[r] == |Owned(k, s.added, r)| {
      assert Owned(k, {}, r) == {};
    }
  }

  lemma StepShape(k: Kernel, numSms: nat, s: State, p: nat)
    requires Busy(k, numSms, s, p)
    ensures Shape(k, numSms, Next(k, numSms, s, p))
  {
    CurrentIs(k, numSms, s, p);
    hide Full, RankCount, TotalTiles, Ready, ProgIds, Owner, Current;
  }

  lemma StepPositions(k: Kernel, numSms: nat, s: State, p: nat)
    requires Inv(k, numSms, s) && Busy(k, numSms, s, p)
    ensures |Next(k, numSms, s, p).progs| == numSms && Positions(k, numSms, Next(k, numSms, s, p))
  {
    CurrentIs(k, numSms, s, p);
    forall id: nat | id < TotalTiles(k) && Home(id, numSms) == p && Turn(id, numSms) == s.progs[p].j
      ensures id == Current(k, numSms, s, p)
    {
      HasTurn(k, numSms, id);
    }
    forall id: nat | id < TotalTiles(k) ensures Home(id, numSms) < numSms { HasTurn(k, numSms, id); }
    hide Full, RankCount, TotalTiles, Ready, ProgIds, Owner, Home, Turn, Counted, Notice, Current, Shape;
  }

  /** The tile that is being added has not been counted, and its rank has room for it. */
  lemma RoomToAdd(k: Kernel, numSms: nat, s: State, p: nat)
    requires Inv(k, numSms, s) && Busy(k, numSms, s, p) && s.progs[p].stage == Stored
    ensures var id := Current(k, numSms, s, p);
      id < TotalTiles(k) && id !in s.added && Owner(k, id) < RankCount(k) && s.counter[Owner(k, id)] < Full(k)
  {
    CurrentIs(k, numSms, s, p);
    var id := Current(k, numSms, s, p);
    var r := Owner(k, id);
    OwnedCount(k, r);
    NaturalsAre(TotalTiles(k));
    hide Full, RankCount, TotalTiles, Ready, ProgIds, Owner, Home, Turn, Notice, Current;
    var mine, all := Owned(k, s.added, r), Owned(k, Naturals(TotalTiles(k)), r);
    assert id in all && id !in mine;
    SubsetCount(mine, all);
  }

  lemma StepCounted(k: Kernel, numSms: nat, s: State, p: nat)
    requires Inv(k, numSms, s) && Busy(k, numSms, s, p)
    ensures Shape(k, numSms, Next(k, numSms, s, p)) && Counted(k, numSms, Next(k, numSms, s, p))
  {
    StepShape(k, numSms, s, p);
    var s' := Next(k, numSms, s, p);
    if s.progs[p].stage == Stored {
      RoomToAdd(k, numSms, s, p);
      var id := Current(k, numSms, s, p);
      assert k.Scatter? && Fits(k);
      hide Full, RankCount, TotalTiles, Ready, ProgIds, Home, Turn, Notice, Shape, Busy, Current, Owner;
      forall r: nat | r < RankCount(k) ensures s'.counter[r] == |Owned(k, s'.added, r)| {
        if r == Owner(k, id) {
          assert Owned(k, s'.added, r) == Owned(k, s.added, r) + {id};
        } else {
          assert Owned(k, s'.added, r) == Owned(k, s.added, r);
        }
      }
    }
  }

  /** Other programs are as pending as before. */
  lemma PendingAside(k: Kernel, numSms: nat, s: State, p: nat, q: nat, r: nat)
    requires Busy(k, numSms, s, p) && Shape(k, numSms, Next(k, numSms, s, p)) && q != p
    ensures Pending(k, numSms, Next(k, numSms, s, p), q, r) <==> Pending(k, numSms, s, q, r)
  {
    hide Full, RankCount, TotalTiles, Ready, ProgIds, Owner;
  }

  lemma PendingHere(k: Kernel, numSms: nat, s: State, p: nat, r: nat)
    requires Busy(k, numSms, s, p) && Shape(k, numSms, Next(k, numSms, s, p))
    ensures (CurrentIs(k, numSms, s, p); Pending(k, numSms, Next(k, numSms, s, p), p, r) <==>
      s.progs[p].stage == Stored && Owner(k, Current(k, numSms, s, p)) == r && s.counter[r] == Full(k) - 1)
  {
    CurrentIs(k, numSms, s, p);
    hide Full, RankCount, TotalTiles, Ready, ProgIds, Owner;
  }

  lemma StepNotice(k: Kernel, numSms: nat, s: State, p: nat, r: nat)
    requires Inv(k, numSms, s) && Busy(k, numSms, s, p) && r < RankCount(k)
    ensures Shape(k, numSms, Next(k, numSms, s, p)) && Notice(k, numSms, Next(k, numSms, s, p), r)
  {
    StepShape(k, numSms, s, p);
    CurrentIs(k, numSms, s, p);
    FullIsPositive(k);
    var s' := Next(k, numSms, s, p);
    if s.progs[p].stage == Stored { RoomToAdd(k, numSms, s, p); }
    PendingHere(k, numSms, s, p, r);
    forall q: nat | q != p ensures Pending(k, numSms, s', q, r) <==> Pending(k, numSms, s, q, r) {
      PendingAside(k, numSms, s, p, q, r);
    }
    assert Notice(k, numSms, s, r);
    var id := Current(k, numSms, s, p);
    assert Pending(k, numSms, s, p, r) <==>
      s.progs[p].stage.Added? && s.progs[p].stage.val == Full(k) - 1 && Owner(k, id) == r;
    hide Full, RankCount, TotalTiles, Ready, ProgIds, Owner, Home, Turn, Shape, Current, Pending, Positions, Counted,
         Inv;
    if Pending(k, numSms, s', p, r) { assert OnlyPending(k, numSms, s', p, r); }
    if q: nat :| q != p && OnlyPending(k, numSms, s, q, r) {
      assert OnlyPending(k, numSms, s', q, r) || Pending(k, numSms, s', p, r);
    }
  }

  lemma StepInv(k: Kernel, numSms: nat, s: State, p: nat)
    requires Inv(k, numSms, s) && Busy(k, numSms, s, p)
    ensures Inv(k, numSms, Next(k, numSms, s, p))
  {
    assert k.Scatter?;
    hide Next, Notice, Positions, Counted, Shape;
    StepPositions(k, numSms, s, p);
    StepCounted(k, numSms, s, p);
    forall r: nat | r < RankCount(k) ensures Notice(k, numSms, Next(k, numSms, s, p), r) {
      StepNotice(k, numSms, s, p, r);
    }
  }

  // ----- Every run -----

  /** `run` names the program that steps next, from any interleaving. */
  ghost predicate IsRun(k: Kernel, numSms: nat, states: seq<State>, run: seq<nat>) {
    && |states| == |run| + 1 && Initial(k, numSms, states[0])
    && forall i :: 0 <= i < |run| ==>
         Busy(k, numSms, states[i], run[i]) && states[i + 1] == Next(k, numSms, states[i], run[i])
  }

  lemma {:induction false} RunInv(k: Kernel, numSms: nat, states: seq<State>, run: seq<nat>)
    requires IsRun(k, numSms, states, run)
    ensures Inv(k, numSms, states[|run|])
    decreases |run|
  {
    hide Inv, Next, Busy, Initial;
    var n := |run| - 1;
    if run == [] {
      InitialInv(k, numSms, states[0]);
    } else {
      RunInv(k, numSms, states[..n + 1], run[..n]);
      StepInv(k, numSms, states[n], run[n]);
    }
  }

  ghost predicate Finished(k: Kernel, numSms: nat, s: State) {
    Shape(k, numSms, s) && forall p :: 0 <= p < numSms ==> s.progs[p].j == |ProgIds(k, numSms, p)|
  }

  /** A full counter means that every tile of the rank is stored. */
  lemma FullMeansStored(k: Kernel, numSms: nat, s: State, id: nat)
    requires Inv(k, numSms, s) && id < TotalTiles(k)
    ensures Owner(k, id) < RankCount(k) && (s.counter[Owner(k, id)] == Full(k) ==> id in s.stored)
  {
    OwnedHasIndex(k, id);
    var r := Owner(k, id);
    OwnedCount(k, r);
    NaturalsAre(TotalTiles(k));
    hide Full, RankCount, TotalTiles, Ready, ProgIds, Owner, Home, Turn, Notice, OwnedIds;
    var mine, all := Owned(k, s.added, r), Owned(k, Naturals(TotalTiles(k)), r);
    if s.counter[r] == Full(k) {
      SubsetCount(mine, all);
      assert id in all;
      assert id in s.added && HasAdded(s, numSms, id);
    }
  }

  /** When every program has ended, every counter is full. */
  lemma FinishedIsFull(k: Kernel, numSms: nat, s: State, r: nat)
    requires Inv(k, numSms, s) && Finished(k, numSms, s) && r < RankCount(k)
    ensures s.counter[r] == Full(k)
  {
    OwnedCount(k, r);
    NaturalsAre(TotalTiles(k));
    forall id: nat | id < TotalTiles(k) ensures id in s.added {
      HasTurn(k, numSms, id);
    }
    hide Full, RankCount, TotalTiles, Ready, ProgIds, Owner, Home, Turn, Notice;
    assert Owned(k, s.added, r) == Owned(k, Naturals(TotalTiles(k)), r);
  }

  lemma FinishedIsNotified(k: Kernel, numSms: nat, s: State, r: nat)
    requires Inv(k, numSms, s) && Finished(k, numSms, s) && r < RankCount(k)
    ensures s.notified[r] == 1
  {
    FinishedIsFull(k, numSms, s, r);
    assert Notice(k, numSms, s, r);
    hide Full, RankCount, TotalTiles, Ready, ProgIds, Owner, Home, Turn, Positions, Counted;
  }

  lemma NotifiedIsStored(k: Kernel, numSms: nat, s: State, r: nat, tile: (nat, nat))
    requires Inv(k, numSms, s) && r < RankCount(k) && s.notified[r] > 0
    requires GridTile(k.grid, tile) && tile.0 / k.ranks.perRank == r
    ensures s.notified[r] == 1 && Unplace(k, tile) in s.stored
  {
    assert Notice(k, numSms, s, r);
    TileIsPlaced(k, tile);
    hide Full, RankCount, TotalTiles, ProgIds, Home, Turn, Positions, Counted, Place, Unplace, Notice, Pending,
         OnlyPending;
    assert s.counter[r] == Full(k) && s.notified[r] == 1 by { NotifiedIsFull(k, numSms, s, r); }
    FullMeansStored(k, numSms, s, Unplace(k, tile));
  }

  lemma NotifiedIsFull(k: Kernel, numSms: nat, s: State, r: nat)
    requires Inv(k, numSms, s) && r < RankCount(k) && s.notified[r] > 0
    ensures s.notified[r] == 1 && s.counter[r] == Full(k)
  {
    assert Notice(k, numSms, s, r);
    hide Full, RankCount, TotalTiles, ProgIds, Home, Turn, Positions, Counted, Pending, OnlyPending;
  }

  /** Whatever the interleaving: a rank's barrier is notified at most once, and only after every
      output tile of that rank's rows has been stored; and when all programs have ended it has
      been notified. */
  lemma NotifiedWhenReady(k: Kernel, numSms: nat, states: seq<State>, run: seq<nat>, r: nat)
    requires IsRun(k, numSms, states, run) && Ready(k) && r < RankCount(k)
    ensures var s := states[|run|];
      && Shape(k, numSms, s) && s.notified[r] <= 1
      && (s.notified[r] == 1 ==> forall tile: (nat, nat) ::
            GridTile(k.grid, tile) && tile.0 / k.ranks.perRank == r ==> Unplace(k, tile) in s.stored)
      && (Finished(k, numSms, s) ==> s.notified[r] == 1)
  {
    RunInv(k, numSms, states, run);
    var s := states[|run|];
    hide Next, Full, RankCount, TotalTiles, ProgIds, Home, Turn, IsRun, Place, Unplace, Notice, Positions, Counted,
         Finished;
    if s.notified[r] > 0 {
      NotifiedIsFull(k, numSms, s, r);
      forall tile: (nat, nat) | GridTile(k.grid, tile) && tile.0 / k.ranks.perRank == r
        ensures Unplace(k, tile) in s.stored
      {
        NotifiedIsStored(k, numSms, s, r, tile);
      }
    }
    if Finished(k, numSms, s) {
      FinishedIsNotified(k, numSms, s, r);
    }
  }
}
