/** The reduce-scatters of Triton-distributed/tutorials/05, 06 and 10, over any associative and
    commutative addition.  A segment (one rank's rows) is one value: additions are elementwise,
    so this is what happens to each element. */
module ReduceScatter {
  import opened Addition
  import opened Cells
  import opened DivMod
  import opened TileMap

  // ----- Sums of lists -----

  /** The sum of a list, from left to right. */
  function Fold<T>(add: (T, T) -> T, xs: seq<T>): T
    requires xs != []
  {
    if |xs| == 1 then xs[0] else add(Fold(add, xs[..|xs| - 1]), xs[|xs| - 1])
  }

  lemma {:induction false} FoldConcat<T(!new)>(add: (T, T) -> T, a: seq<T>, b: seq<T>)
    requires Sums(add) && a != [] && b != []
    ensures Fold(add, a + b) == add(Fold(add, a), Fold(add, b))
    decreases |b|
  {
    hide Sums;
    var n := |b| - 1;
    assert (a + b)[..|a + b| - 1] == a + b[..n];
    if n == 0 {
      assert a + b[..0] == a;
    } else {
      FoldConcat(add, a, b[..n]);
      Associates(add, Fold(add, a), Fold(add, b[..n]), b[n]);
    }
  }

  function Rotated<T>(xs: seq<T>, begin: nat): (r: seq<T>)
    requires xs != []
    ensures |r| == |xs| && forall i :: 0 <= i < |xs| ==> r[i] == xs[(i + begin + 1) % |xs|]
  {
    seq(|xs|, i requires 0 <= i < |xs| => xs[(i + begin + 1) % |xs|])
  }

  /** Starting elsewhere and wrapping around does not change the sum. */
  lemma FoldRotated<T(!new)>(add: (T, T) -> T, xs: seq<T>, begin: nat)
    requires Sums(add) && xs != []
    ensures Fold(add, Rotated(xs, begin)) == Fold(add, xs)
  {
    var n := |xs|;
    var k := (begin + 1) % n;
    forall i | 0 <= i < n ensures Rotated(xs, begin)[i] == (xs[k..] + xs[..k])[i] {
      RotateIs(i, begin + 1, n);
    }
    assert Rotated(xs, begin) == xs[k..] + xs[..k];
    hide Sums, Rotated;
    if k == 0 {
      assert xs[k..] + xs[..k] == xs;
    } else {
      FoldConcat(add, xs[k..], xs[..k]);
      FoldConcat(add, xs[..k], xs[k..]);
      assert xs[..k] + xs[k..] == xs;
      Commutes(add, Fold(add, xs[k..]), Fold(add, xs[..k]));
    }
  }

  /** `kernel_ring_reduce`: adds up the splits, starting after `beginIdx` and wrapping around. */
  method RingReduce<T(!new)>(add: (T, T) -> T, input: seq<T>, beginIdx: nat) returns (accum: T)
    requires Sums(add) && input != []
    ensures accum == Fold(add, input)
  {
    var numSplits := |input|;
    ghost var order := Rotated(input, beginIdx);
    hide Sums, Rotated;
    accum := input[(beginIdx + 1) % numSplits];
    assert order[..1] == [order[0]];
    for i := 1 to numSplits
      invariant accum == Fold(add, order[..i])
    {
      assert order[..i + 1][..i] == order[..i];
      accum := add(accum, input[(i + beginIdx + 1) % numSplits]);
    }
    assert order[..numSplits] == order;
    FoldRotated(add, input, beginIdx);
  }

  /** `kernel_consumer_reduce` of tutorial 10, which starts from zero. */
  method ConsumerReduce<T(!new)>(add: (T, T) -> T, zero: T, c: seq<T>, rank: nat) returns (accum: T)
    requires Sums(add) && c != [] && Zero(add, zero)
    ensures accum == Fold(add, c)
  {
    var numRanks := |c|;
    ghost var order := Rotated(c, rank);
    hide Sums, Rotated;
    accum := zero;
    for i := 0 to numRanks
      invariant accum == if i == 0 then zero else Fold(add, order[..i])
    {
      assert order[..i + 1][..i] == order[..i];
      accum := add(accum, c[(i + rank + 1) % numRanks]);
    }
    assert order[..numRanks] == order;
    FoldRotated(add, c, rank);
  }

  /** Whom a swizzled loop serves in its i-th round: it starts after `from` and wraps around. */
  function Remote(from: nat, i: nat, n: nat): (r: nat)
    requires n > 0
    ensures r < n
  {
    (from + i + 1) % n
  }

  /** The round in which it serves `to`. */
  lemma Turn(from: nat, to: nat, n: nat) returns (i: nat)
    requires from < n && to < n
    ensures i < n && Remote(from, i, n) == to
  {
    i := if to > from then to - from - 1 else to + n - from - 1;
    if to > from { Unique(0, to, n); } else { Unique(1, to, n); }
  }

  /** `intra_node_scatter`: row q of `scatterBufs` is the buffer of local rank q. */
  method IntraNodeScatter<T>(input: seq<T>, scatterBufs: array2<T>, localRank: nat)
    requires scatterBufs.Length0 == scatterBufs.Length1 == |input| && localRank < |input|
    modifies scatterBufs
    ensures forall q :: 0 <= q < |input| ==> scatterBufs[q, localRank] == input[q]
    ensures forall q, s :: 0 <= q < |input| && 0 <= s < |input| && s != localRank ==>
      scatterBufs[q, s] == old(scatterBufs[q, s])
  {
    hide Remote;
    var n := |input|;
    for i := 0 to n
      invariant forall k: nat :: k < i ==>
        scatterBufs[Remote(localRank, k, n), localRank] == input[Remote(localRank, k, n)]
      invariant forall q, s :: 0 <= q < n && 0 <= s < n && s != localRank ==>
        scatterBufs[q, s] == old(scatterBufs[q, s])
    {
      var remoteLocalRank := Remote(localRank, i, n);
      scatterBufs[remoteLocalRank, localRank] := input[remoteLocalRank];
    }
    forall q | 0 <= q < n ensures scatterBufs[q, localRank] == input[q] {
      var k := Turn(localRank, q, n);
    }
  }

  // ----- The hierarchical reduce-scatter of tutorial 06 -----

  /** `nodes` nodes of `local` ranks; `input(r, s)` is segment s of rank r's input.  Rank l of
      node c is written (c, l). */
  datatype Config<!T> = Config(nodes: nat, local: nat, input: (nat, nat) -> T)

  function Rank<T>(cfg: Config<T>, c: nat, l: nat): nat {
    c * cfg.local + l
  }

  /** The host and the devices of rank (c, l): round n scatters to the peers on its own node what
      is meant for node `Remote(c, n)`, copy by copy; reduces what it got from them; and sends
      the sum to the rank on that node.  At the end it reduces what the nodes sent. */
  datatype Action =
    | Scatter(c: nat, l: nat, n: nat, i: nat)
    | Reduce(c: nat, l: nat, n: nat)
    | Send(c: nat, l: nat, n: nat)
    | Final(c: nat, l: nat)

  /** `scatter(c, l, m, j)`: what (c, l) holds from its peer j for node m; `perNode(c, l, m)`: its
      sum for node m; `p2p(c, l, m)`: what node m sent to it; `out(c, l)`: its output. */
  datatype State<!T> = State(done: set<Action>, scatter: (nat, nat, nat, nat) -> T, perNode: (nat, nat, nat) -> T,
                             p2p: (nat, nat, nat) -> T, out: (nat, nat) -> T)

  ghost predicate InRange<T>(cfg: Config<T>, a: Action) {
    && a.c < cfg.nodes && a.l < cfg.local && (a.Final? || a.n < cfg.nodes) && (a.Scatter? ==> a.i < cfg.local)
  }

  /** What must have happened: the node's barrier before a reduce, the reduce before its send,
      and the barrier of all ranks, which also waits for the puts, before the last reduce. */
  ghost predicate CanDo<T>(cfg: Config<T>, s: State<T>, a: Action) {
    && InRange(cfg, a)
    && match a
       case Scatter(_, _, _, _) => true
       case Reduce(c, _, n) => forall j: nat, i: nat :: j < cfg.local && i < cfg.local ==> Scatter(c, j, n, i) in s.done
       case Send(c, l, n) => cfg.nodes > 1 && Reduce(c, l, n) in s.done
       case Final(c, l) =>
         if cfg.nodes == 1 then Reduce(c, l, 0) in s.done
         else forall m: nat, j: nat, n: nat ::
                m < cfg.nodes && j < cfg.local && n < cfg.nodes ==> Send(m, j, n) in s.done
  }

  function Received<T>(cfg: Config<T>, s: State<T>, c: nat, l: nat, m: nat): seq<T> {
    seq(cfg.local, (j: nat) => s.scatter(c, l, m, j))
  }

  function SentBy<T>(cfg: Config<T>, s: State<T>, c: nat, l: nat): seq<T> {
    if cfg.nodes == 1 then [s.perNode(c, l, 0)] else seq(cfg.nodes, (m: nat) => s.p2p(c, l, m))
  }

  /** The reductions are RingReduce, starting after the own local rank and the own node. */
  ghost function Next<T>(cfg: Config<T>, add: (T, T) -> T, s: State<T>, a: Action): State<T>
    requires CanDo(cfg, s, a)
  {
    var done := s.done + {a};
    match a
    case Scatter(c, l, n, i) =>
      var m, q := Remote(c, n, cfg.nodes), Remote(l, i, cfg.local);
      s.(done := done, scatter := Put4(s.scatter, c, q, m, l, cfg.input(Rank(cfg, c, l), Rank(cfg, m, q))))
    case Reduce(c, l, n) =>
      var m := Remote(c, n, cfg.nodes);
      s.(done := done, perNode := Put3(s.perNode, c, l, m, Fold(add, Rotated(Received(cfg, s, c, l, m), l))))
    case Send(c, l, n) =>
      var m := Remote(c, n, cfg.nodes);
      if n == cfg.nodes - 1 then s.(done := done, p2p := Put3(s.p2p, c, l, c, s.perNode(c, l, c)))
      else s.(done := done, p2p := Put3(s.p2p, m, l, c, s.perNode(c, l, m)))
    case Final(c, l) =>
      s.(done := done, out := Put2(s.out, c, l, Fold(add, Rotated(SentBy(cfg, s, c, l), c))))
  }

  /** Node c's sum of everybody's segment for rank (m, l). */
  function NodeParts<T>(cfg: Config<T>, c: nat, segment: nat): (r: seq<T>)
    ensures |r| == cfg.local
  {
    seq(cfg.local, (j: nat) => cfg.input(Rank(cfg, c, j), segment))
  }

  function NodeSums<T>(cfg: Config<T>, add: (T, T) -> T, segment: nat, nodes: nat): (r: seq<T>)
    requires cfg.local > 0
    ensures |r| == nodes
  {
    seq(nodes, (c: nat) => Fold(add, NodeParts(cfg, c, segment)))
  }

  /** The flat reduce-scatter: segment s of all ranks, in rank order. */
  function Flat<T>(cfg: Config<T>, segment: nat, ranks: nat): (r: seq<T>)
    ensures |r| == ranks
  {
    seq(ranks, (r: nat) => cfg.input(r, segment))
  }

  lemma FlatNext<T>(cfg: Config<T>, segment: nat, n: nat)
    ensures Flat(cfg, segment, (n + 1) * cfg.local) == Flat(cfg, segment, n * cfg.local) + NodeParts(cfg, n, segment)
  {
    assert (n + 1) * cfg.local == n * cfg.local + cfg.local;
    var parts := Flat(cfg, segment, n * cfg.local) + NodeParts(cfg, n, segment);
    forall r: nat | r < (n + 1) * cfg.local ensures Flat(cfg, segment, (n + 1) * cfg.local)[r] == parts[r] {
      if r >= n * cfg.local { assert Rank(cfg, n, r - n * cfg.local) == r; }
    }
  }

  /** Summing node by node is summing over all ranks. */
  lemma {:induction false} NodesAreFlat<T(!new)>(cfg: Config<T>, add: (T, T) -> T, segment: nat, nodes: nat)
    requires Sums(add) && cfg.local > 0 && nodes > 0
    ensures nodes * cfg.local > 0
    ensures Fold(add, NodeSums(cfg, add, segment, nodes)) == Fold(add, Flat(cfg, segment, nodes * cfg.local))
  {
    hide Sums, Fold;
    var n := nodes - 1;
    MulMono(1, nodes, cfg.local);
    FlatNext(cfg, segment, n);
    SumsNext(cfg, add, segment, n);
    if n == 0 {
      NoNodes(cfg, add, segment);
      OneSum(add, Fold(add, NodeParts(cfg, 0, segment)));
      assert [] + NodeParts(cfg, 0, segment) == NodeParts(cfg, 0, segment);
      assert [] + [Fold(add, NodeParts(cfg, 0, segment))] == [Fold(add, NodeParts(cfg, 0, segment))];
    } else {
      MulMono(1, n, cfg.local);
      hide Flat, NodeParts, NodeSums;
      NodesAreFlat(cfg, add, segment, n);
      FoldConcat(add, Flat(cfg, segment, n * cfg.local), NodeParts(cfg, n, segment));
      FoldNext(add, NodeSums(cfg, add, segment, n), Fold(add, NodeParts(cfg, n, segment)));
    }
  }

  lemma SumsNext<T>(cfg: Config<T>, add: (T, T) -> T, segment: nat, n: nat)
    requires cfg.local > 0
    ensures NodeSums(cfg, add, segment, n + 1)
         == NodeSums(cfg, add, segment, n) + [Fold(add, NodeParts(cfg, n, segment))]
  {
    hide Fold, NodeParts;
  }

  lemma NoNodes<T>(cfg: Config<T>, add: (T, T) -> T, segment: nat)
    requires cfg.local > 0
    ensures Flat(cfg, segment, 0 * cfg.local) == [] && NodeSums(cfg, add, segment, 0) == []
  {
  }

  lemma OneSum<T>(add: (T, T) -> T, x: T)
    ensures Fold(add, [x]) == x
  {
  }

  lemma FoldNext<T>(add: (T, T) -> T, xs: seq<T>, x: T)
    requires xs != []
    ensures Fold(add, xs + [x]) == add(Fold(add, xs), x)
  {
    assert (xs + [x])[..|xs|] == xs;
  }

  // ----- Every run -----

  /** What a finished action has left behind: cells are only ever written with one value. */
  ghost predicate Left<T>(cfg: Config<T>, add: (T, T) -> T, s: State<T>, a: Action)
    requires InRange(cfg, a)
  {
    match a
    case Scatter(c, l, n, i) =>
      var m, q := Remote(c, n, cfg.nodes), Remote(l, i, cfg.local);
      s.scatter(c, q, m, l) == cfg.input(Rank(cfg, c, l), Rank(cfg, m, q))
    case Reduce(c, l, n) =>
      var m := Remote(c, n, cfg.nodes);
      s.perNode(c, l, m) == Fold(add, NodeParts(cfg, c, Rank(cfg, m, l)))
    case Send(c, l, n) =>
      var m := Remote(c, n, cfg.nodes);
      s.p2p(m, l, c) == Fold(add, NodeParts(cfg, c, Rank(cfg, m, l)))
    case Final(c, l) =>
      s.out(c, l) == Fold(add, NodeSums(cfg, add, Rank(cfg, c, l), cfg.nodes))
  }

  ghost predicate Inv<T>(cfg: Config<T>, add: (T, T) -> T, s: State<T>) {
    forall a :: a in s.done ==> InRange(cfg, a) && Left(cfg, add, s, a)
  }

  lemma ReduceFinds<T(!new)>(cfg: Config<T>, add: (T, T) -> T, s: State<T>, c: nat, l: nat, n: nat)
    requires Inv(cfg, add, s) && CanDo(cfg, s, Reduce(c, l, n))
    ensures var m := Remote(c, n, cfg.nodes); Received(cfg, s, c, l, m) == NodeParts(cfg, c, Rank(cfg, m, l))
  {
    var m := Remote(c, n, cfg.nodes);
    forall j: nat | j < cfg.local ensures s.scatter(c, l, m, j) == cfg.input(Rank(cfg, c, j), Rank(cfg, m, l)) {
      var i := Turn(j, l, cfg.local);
      assert Left(cfg, add, s, Scatter(c, j, n, i));
    }
    hide Inv, Remote, Rank;
  }

  lemma P2pFinds<T(!new)>(cfg: Config<T>, add: (T, T) -> T, s: State<T>, c: nat, l: nat, m: nat)
    requires Inv(cfg, add, s) && CanDo(cfg, s, Final(c, l)) && cfg.nodes > 1 && m < cfg.nodes
    ensures s.p2p(c, l, m) == Fold(add, NodeParts(cfg, m, Rank(cfg, c, l)))
  {
    var n := Turn(m, c, cfg.nodes);
    hide Remote, Rank, NodeParts;
    assert Send(m, l, n) in s.done;
    assert Left(cfg, add, s, Send(m, l, n));
  }

  lemma OneNodeFinds<T(!new)>(cfg: Config<T>, add: (T, T) -> T, s: State<T>, l: nat)
    requires Inv(cfg, add, s) && CanDo(cfg, s, Final(0, l)) && cfg.nodes == 1
    ensures s.perNode(0, l, 0) == Fold(add, NodeParts(cfg, 0, Rank(cfg, 0, l)))
  {
    hide Rank, NodeParts, Remote, Inv, Fold;
    OnlyNode();
    ReducedLeft(cfg, add, s, 0, l, 0);
  }

  lemma OnlyNode()
    ensures Remote(0, 0, 1) == 0
  {
  }

  lemma NodeSumsAt<T(!new)>(cfg: Config<T>, add: (T, T) -> T, segment: nat, nodes: nat, m: nat)
    requires cfg.local > 0 && m < nodes
    ensures NodeSums(cfg, add, segment, nodes)[m] == Fold(add, NodeParts(cfg, m, segment))
  {
  }

  lemma FinalFinds<T(!new)>(cfg: Config<T>, add: (T, T) -> T, s: State<T>, c: nat, l: nat)
    requires Inv(cfg, add, s)
    ensures CanDo(cfg, s, Final(c, l)) ==>
      cfg.local > 0 && SentBy(cfg, s, c, l) == NodeSums(cfg, add, Rank(cfg, c, l), cfg.nodes)
  {
    hide Rank, NodeParts, Inv, NodeSums, Fold;
    if CanDo(cfg, s, Final(c, l)) {
      if cfg.nodes == 1 {
        OneNodeFinds(cfg, add, s, l);
        NodeSumsAt(cfg, add, Rank(cfg, c, l), 1, 0);
      } else {
        forall m: nat | m < cfg.nodes
          ensures s.p2p(c, l, m) == NodeSums(cfg, add, Rank(cfg, c, l), cfg.nodes)[m]
        {
          P2pFinds(cfg, add, s, c, l, m);
          NodeSumsAt(cfg, add, Rank(cfg, c, l), cfg.nodes, m);
        }
      }
    }
  }

  lemma ReducedLeft<T(!new)>(cfg: Config<T>, add: (T, T) -> T, s: State<T>, c: nat, l: nat, n: nat)
    requires Inv(cfg, add, s) && Reduce(c, l, n) in s.done
    ensures InRange(cfg, Reduce(c, l, n)) && Left(cfg, add, s, Reduce(c, l, n))
  {
  }

  lemma LeftHere<T(!new)>(cfg: Config<T>, add: (T, T) -> T, s: State<T>, a: Action)
    requires Sums(add) && Inv(cfg, add, s) && CanDo(cfg, s, a)
    ensures Left(cfg, add, Next(cfg, add, s, a), a)
  {
    match a
    case Scatter(_, _, _, _) =>
    case Reduce(c, l, n) =>
      ReduceFinds(cfg, add, s, c, l, n);
      FoldRotated(add, Received(cfg, s, c, l, Remote(c, n, cfg.nodes)), l);
    case Send(c, l, n) =>
      assert Left(cfg, add, s, Reduce(c, l, n));
      if n == cfg.nodes - 1 { Unique(1, c, cfg.nodes); }
    case Final(c, l) =>
      FinalFinds(cfg, add, s, c, l);
      FoldRotated(add, SentBy(cfg, s, c, l), c);
  }

  lemma LeftAside<T(!new)>(cfg: Config<T>, add: (T, T) -> T, s: State<T>, a: Action, b: Action)
    requires Sums(add) && Inv(cfg, add, s) && CanDo(cfg, s, a) && b in s.done
    ensures InRange(cfg, b) && Left(cfg, add, Next(cfg, add, s, a), b)
  {
    LeftHere(cfg, add, s, a);
    assert Left(cfg, add, s, b);
    if a.Send? && a.n == cfg.nodes - 1 { Unique(1, a.c, cfg.nodes); }
    hide Sums, Inv, Remote, Rank, NodeParts, NodeSums, Fold, Rotated, Received, SentBy;
  }

  lemma StepInv<T(!new)>(cfg: Config<T>, add: (T, T) -> T, s: State<T>, a: Action)
    requires Sums(add) && Inv(cfg, add, s) && CanDo(cfg, s, a)
    ensures Inv(cfg, add, Next(cfg, add, s, a))
  {
    LeftHere(cfg, add, s, a);
    hide Left, CanDo;
    forall b | b in Next(cfg, add, s, a).done
      ensures InRange(cfg, b) && Left(cfg, add, Next(cfg, add, s, a), b)
    {
      if b in s.done { LeftAside(cfg, add, s, a, b); } else { assert b == a; }
    }
  }

  ghost predicate IsRun<T(!new)>(cfg: Config<T>, add: (T, T) -> T, states: seq<State<T>>, run: seq<Action>) {
    && |states| == |run| + 1 && states[0].done == {}
    && forall k :: 0 <= k < |run| ==>
         CanDo(cfg, states[k], run[k]) && states[k + 1] == Next(cfg, add, states[k], run[k])
  }

  lemma {:induction false} RunInv<T(!new)>(cfg: Config<T>, add: (T, T) -> T, states: seq<State<T>>, run: seq<Action>)
    requires Sums(add) && IsRun(cfg, add, states, run)
    ensures Inv(cfg, add, states[|run|])
    decreases |run|
  {
    hide Next, CanDo, Left, Sums;
    var n := |run| - 1;
    if run != [] {
      RunInv(cfg, add, states[..n + 1], run[..n]);
      StepInv(cfg, add, states[n], run[n]);
    }
  }

  /** What has been done is what the run did. */
  lemma {:induction false} DoneIsRun<T(!new)>(cfg: Config<T>, add: (T, T) -> T, states: seq<State<T>>,
                                              run: seq<Action>)
    requires IsRun(cfg, add, states, run)
    ensures forall a :: a in states[|run|].done <==> a in run
    decreases |run|
  {
    hide CanDo;
    var n := |run| - 1;
    if run != [] {
      DoneIsRun(cfg, add, states[..n + 1], run[..n]);
      assert run == run[..n] + [run[n]];
    }
  }

  /** The hierarchical reduce-scatter is the flat one: however the ranks interleave, once rank
      (c, l) has finished, it has the sum over all ranks of their segment c * L + l. */
  lemma HierarchicalIsFlat<T(!new)>(cfg: Config<T>, add: (T, T) -> T, states: seq<State<T>>, run: seq<Action>, c: nat,
                  l: nat)
    requires Sums(add) && IsRun(cfg, add, states, run) && Final(c, l) in run
    ensures c < cfg.nodes && l < cfg.local && cfg.nodes * cfg.local > 0
    ensures states[|run|].out(c, l)
         == Fold(add, seq(cfg.nodes * cfg.local, (r: nat) => cfg.input(r, c * cfg.local + l)))
  {
    RunInv(cfg, add, states, run);
    DoneIsRun(cfg, add, states, run);
    var s := states[|run|];
    assert InRange(cfg, Final(c, l)) && Left(cfg, add, s, Final(c, l));
    NodesAreFlat(cfg, add, Rank(cfg, c, l), cfg.nodes);
    assert Flat(cfg, c * cfg.local + l, cfg.nodes * cfg.local)
        == seq(cfg.nodes * cfg.local, (r: nat) => cfg.input(r, c * cfg.local + l));
  }

  /** No state is stuck: until every rank has finished, some action that has not happened can. */
  lemma NeverStuck<T(!new)>(cfg: Config<T>, s: State<T>, c: nat, l: nat) returns (a: Action)
    requires c < cfg.nodes && l < cfg.local && Final(c, l) !in s.done
    ensures a !in s.done && CanDo(cfg, s, a)
  {
    if b: Action :| InRange(cfg, b) && b.Scatter? && b !in s.done {
      a := b;
    } else if b: Action :| InRange(cfg, b) && b.Reduce? && b !in s.done {
      a := b;
    } else if b: Action :| InRange(cfg, b) && b.Send? && cfg.nodes > 1 && b !in s.done {
      a := b;
    } else {
      a := Final(c, l);
    }
  }
}
