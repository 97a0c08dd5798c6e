/** How Megakernels/megakernels/scheduler.py assigns a DAG's instructions to SM queues.
    Instructions are named by their position in `dag_nodes`.  A heap is the set of its
    pairs, ordered as Python orders tuples; no heap here holds an index twice. */
module Scheduler {
  import opened Counting
  import opened Execution
  import opened SmQueues

  // ----- Heaps -----

  predicate LexLe(a: (int, nat), b: (int, nat)) {
    a.0 < b.0 || (a.0 == b.0 && a.1 <= b.1)
  }

  /** `heapq.heappop`. */
  method PopMin(heap: set<(int, nat)>) returns (min: (int, nat), rest: set<(int, nat)>)
    requires heap != {}
    ensures min in heap && rest == heap - {min}
    ensures forall x :: x in heap ==> min.0 < x.0 || (min.0 == x.0 && min.1 <= x.1)
  {
    min :| min in heap;
    var todo := heap - {min};
    ghost var seen := {min};
    while todo != {}
      invariant min in heap && todo <= heap && heap == todo + seen
      invariant forall x :: x in seen ==> LexLe(min, x)
      decreases todo
    {
      var x :| x in todo;
      if !LexLe(min, x) { min := x; }
      todo, seen := todo - {x}, seen + {x};
    }
    rest := heap - {min};
  }

  lemma LeastPair(heap: set<(int, nat)>, min: (int, nat))
    requires forall x :: x in heap ==> min.0 < x.0 || (min.0 == x.0 && min.1 <= x.1)
    ensures forall x :: x in heap ==> LexLe(min, x)
  {
  }

  // ----- Greedy placement on the least loaded SM -----

  /** The SM heap: one pair (load, SM) per SM. */
  ghost function HeapOf(load: seq<int>): set<(int, nat)> {
    set q: nat | q < |load| :: (load[q], q)
  }

  function Cost(costs: seq<int>, queue: seq<nat>): int
    requires forall i :: 0 <= i < |queue| ==> queue[i] < |costs|
  {
    if queue == [] then 0 else Cost(costs, queue[..|queue| - 1]) + costs[queue[|queue| - 1]]
  }

  ghost predicate InRangeOf(queues: seq<seq<nat>>, n: nat) {
    forall q, i :: 0 <= q < |queues| && 0 <= i < |queues[q]| ==> queues[q][i] < n
  }

  /** Each SM's load is the cost of its queue. */
  ghost predicate LoadsAre(load: seq<int>, costs: seq<int>, queues: seq<seq<nat>>) {
    && |load| == |queues| && InRangeOf(queues, |costs|)
    && forall q :: 0 <= q < |load| ==> load[q] == Cost(costs, queues[q])
  }

  /** No SM is ahead of another by more than one largest instruction. */
  ghost predicate Balanced(load: seq<int>, largest: int) {
    forall p, q :: 0 <= p < |load| && 0 <= q < |load| ==> load[p] - load[q] <= largest
  }

  ghost predicate NonNegative(costs: seq<int>) {
    forall v :: 0 <= v < |costs| ==> costs[v] >= 0
  }

  /** The largest cost, 0 if there is none. */
  function Largest(costs: seq<int>): int {
    if costs == [] then 0
    else
      var rest := Largest(costs[1..]);
      if costs[0] > rest then costs[0] else rest
  }

  lemma {:induction false} LargestIsLargest(costs: seq<int>, v: nat)
    requires v < |costs|
    ensures costs[v] <= Largest(costs)
  {
    if v > 0 { LargestIsLargest(costs[1..], v - 1); }
  }

  /** Nothing smaller will do. */
  lemma {:induction false} LargestIsLeast(costs: seq<int>, c: int)
    requires c >= 0 && forall v :: 0 <= v < |costs| ==> costs[v] <= c
    ensures Largest(costs) <= c
  {
    if costs != [] { LargestIsLeast(costs[1..], c); }
  }

  function Sum(load: seq<int>): int {
    if load == [] then 0 else Sum(load[..|load| - 1]) + load[|load| - 1]
  }

  lemma {:induction false} SumUpdate(load: seq<int>, q: nat, c: int)
    requires q < |load|
    ensures Sum(load[q := load[q] + c]) == Sum(load) + c
  {
    var n := |load| - 1;
    if q < n {
      SumUpdate(load[..n], q, c);
      assert load[q := load[q] + c][..n] == load[..n][q := load[q] + c];
    } else {
      assert load[q := load[q] + c][..n] == load[..n];
    }
  }

  /** Popping the least loaded SM and pushing it back with an instruction of cost `c`. */
  lemma GreedyStep(load: seq<int>, q: nat, c: int, largest: int)
    requires q < |load| && (forall x :: x in HeapOf(load) ==> LexLe((load[q], q), x))
    ensures HeapOf(load[q := load[q] + c]) == HeapOf(load) - {(load[q], q)} + {(load[q] + c, q)}
    ensures 0 <= c <= largest && Balanced(load, largest) ==> Balanced(load[q := load[q] + c], largest)
  {
    var load' := load[q := load[q] + c];
    forall p: nat | p < |load| ensures load[q] <= load[p] { assert (load[p], p) in HeapOf(load); }
    forall x | x in HeapOf(load') ensures x in HeapOf(load) - {(load[q], q)} + {(load[q] + c, q)} {
      var p: nat :| p < |load| && x == (load'[p], p);
      if p != q { assert (load[p], p) in HeapOf(load); }
    }
    forall x | x in HeapOf(load) - {(load[q], q)} + {(load[q] + c, q)} ensures x in HeapOf(load') {
      var p: nat := if x == (load[q] + c, q) then q else x.1;
      assert x == (load'[p], p);
    }
  }

  /** Each node went to the least loaded SM of its time, the lowest-numbered of several. */
  ghost predicate LeastLoaded(costs: seq<int>, order: seq<nat>, home: seq<nat>, load: seq<int>, m: nat)
    decreases |order|
  {
    if order == [] then home == [] && load == seq(m, _ => 0)
    else
      var n := |order| - 1;
      && |home| == n + 1 && home[n] < |load| && order[n] < |costs|
      && var before := load[home[n] := load[home[n]] - costs[order[n]]];
         && (forall p: nat :: p < |load| ==> LexLe((before[home[n]], home[n]), (before[p], p)))
         && LeastLoaded(costs, order[..n], home[..n], before, m)
  }

  lemma LeastLoadedNext(costs: seq<int>, order: seq<nat>, home: seq<nat>, load: seq<int>, m: nat, v: nat, q: nat)
    requires LeastLoaded(costs, order, home, load, m) && |home| == |order| && v < |costs| && q < |load|
    requires forall x :: x in HeapOf(load) ==> LexLe((load[q], q), x)
    ensures LeastLoaded(costs, order + [v], home + [q], load[q := load[q] + costs[v]], m)
  {
    var n := |order|;
    var after := load[q := load[q] + costs[v]];
    assert (order + [v])[..n] == order && (home + [q])[..n] == home;
    assert after[q := after[q] - costs[v]] == load;
    forall p: nat | p < |load| ensures LexLe((load[q], q), (load[p], p)) { assert (load[p], p) in HeapOf(load); }
    hide HeapOf, LexLe;
  }

  /** A balanced assignment is within (m-1)/m of one largest instruction of the average:
      m times the makespan is at most the total cost plus m-1 largest costs. */
  lemma {:induction false} MakespanBound(load: seq<int>, largest: int, top: nat)
    requires top < |load| && Balanced(load, largest)
    ensures |load| * load[top] <= Sum(load) + (|load| - 1) * largest
  {
    SumAtLeast(load, load[top] - largest, top);
    var m, x := |load|, load[top];
    assert (m - 1) * (x - largest) + x == m * x - (m - 1) * largest;
  }

  lemma {:induction false} SumAtLeast(load: seq<int>, low: int, top: nat)
    requires top < |load| && forall p :: 0 <= p < |load| ==> low <= load[p]
    ensures (|load| - 1) * low + load[top] <= Sum(load)
  {
    var n := |load| - 1;
    if top < n {
      SumAtLeast(load[..n], low, top);
      assert n * low == (n - 1) * low + low;
    } else {
      AllAtLeast(load[..n], low);
    }
  }

  lemma {:induction false} AllAtLeast(load: seq<int>, low: int)
    requires forall p :: 0 <= p < |load| ==> low <= load[p]
    ensures |load| * low <= Sum(load)
  {
    if load != [] {
      var n := |load| - 1;
      AllAtLeast(load[..n], low);
      assert (n + 1) * low == n * low + low;
    }
  }

  /** The loads add up to the cost of everything that was dealt. */
  lemma {:induction false} LoadsTotal(costs: seq<int>, order: seq<nat>, home: seq<nat>, m: nat, load: seq<int>)
    requires |order| == |home| && (forall k :: 0 <= k < |home| ==> home[k] < m)
    requires (forall k :: 0 <= k < |order| ==> order[k] < |costs|) && LoadsAre(load, costs, Deal(order, home, m))
    ensures Sum(load) == Cost(costs, order)
    decreases |order|
  {
    if order == [] {
      NoLoads(costs, load);
    } else {
      var n := |order| - 1;
      var v, q := order[n], home[n];
      var before := load[q := load[q] - costs[v]];
      LoadsBefore(costs, order, home, m, load);
      hide LoadsAre, Deal;
      LoadsTotal(costs, order[..n], home[..n], m, before);
      SumUpdate(before, q, costs[v]);
      assert before[q := before[q] + costs[v]] == load;
    }
  }

  lemma LoadsBefore(costs: seq<int>, order: seq<nat>, home: seq<nat>, m: nat, load: seq<int>)
    requires |order| == |home| && order != [] && (forall k :: 0 <= k < |home| ==> home[k] < m)
    requires (forall k :: 0 <= k < |order| ==> order[k] < |costs|) && LoadsAre(load, costs, Deal(order, home, m))
    ensures var n := |order| - 1;
      LoadsAre(load[home[n] := load[home[n]] - costs[order[n]]], costs, Deal(order[..n], home[..n], m))
  {
    var n := |order| - 1;
    var v, p := order[n], home[n];
    var queues, all := Deal(order[..n], home[..n], m), Deal(order, home, m);
    assert all == queues[p := queues[p] + [v]];
    hide Deal;
    forall q, i | 0 <= q < m && 0 <= i < |queues[q]| ensures queues[q][i] < |costs| {
      assert queues[q][i] == all[q][i];
    }
    CostNext(costs, queues[p], v);
    hide Cost;
  }

  lemma CostNext(costs: seq<int>, queue: seq<nat>, v: nat)
    requires (forall i :: 0 <= i < |queue| ==> queue[i] < |costs|) && v < |costs|
    ensures Cost(costs, queue + [v]) == Cost(costs, queue) + costs[v]
  {
    assert (queue + [v])[..|queue|] == queue;
  }

  lemma {:induction false} NoLoads(costs: seq<int>, load: seq<int>)
    requires forall q :: 0 <= q < |load| ==> load[q] == 0
    ensures Sum(load) == 0
  {
    if load != [] { NoLoads(costs, load[..|load| - 1]); }
  }

  // ----- `assign_dag_to_sms` -----

  ghost predicate IsReady(deps: Deps, order: seq<nat>, v: nat) {
    v < |deps| && v !in order && deps[v] <= Elems(order)
  }

  /** `ready_heap` once the nodes of `order` are placed. */
  ghost function ReadyHeap(deps: Deps, costs: seq<int>, order: seq<nat>): set<(int, nat)>
    requires |costs| == |deps|
  {
    set v: nat | v < |deps| && IsReady(deps, order, v) :: (-costs[v], v)
  }

  /** `v` comes before `u` in the ready heap, or is `u`. */
  ghost predicate First(costs: seq<int>, v: nat, u: nat) {
    v < |costs| && u < |costs| && LexLe((-costs[v], v), (-costs[u], u))
  }

  /** Each node was the costliest ready one of its time, the first in the list of several. */
  ghost predicate CostliestFirst(deps: Deps, costs: seq<int>, order: seq<nat>) {
    forall k: nat, u: nat :: k < |order| && IsReady(deps, order[..k], u) ==> First(costs, order[k], u)
  }

  lemma CostliestNext(deps: Deps, costs: seq<int>, order: seq<nat>, v: nat)
    requires |costs| == |deps| && CostliestFirst(deps, costs, order) && v < |costs|
    requires forall x :: x in ReadyHeap(deps, costs, order) ==> LexLe((-costs[v], v), x)
    ensures CostliestFirst(deps, costs, order + [v])
  {
    var all := order + [v];
    assert all[..|order|] == order;
    forall k: nat, u: nat | k < |all| && IsReady(deps, all[..k], u) ensures First(costs, all[k], u) {
      if k < |order| {
        assert all[..k] == order[..k];
        assert First(costs, order[k], u);
      } else {
        assert (-costs[u], u) in ReadyHeap(deps, costs, order);
      }
    }
  }

  /** `remaining_dependencies` once the nodes of `order` are placed. */
  ghost predicate Remaining(deps: Deps, order: seq<nat>, remaining: seq<set<nat>>) {
    |remaining| == |deps| && forall v :: 0 <= v < |deps| ==> remaining[v] == deps[v] - Elems(order)
  }

  /** `register_with_parents` of every node. */
  method RegisterWithParents(deps: Deps) returns (children: seq<set<nat>>)
    requires WellFormed(deps)
    ensures |children| == |deps|
    ensures forall d: nat, v: nat {:trigger v in children[d]} ::
      d < |deps| ==> (v in children[d] <==> v < |deps| && d in deps[v])
  {
    children := seq(|deps|, _ => {});
    for v := 0 to |deps|
      invariant |children| == |deps|
      invariant forall d: nat, u: nat {:trigger u in children[d]} ::
        d < |deps| ==> (u in children[d] <==> u < v && d in deps[u])
    {
      var todo := deps[v];
      while todo != {}
        invariant |children| == |deps| && todo <= deps[v]
        invariant forall d: nat, u: nat {:trigger u in children[d]} :: d < |deps| ==>
          (u in children[d] <==> (u < v && d in deps[u]) || (u == v && d in deps[v] - todo))
        decreases todo
      {
        var d :| d in todo;
        children := children[d := children[d] + {v}];
        todo := todo - {d};
      }
    }
  }

  /** The loop over `node.children`: drops the placed node from what they wait for and makes
      those that wait for nothing more ready. */
  method Release(deps: Deps, costs: seq<int>, node: nat, children: set<nat>, remaining: seq<set<nat>>,
                 heap: set<(int, nat)>, ghost order: seq<nat>)
    returns (remaining': seq<set<nat>>, heap': set<(int, nat)>)
    requires |costs| == |deps| && Topological(deps, order, {}) && IsReady(deps, order, node)
    requires forall v: nat :: v in children <==> v < |deps| && node in deps[v]
    requires Remaining(deps, order, remaining) && heap == ReadyHeap(deps, costs, order) - {(-costs[node], node)}
    ensures Remaining(deps, order + [node], remaining')
    ensures heap' == ReadyHeap(deps, costs, order + [node])
  {
    remaining', heap' := remaining, heap;
    var todo := children;
    while todo != {}
      invariant todo <= children && |remaining'| == |deps|
      invariant forall v :: 0 <= v < |deps| ==>
        remaining'[v] == if v in children - todo then remaining[v] - {node} else remaining[v]
      invariant heap' == heap
        + set v: nat | v in children - todo && v < |deps| && remaining[v] == {node} :: (-costs[v], v)
      decreases todo
    {
      var child :| child in todo;
      assert node in remaining'[child];
      remaining' := remaining'[child := remaining'[child] - {node}];
      if remaining'[child] == {} { heap' := heap' + {(-costs[child], child)}; }
      todo := todo - {child};
    }
    ReadyGrows(deps, costs, node, children, remaining, order);
  }

  lemma ReadyGrows(deps: Deps, costs: seq<int>, node: nat, children: set<nat>, remaining: seq<set<nat>>,
                  order: seq<nat>)
    requires |costs| == |deps| && Topological(deps, order, {}) && IsReady(deps, order, node)
    requires forall v: nat :: v in children <==> v < |deps| && node in deps[v]
    requires Remaining(deps, order, remaining)
    ensures ReadyHeap(deps, costs, order) - {(-costs[node], node)}
              + (set v: nat | v in children && v < |deps| && remaining[v] == {node} :: (-costs[v], v))
         == ReadyHeap(deps, costs, order + [node])
  {
    assert Elems(order + [node]) == Elems(order) + {node};
    forall v: nat | v < |deps|
      ensures IsReady(deps, order + [node], v)
         <==> (v != node && IsReady(deps, order, v)) || (v in children && remaining[v] == {node})
    {
      if v in order {
        var k :| 0 <= k < |order| && order[k] == v;
        assert deps[v] <= Elems(order[..k]) <= Elems(order);
      }
    }
  }

  datatype Timing = Unset | At(time: int)

  /** A node starts when everything before it in its queue has run, and ends its cost later. */
  ghost predicate TimedAt(costs: seq<int>, queue: seq<nat>, i: nat, startTime: seq<Timing>, endTime: seq<Timing>) {
    && i < |queue| && (forall k :: 0 <= k < |queue| ==> queue[k] < |costs|) && |startTime| == |endTime| == |costs|
    && startTime[queue[i]] == At(Cost(costs, queue[..i]))
    && endTime[queue[i]] == At(Cost(costs, queue[..i]) + costs[queue[i]])
  }

  /** Exactly the placed nodes have times, those of their queues. */
  ghost predicate Timed(costs: seq<int>, order: seq<nat>, queues: seq<seq<nat>>, startTime: seq<Timing>,
                        endTime: seq<Timing>)
  {
    && |startTime| == |endTime| == |costs|
    && (forall v: nat :: v < |costs| && v !in order ==> startTime[v] == endTime[v] == Unset)
    && forall q, i :: 0 <= q < |queues| && 0 <= i < |queues[q]| ==> TimedAt(costs, queues[q], i, startTime, endTime)
  }

  /** What the DAG scheduler has done so far: `order` is the order in which it placed nodes
      and `home` the SM of each. */
  ghost predicate Scheduled(deps: Deps, costs: seq<int>, order: seq<nat>, home: seq<nat>,
                            queues: seq<seq<nat>>, load: seq<int>, m: nat)
  {
    && |order| == |home| && (forall k :: 0 <= k < |home| ==> home[k] < m)
    && queues == Deal(order, home, m)
    && Topological(deps, order, {})
    && LoadsAre(load, costs, queues)
    && (NonNegative(costs) ==> Balanced(load, Largest(costs)))
  }

  lemma ScheduledNext(deps: Deps, costs: seq<int>, order: seq<nat>, home: seq<nat>,
                      queues: seq<seq<nat>>, load: seq<int>, m: nat, v: nat, q: nat)
    requires |costs| == |deps| && Scheduled(deps, costs, order, home, queues, load, m) && IsReady(deps, order, v)
    requires q < m && forall x :: x in HeapOf(load) ==> LexLe((load[q], q), x)
    ensures Scheduled(deps, costs, order + [v], home + [q], queues[q := queues[q] + [v]],
                      load[q := load[q] + costs[v]], m)
  {
    assert |load| == m;
    hide Deal, Topological, LoadsAre, Balanced, IsReady, HeapOf, LexLe, Elems, Largest;
    ReadyDeps(deps, order, v);
    DealAppend(order, home, m, v, q);
    OneMore(deps, order, v);
    LoadsNext(costs, queues, load, v, q);
    hide NonNegative;
    if NonNegative(costs) { BalanceNext(costs, load, v, q); }
  }

  /** Placing a node on a least loaded SM keeps the loads balanced. */
  lemma BalanceNext(costs: seq<int>, load: seq<int>, v: nat, q: nat)
    requires NonNegative(costs) && Balanced(load, Largest(costs)) && v < |costs| && q < |load|
    requires forall x :: x in HeapOf(load) ==> LexLe((load[q], q), x)
    ensures Balanced(load[q := load[q] + costs[v]], Largest(costs))
  {
    assert costs[v] >= 0;
    hide Balanced, HeapOf, LexLe, Largest, NonNegative;
    LargestIsLargest(costs, v);
    GreedyStep(load, q, costs[v], Largest(costs));
  }

  lemma ReadyDeps(deps: Deps, order: seq<nat>, v: nat)
    requires IsReady(deps, order, v)
    ensures v < |deps| && v !in order && forall d :: d in deps[v] ==> d in order
  {
    forall d | d in deps[v] ensures d in order { assert d in Elems(order); }
  }

  lemma LoadsNext(costs: seq<int>, queues: seq<seq<nat>>, load: seq<int>, v: nat, q: nat)
    requires LoadsAre(load, costs, queues) && v < |costs| && q < |load|
    ensures LoadsAre(load[q := load[q] + costs[v]], costs, queues[q := queues[q] + [v]])
  {
    var queue := queues[q] + [v];
    assert queue[..|queues[q]|] == queues[q];
  }

  lemma ScheduledStart(deps: Deps, costs: seq<int>, m: nat)
    requires |costs| == |deps|
    ensures Scheduled(deps, costs, [], [], NoQueues(m), seq(m, _ => 0), m)
    ensures (set q: nat | q < m :: (0, q)) == HeapOf(seq(m, _ => 0))
    ensures (set v: nat | v < |deps| && deps[v] == {} :: (-costs[v], v)) == ReadyHeap(deps, costs, [])
    ensures Remaining(deps, [], deps)
  {
    var load := seq(m, _ => 0);
    forall x | x in HeapOf(load) ensures x in (set q: nat | q < m :: (0, q)) {
      assert x == (0, x.1);
    }
    forall x | x in (set q: nat | q < m :: (0, q)) ensures x in HeapOf(load) {
      assert x == (load[x.1], x.1);
    }
    forall v: nat | v < |deps| ensures IsReady(deps, [], v) <==> deps[v] == {} { }
    LargestNonNegative(costs);
  }

  lemma {:induction false} LargestNonNegative(costs: seq<int>)
    ensures Largest(costs) >= 0
  {
    if costs != [] { LargestNonNegative(costs[1..]); }
  }

  /** A topological order names each node at most once. */
  lemma OrderFits(deps: Deps, order: seq<nat>)
    requires Topological(deps, order, {})
    ensures |order| <= |deps|
  {
    DistinctCount(order);
    NaturalsAre(|deps|);
    SubsetCount(Elems(order), Naturals(|deps|));
  }

  lemma ReadyIsInHeap(deps: Deps, costs: seq<int>, order: seq<nat>)
    requires |costs| == |deps|
    ensures forall v: nat :: IsReady(deps, order, v) ==> (-costs[v], v) in ReadyHeap(deps, costs, order)
  {
  }

  /** What a pair popped from either heap is. */
  lemma HeapMembers(deps: Deps, costs: seq<int>, order: seq<nat>, load: seq<int>)
    requires |costs| == |deps| && |load| > 0
    ensures HeapOf(load) != {}
    ensures forall x :: x in HeapOf(load) ==> x.1 < |load| && x == (load[x.1], x.1)
    ensures forall x :: x in ReadyHeap(deps, costs, order) ==>
      x.1 < |deps| && x == (-costs[x.1], x.1) && IsReady(deps, order, x.1) && x.1 !in order
  {
    assert (load[0], 0) in HeapOf(load);
  }

  lemma NothingTimed(costs: seq<int>, m: nat)
    ensures Timed(costs, [], NoQueues(m), seq(|costs|, _ => Unset), seq(|costs|, _ => Unset))
  {
  }

  lemma TimedNext(costs: seq<int>, order: seq<nat>, queues: seq<seq<nat>>, load: seq<int>,
                  startTime: seq<Timing>, endTime: seq<Timing>, v: nat, p: nat)
    requires Timed(costs, order, queues, startTime, endTime) && v < |costs| && v !in order && p < |queues|
    requires LoadsAre(load, costs, queues)
    requires forall q, i :: 0 <= q < |queues| && 0 <= i < |queues[q]| ==> queues[q][i] in order
    ensures Timed(costs, order + [v], queues[p := queues[p] + [v]], startTime[v := At(load[p])],
                  endTime[v := At(load[p] + costs[v])])
  {
    var queues' := queues[p := queues[p] + [v]];
    var st, et := startTime[v := At(load[p])], endTime[v := At(load[p] + costs[v])];
    forall q, i | 0 <= q < |queues| && 0 <= i < |queues'[q]| ensures TimedAt(costs, queues'[q], i, st, et) {
      if i < |queues[q]| {
        assert TimedAt(costs, queues[q], i, startTime, endTime) && queues[q][i] in order;
        assert queues'[q][..i] == queues[q][..i];
      } else {
        assert queues'[q][..i] == queues[q];
      }
      hide Cost;
    }
  }

  lemma NothingPicked(deps: Deps, costs: seq<int>, m: nat)
    ensures CostliestFirst(deps, costs, []) && LeastLoaded(costs, [], [], seq(m, _ => 0), m)
  {
  }

  lemma PlacedAreListed(deps: Deps, costs: seq<int>, order: seq<nat>, home: seq<nat>,
                        queues: seq<seq<nat>>, load: seq<int>, m: nat)
    requires Scheduled(deps, costs, order, home, queues, load, m)
    ensures forall q, i :: 0 <= q < |queues| && 0 <= i < |queues[q]| ==> queues[q][i] in order
    ensures LoadsAre(load, costs, queues)
  {
    DealIsDistinct(order, home, m);
  }

  /** `queues` and times are the list schedule: as long as a node is ready, the costliest goes to
      the least loaded SM. */
  ghost predicate IsSchedule(deps: Deps, costs: seq<int>, m: nat, queues: seq<seq<nat>>,
                             startTime: seq<Timing>, endTime: seq<Timing>)
  {
    exists order, home, load :: Finished(deps, costs, order, home, queues, load, m, startTime, endTime)
  }

  ghost predicate Finished(deps: Deps, costs: seq<int>, order: seq<nat>, home: seq<nat>, queues: seq<seq<nat>>,
                           load: seq<int>, m: nat, startTime: seq<Timing>, endTime: seq<Timing>)
  {
    && Scheduled(deps, costs, order, home, queues, load, m) && (forall v: nat :: !IsReady(deps, order, v))
    && CostliestFirst(deps, costs, order) && LeastLoaded(costs, order, home, load, m)
    && Timed(costs, order, queues, startTime, endTime)
  }

  /** `assign_dag_to_sms`. */
  method AssignDag(deps: Deps, costs: seq<int>, smCount: nat)
    returns (queues: seq<seq<nat>>, startTime: seq<Timing>, endTime: seq<Timing>)
    requires WellFormed(deps) && |costs| == |deps| && smCount > 0
    ensures IsSchedule(deps, costs, smCount, queues, startTime, endTime)
  {
    hide Deal, LoadsAre, Balanced, Topological, WellFormed, Remaining, IsReady, ReadyHeap, HeapOf, Timed;
    hide CostliestFirst, LeastLoaded, LexLe;
    var n := |deps|;
    var children := RegisterWithParents(deps);
    var remaining := deps;
    queues := NoQueues(smCount);
    startTime, endTime := seq(n, _ => Unset), seq(n, _ => Unset);
    var smHeap := set q: nat | q < smCount :: (0, q);
    var readyHeap := set v: nat | v < n && deps[v] == {} :: (-costs[v], v);
    ghost var order: seq<nat>, home: seq<nat>, load: seq<int> := [], [], seq(smCount, _ => 0);
    ScheduledStart(deps, costs, smCount);
    NothingTimed(costs, smCount);
    NothingPicked(deps, costs, smCount);
    while readyHeap != {}
      invariant |startTime| == |endTime| == n && |queues| == |load| == smCount && |order| <= n
      invariant Scheduled(deps, costs, order, home, queues, load, smCount)
      invariant Remaining(deps, order, remaining)
      invariant smHeap == HeapOf(load)
      invariant readyHeap == ReadyHeap(deps, costs, order)
      invariant Timed(costs, order, queues, startTime, endTime)
      invariant CostliestFirst(deps, costs, order) && LeastLoaded(costs, order, home, load, smCount)
      decreases n - |order|
    {
      HeapMembers(deps, costs, order, load);
      var ready, rest := PopMin(readyHeap);
      var node := ready.1;
      assert node < n && ready == (-costs[node], node);
      var sm, sms := PopMin(smHeap);
      assert sm.1 < smCount && sm == (load[sm.1], sm.1);
      LeastPair(readyHeap, ready);
      LeastPair(smHeap, sm);
      var end := sm.0 + costs[node];
      PlacedAreListed(deps, costs, order, home, queues, load, smCount);
      CostliestNext(deps, costs, order, node);
      LeastLoadedNext(costs, order, home, load, smCount, node, sm.1);
      TimedNext(costs, order, queues, load, startTime, endTime, node, sm.1);
      ScheduledNext(deps, costs, order, home, queues, load, smCount, node, sm.1);
      GreedyStep(load, sm.1, costs[node], 0);
      startTime, endTime := startTime[node := At(sm.0)], endTime[node := At(end)];
      queues := queues[sm.1 := queues[sm.1] + [node]];
      smHeap := sms + {(end, sm.1)};
      remaining, readyHeap := Release(deps, costs, node, children[node], remaining, rest, order);
      order, home, load := order + [node], home + [sm.1], load[sm.1 := end];
      OrderFits(deps, order);
    }
    ReadyIsInHeap(deps, costs, order);
    assert Finished(deps, costs, order, home, queues, load, smCount, startTime, endTime);
  }

  // ----- Which nodes are placed -----

  /** v lies on a dependency cycle or depends, directly or not, on a node that does. */
  ghost predicate BehindCycle(deps: Deps, v: nat) {
    exists path, i, j :: Path(deps, path) && path[|path| - 1] == v && 0 <= i < j < |path| && path[i] == path[j]
  }

  /** A finished schedule leaves out exactly the nodes on or behind a cycle; in particular it
      places every node of an acyclic graph. */
  lemma PlacedIffAcyclic(deps: Deps, order: seq<nat>, v: nat)
    requires WellFormed(deps) && Topological(deps, order, {}) && v < |deps|
    requires forall u: nat :: !IsReady(deps, order, u)
    ensures v in order <==> !BehindCycle(deps, v)
  {
    if v in order {
      forall path, i, j | Path(deps, path) && path[|path| - 1] == v && 0 <= i < j < |path|
        ensures path[i] != path[j]
      {
        NoRepeat(deps, order, path, i, j);
      }
    } else {
      var path := Descend(deps, order, v, |deps| + 2);
      var i, j := Repeated(path, |deps|);
    }
  }

  lemma NoRepeat(deps: Deps, order: seq<nat>, path: seq<nat>, i: nat, j: nat)
    requires Topological(deps, order, {}) && Path(deps, path) && path[|path| - 1] in order && i < j < |path|
    ensures path[i] != path[j]
  {
    if j < |path| - 1 {
      PathPart(deps, path, j, |path|);
      var _ := EarlierInOrder(deps, order, path[j..|path|]);
    }
    PathPart(deps, path, i, j + 1);
    var k := EarlierInOrder(deps, order, path[i..j + 1]);
    assert order[k] !in order[..k];
  }

  lemma PathPart(deps: Deps, path: seq<nat>, i: nat, j: nat)
    requires Path(deps, path) && i + 1 < j <= |path|
    ensures Path(deps, path[i..j])
  {
    var part := path[i..j];
    forall k | 0 < k < |part| ensures part[k - 1] in deps[part[k]] {
      assert part[k - 1] == path[i + k - 1] && part[k] == path[i + k];
    }
  }

  /** Whatever precedes a placed node was placed before it. */
  lemma EarlierInOrder(deps: Deps, order: seq<nat>, path: seq<nat>) returns (k: nat)
    requires Topological(deps, order, {}) && Path(deps, path) && path[|path| - 1] in order
    ensures k < |order| && order[k] == path[|path| - 1] && path[0] in order[..k] && path[0] in order
  {
    k :| 0 <= k < |order| && order[k] == path[|path| - 1];
    PrefixIsDownClosed(deps, order, {}, k);
    PrecedesInside(deps, path, {} + Elems(order[..k]));
  }

  /** From a node that is not placed one can walk down dependencies that are not placed. */
  lemma {:induction false} Descend(deps: Deps, order: seq<nat>, v: nat, n: nat) returns (path: seq<nat>)
    requires WellFormed(deps) && v < |deps| && v !in order && n > 1
    requires forall u: nat :: !IsReady(deps, order, u)
    ensures |path| == n && Path(deps, path) && path[n - 1] == v
    decreases n
  {
    assert !IsReady(deps, order, v);
    var d :| d in deps[v] && d !in Elems(order);
    if n == 2 {
      path := [d, v];
    } else {
      var below := Descend(deps, order, d, n - 1);
      path := below + [v];
    }
  }

  // ----- What a schedule guarantees -----

  ghost predicate InQueues(queues: seq<seq<nat>>, v: nat) {
    exists q, i :: 0 <= q < |queues| && 0 <= i < |queues[q]| && queues[q][i] == v
  }

  /** The queues hold exactly the dealt nodes. */
  lemma DealtAreQueued(order: seq<nat>, home: seq<nat>, m: nat, v: nat)
    requires |order| == |home| && (forall k :: 0 <= k < |home| ==> home[k] < m)
    requires forall k :: 0 <= k < |order| ==> order[k] !in order[..k]
    ensures InQueues(Deal(order, home, m), v) <==> v in order
  {
    var queues := Deal(order, home, m);
    var pcs := seq(m, q requires 0 <= q < m => |queues[q]|);
    DealHoldsAll(order, home, m, pcs);
    hide Deal;
    assert Complete(queues, pcs);
    if InQueues(queues, v) {
      var q, i :| 0 <= q < |queues| && 0 <= i < |queues[q]| && queues[q][i] == v;
      assert 0 <= i < pcs[q];
      assert Done(queues, pcs, v);
    }
    if v in order { assert Done(queues, pcs, v); }
  }

  // ----- The choices of the list schedule -----

  /** The cost of what is on SM `p` once the first `k` nodes of `order` are placed. */
  function LoadAt(costs: seq<int>, order: seq<nat>, home: seq<nat>, k: nat, p: nat): int
    requires |order| == |home| && k <= |order| && forall i :: 0 <= i < |order| ==> order[i] < |costs|
  {
    if k == 0 then 0
    else LoadAt(costs, order, home, k - 1, p) + if home[k - 1] == p then costs[order[k - 1]] else 0
  }

  lemma {:induction false} LoadAtPrefix(costs: seq<int>, order: seq<nat>, home: seq<nat>, n: nat, k: nat, p: nat)
    requires |order| == |home| && k <= n <= |order| && forall i :: 0 <= i < |order| ==> order[i] < |costs|
    ensures LoadAt(costs, order[..n], home[..n], k, p) == LoadAt(costs, order, home, k, p)
  {
    if k > 0 { LoadAtPrefix(costs, order, home, n, k - 1, p); }
  }

  /** Each node went to an SM with the least load of its time, the lowest-numbered of several. */
  lemma {:induction false} LeastLoadedIs(costs: seq<int>, order: seq<nat>, home: seq<nat>, load: seq<int>, m: nat,
                                         k: nat, p: nat)
    requires LeastLoaded(costs, order, home, load, m) && k <= |order| && p < m
    ensures |order| == |home| && |load| == m && forall i :: 0 <= i < |order| ==> order[i] < |costs|
    ensures load[p] == LoadAt(costs, order, home, |order|, p)
    ensures k < |order| ==>
      var mine, other := LoadAt(costs, order, home, k, home[k]), LoadAt(costs, order, home, k, p);
      home[k] < m && (mine < other || (mine == other && home[k] <= p))
    decreases |order|
  {
    if order != [] {
      var n := |order| - 1;
      var h := home[n];
      var before := load[h := load[h] - costs[order[n]]];
      LeastLoadedIs(costs, order[..n], home[..n], before, m, if k < n then k else n, p);
      LeastLoadedIs(costs, order[..n], home[..n], before, m, n, h);
      forall i | 0 <= i < |order| ensures order[i] < |costs| { assert i < n ==> order[i] == order[..n][i]; }
      LoadAtPrefix(costs, order, home, n, n, p);
      LoadAtPrefix(costs, order, home, n, n, h);
      if k < n {
        LoadAtPrefix(costs, order, home, n, k, p);
        LoadAtPrefix(costs, order, home, n, k, home[k]);
      } else if k == n {
        assert LexLe((before[h], h), (before[p], p));
      }
    }
  }

  /** The list schedule in full: there are a placement order and a home of every node such that
      each placed node is, among the nodes that are then ready, the costliest, and among equally
      costly ones the first in the list; and goes to the SM with the least load, among equally
      loaded ones the first. */
  lemma ScheduleIsGreedy(deps: Deps, costs: seq<int>, m: nat, queues: seq<seq<nat>>, startTime: seq<Timing>,
                         endTime: seq<Timing>)
    returns (order: seq<nat>, home: seq<nat>)
    requires |costs| == |deps| && IsSchedule(deps, costs, m, queues, startTime, endTime)
    ensures |order| == |home| && (forall k :: 0 <= k < |order| ==> order[k] < |deps| && home[k] < m)
    ensures queues == Deal(order, home, m) && forall k :: 0 <= k < |order| ==> order[k] !in order[..k]
    ensures forall k: nat, u: nat :: k < |order| && u < |deps| && u !in order[..k] && deps[u] <= Elems(order[..k]) ==>
      costs[u] < costs[order[k]] || (costs[u] == costs[order[k]] && order[k] <= u)
    ensures forall u: nat :: u < |deps| && u !in order ==> !(deps[u] <= Elems(order))
    ensures forall k: nat, p: nat {:trigger LoadAt(costs, order, home, k, p)} :: k < |order| && p < m ==>
      var mine, other := LoadAt(costs, order, home, k, home[k]), LoadAt(costs, order, home, k, p);
      mine < other || (mine == other && home[k] <= p)
  {
    var load;
    order, home, load :| Finished(deps, costs, order, home, queues, load, m, startTime, endTime);
    InRange(deps, order, {});
    hide LoadsAre, Balanced, Timed, Topological, Deal;
    forall k: nat, u: nat | k < |order| && u < |deps| && u !in order[..k] && deps[u] <= Elems(order[..k])
      ensures costs[u] < costs[order[k]] || (costs[u] == costs[order[k]] && order[k] <= u)
    {
      CostliestIs(deps, costs, order, k, u);
    }
    forall u: nat | u < |deps| && u !in order ensures !(deps[u] <= Elems(order)) { assert !IsReady(deps, order, u); }
    hide CostliestFirst, IsReady;
    forall k: nat, p: nat {:trigger LoadAt(costs, order, home, k, p)} | k < |order| && p < m
      ensures var mine, other := LoadAt(costs, order, home, k, home[k]), LoadAt(costs, order, home, k, p);
        mine < other || (mine == other && home[k] <= p)
    {
      LeastLoadedIs(costs, order, home, load, m, k, p);
    }
  }

  /** When the instruction at position `i` of a queue was placed. */
  lemma {:induction false} DealPosition(order: seq<nat>, home: seq<nat>, m: nat, q: nat, i: nat) returns (k: nat)
    requires |order| == |home| && (forall i :: 0 <= i < |home| ==> home[i] < m) && q < m
    requires i < |Deal(order, home, m)[q]|
    ensures k < |order| && home[k] == q && order[k] == Deal(order, home, m)[q][i]
    ensures Deal(order[..k], home[..k], m)[q] == Deal(order, home, m)[q][..i]
    decreases |order|
  {
    var n := |order| - 1;
    DealGrows(order, home, m, n, q);
    var before := Deal(order[..n], home[..n], m);
    if i < |before[q]| {
      k := DealPosition(order[..n], home[..n], m, q, i);
      assert order[..n][..k] == order[..k] && home[..n][..k] == home[..k];
    } else {
      k := n;
      assert Deal(order, home, m)[q] == before[q] + [order[n]];
    }
  }

  lemma DealKeeps(order: seq<nat>, home: seq<nat>, m: nat, q: nat)
    requires |order| == |home| && (forall i :: 0 <= i < |home| ==> home[i] < m) && q < m
    ensures forall i :: 0 <= i < |Deal(order, home, m)[q]| ==> Deal(order, home, m)[q][i] in order
  {
    forall i | 0 <= i < |Deal(order, home, m)[q]| ensures Deal(order, home, m)[q][i] in order {
      var k := DealPosition(order, home, m, q, i);
    }
  }

  lemma PlacedLater(order: seq<nat>, home: seq<nat>, m: nat, q: nat, k: nat, l: nat)
    requires |order| == |home| && (forall i :: 0 <= i < |home| ==> home[i] < m) && q < m && k <= |order| && l <= |order|
    requires |Deal(order[..k], home[..k], m)[q]| < |Deal(order[..l], home[..l], m)[q]|
    ensures k < l
  {
    if l <= k {
      assert order[..k][..l] == order[..l] && home[..k][..l] == home[..l];
      DealGrows(order[..k], home[..k], m, l, q);
    }
  }

  /** In one queue, an instruction stands before another that waits for nothing but what stands
      before both only if it costs more, or as much and comes first in the list. */
  lemma QueueByCost(deps: Deps, costs: seq<int>, m: nat, queues: seq<seq<nat>>, startTime: seq<Timing>,
                    endTime: seq<Timing>, q: nat, i: nat, j: nat)
    requires |costs| == |deps| && IsSchedule(deps, costs, m, queues, startTime, endTime)
    requires q < |queues| && i < j < |queues[q]|
    ensures queues[q][i] < |deps| && queues[q][j] < |deps|
    ensures deps[queues[q][j]] <= Elems(queues[q][..i]) ==>
      var u, v := queues[q][i], queues[q][j]; costs[u] > costs[v] || (costs[u] == costs[v] && u < v)
  {
    hide CostliestFirst, LeastLoaded, Timed, LoadsAre, Balanced, IsReady;
    var order, home, load :| Finished(deps, costs, order, home, queues, load, m, startTime, endTime);
    InRange(deps, order, {});
    hide Deal;
    var k := QueuedFirst(deps, order, home, m, q, i, j);
    if deps[queues[q][j]] <= Elems(queues[q][..i]) { CostliestIs(deps, costs, order, k, queues[q][j]); }
  }

  /** When the i-th instruction of a queue was placed, a later one of the queue was still to come,
      and what stood before in the queue had been placed. */
  lemma QueuedFirst(deps: Deps, order: seq<nat>, home: seq<nat>, m: nat, q: nat, i: nat, j: nat) returns (k: nat)
    requires |order| == |home| && (forall i :: 0 <= i < |home| ==> home[i] < m) && q < m
    requires Topological(deps, order, {}) && i < j < |Deal(order, home, m)[q]|
    ensures var queue := Deal(order, home, m)[q];
      && k < |order| && order[k] == queue[i] && queue[j] !in order[..k] && queue[j] != queue[i]
      && queue[j] in order && Elems(queue[..i]) <= Elems(order[..k])
  {
    hide Deal, Topological, Elems;
    k := DealPosition(order, home, m, q, i);
    var l := DealPosition(order, home, m, q, j);
    PlacedLater(order, home, m, q, k, l);
    NotYet(deps, order, k, l);
    WasReady(order[..k], home[..k], m, q, Elems(Deal(order, home, m)[q][..i]));
  }

  lemma NotYet(deps: Deps, order: seq<nat>, k: nat, l: nat)
    requires Topological(deps, order, {}) && k < l < |order|
    ensures order[l] !in order[..k] && order[l] != order[k]
  {
    assert order[..k] == order[..l][..k] && order[k] in order[..l];
  }

  lemma CostliestIs(deps: Deps, costs: seq<int>, order: seq<nat>, k: nat, u: nat)
    requires CostliestFirst(deps, costs, order) && k < |order|
    requires u < |deps| && u !in order[..k] && deps[u] <= Elems(order[..k])
    ensures order[k] < |costs| && u < |costs|
    ensures costs[u] < costs[order[k]] || (costs[u] == costs[order[k]] && order[k] <= u)
  {
    assert IsReady(deps, order[..k], u);
    assert First(costs, order[k], u);
  }

  lemma WasReady(order: seq<nat>, home: seq<nat>, m: nat, q: nat, waits: set<nat>)
    requires |order| == |home| && (forall i :: 0 <= i < |home| ==> home[i] < m) && q < m
    requires waits <= Elems(Deal(order, home, m)[q])
    ensures waits <= Elems(order)
  {
    DealKeeps(order, home, m, q);
    hide Deal;
  }

  /** On one SM, instructions without dependencies run costliest first, equally costly ones in
      list order, and all of them run. */
  lemma OneSmByCost(deps: Deps, costs: seq<int>, queues: seq<seq<nat>>, startTime: seq<Timing>, endTime: seq<Timing>,
                    i: nat, j: nat, v: nat)
    requires |costs| == |deps| && IsSchedule(deps, costs, 1, queues, startTime, endTime)
    requires forall u :: 0 <= u < |deps| ==> deps[u] == {}
    ensures |queues| == 1 && (v < |deps| ==> v in queues[0])
    ensures i < j < |queues[0]| ==>
      var u, w := queues[0][i], queues[0][j];
      u < |costs| && w < |costs| && (costs[u] > costs[w] || (costs[u] == costs[w] && u < w))
  {
    hide IsSchedule;
    var order, home := ScheduleIsGreedy(deps, costs, 1, queues, startTime, endTime);
    DealtToOne(order, home);
    if v < |deps| { assert deps[v] <= Elems(order); }
    if i < j < |queues[0]| {
      QueueByCost(deps, costs, 1, queues, startTime, endTime, 0, i, j);
    }
  }

  /** When what is queued starts and ends. */
  lemma ScheduleTimes(deps: Deps, costs: seq<int>, m: nat, queues: seq<seq<nat>>, startTime: seq<Timing>,
                  endTime: seq<Timing>)
    requires |costs| == |deps| && IsSchedule(deps, costs, m, queues, startTime, endTime)
    ensures |queues| == m && |startTime| == |endTime| == |deps| && InRangeOf(queues, |costs|)
    ensures forall q, i :: 0 <= q < m && 0 <= i < |queues[q]| ==>
      && startTime[queues[q][i]] == At(Cost(costs, queues[q][..i]))
      && endTime[queues[q][i]] == At(Cost(costs, queues[q][..i]) + costs[queues[q][i]])
  {
    hide Deal, Topological, Balanced, CostliestFirst, LeastLoaded, Cost, IsReady, NonNegative;
    var order, home, load :| Finished(deps, costs, order, home, queues, load, m, startTime, endTime);
    forall q, i | 0 <= q < m && 0 <= i < |queues[q]|
      ensures startTime[queues[q][i]] == At(Cost(costs, queues[q][..i]))
      ensures endTime[queues[q][i]] == At(Cost(costs, queues[q][..i]) + costs[queues[q][i]])
    {
      assert TimedAt(costs, queues[q], i, startTime, endTime);
    }
  }

  /** A schedule has each node at most once, and leaves out exactly the nodes on or behind a
      cycle of dependencies.  Exactly the nodes in a queue have times: each starts when what is
      before it in its queue has run, and ends its cost later. */
  lemma ScheduleHolds(deps: Deps, costs: seq<int>, m: nat, queues: seq<seq<nat>>, startTime: seq<Timing>,
                  endTime: seq<Timing>, v: nat)
    requires WellFormed(deps) && |costs| == |deps| && IsSchedule(deps, costs, m, queues, startTime, endTime)
    ensures |queues| == m && Distinct(queues)
    ensures InQueues(queues, v) <==> v < |deps| && !BehindCycle(deps, v)
    ensures |startTime| == |endTime| == |deps|
    ensures v < |deps| ==> (startTime[v].At? <==> InQueues(queues, v))
    ensures InRangeOf(queues, |costs|)
    ensures forall q, i :: 0 <= q < m && 0 <= i < |queues[q]| ==>
      && startTime[queues[q][i]] == At(Cost(costs, queues[q][..i]))
      && endTime[queues[q][i]] == At(Cost(costs, queues[q][..i]) + costs[queues[q][i]])
  {
    hide BehindCycle, LoadsAre, Balanced;
    var order, home, load :| Finished(deps, costs, order, home, queues, load, m, startTime, endTime);
    InRange(deps, order, {});
    DealIsDistinct(order, home, m);
    DealtAreQueued(order, home, m, v);
    if v < |deps| {
      PlacedIffAcyclic(deps, order, v);
      if InQueues(queues, v) {
        var q, i :| 0 <= q < |queues| && 0 <= i < |queues[q]| && queues[q][i] == v;
        assert TimedAt(costs, queues[q], i, startTime, endTime);
      }
    }
    hide Deal, Distinct, Cost;
    ScheduleTimes(deps, costs, m, queues, startTime, endTime);
  }

  lemma LoadBound(deps: Deps, costs: seq<int>, order: seq<nat>, home: seq<nat>, queues: seq<seq<nat>>, load: seq<int>,
                  m: nat, q: nat, c: nat)
    requires |costs| == |deps| && NonNegative(costs) && Scheduled(deps, costs, order, home, queues, load, m) && q < m
    requires forall v :: 0 <= v < |costs| ==> costs[v] <= c
    ensures (forall k :: 0 <= k < |order| ==> order[k] < |costs|) && |queues| == m && InRangeOf(queues, |costs|)
    ensures m * Cost(costs, queues[q]) <= Cost(costs, order) + (m - 1) * c
  {
    InRange(deps, order, {});
    BalancedBound(costs, order, home, queues, load, m, q, c);
    hide Deal, Balanced, Topological, Cost;
  }

  /** What a balanced deal is worth, if no cost is above `c`. */
  lemma BalancedBound(costs: seq<int>, order: seq<nat>, home: seq<nat>, queues: seq<seq<nat>>, load: seq<int>,
                      m: nat, q: nat, c: nat)
    requires |order| == |home| && (forall k :: 0 <= k < |home| ==> home[k] < m) && queues == Deal(order, home, m)
    requires (forall k :: 0 <= k < |order| ==> order[k] < |costs|) && LoadsAre(load, costs, queues) && q < m
    requires Balanced(load, Largest(costs)) && forall v :: 0 <= v < |costs| ==> costs[v] <= c
    ensures m * Cost(costs, queues[q]) <= Cost(costs, order) + (m - 1) * c
  {
    hide Deal, Largest, Cost, Sum, Balanced;
    LoadsTotal(costs, order, home, m, load);
    MakespanBound(load, Largest(costs), q);
    LargestIsLeast(costs, c);
    ScaledUp(m - 1, Largest(costs), c);
  }

  lemma ScaledUp(k: nat, a: int, b: int)
    requires a <= b
    ensures k * a <= k * b
  {
    assert k * b - k * a == k * (b - a);
  }

  /** If no cost is above `c`, the cost of a queue is within m-1 times `c` of a fair share of
      everything queued, which `order` lists, once each. */
  lemma ScheduleIsBalanced(deps: Deps, costs: seq<int>, m: nat, queues: seq<seq<nat>>, startTime: seq<Timing>,
                  endTime: seq<Timing>, q: nat, c: nat)
    returns (order: seq<nat>)
    requires |costs| == |deps| && (forall v :: 0 <= v < |costs| ==> 0 <= costs[v] <= c)
    requires IsSchedule(deps, costs, m, queues, startTime, endTime) && q < m
    ensures forall k :: 0 <= k < |order| ==> order[k] < |costs| && order[k] !in order[..k]
    ensures forall v: nat ::
      v in order <==> exists p, i :: 0 <= p < |queues| && 0 <= i < |queues[p]| && queues[p][i] == v
    ensures |queues| == m && InRangeOf(queues, |costs|)
    ensures m * Cost(costs, queues[q]) <= Cost(costs, order) + (m - 1) * c
  {
    hide Deal, Largest, Balanced, LoadsAre, Cost, InRangeOf, Timed, IsReady, CostliestFirst, LeastLoaded;
    var home, load;
    order, home, load :| Finished(deps, costs, order, home, queues, load, m, startTime, endTime);
    InRange(deps, order, {});
    assert NonNegative(costs);
    LoadBound(deps, costs, order, home, queues, load, m, q, c);
    hide NonNegative;
    QueuedAreListed(order, home, queues, m);
  }

  lemma QueuedAreListed(order: seq<nat>, home: seq<nat>, queues: seq<seq<nat>>, m: nat)
    requires |order| == |home| && (forall k :: 0 <= k < |home| ==> home[k] < m) && queues == Deal(order, home, m)
    requires forall k :: 0 <= k < |order| ==> order[k] !in order[..k]
    ensures forall v: nat ::
      v in order <==> exists p, i :: 0 <= p < |queues| && 0 <= i < |queues[p]| && queues[p][i] == v
  {
    hide Deal;
    forall v: nat
      ensures v in order <==> exists p, i :: 0 <= p < |queues| && 0 <= i < |queues[p]| && queues[p][i] == v
    {
      DealtAreQueued(order, home, m, v);
    }
  }

  // ----- When start times respect dependencies -----

  /** Every node that starts does so when its dependencies have ended. */
  ghost predicate StartsAfterDeps(deps: Deps, startTime: seq<Timing>, endTime: seq<Timing>) {
    && |startTime| == |endTime| == |deps|
    && forall v, d :: 0 <= v < |deps| && d in deps[v] && startTime[v].At? ==> EndedBy(d, startTime[v].time, endTime)
  }

  ghost predicate EndedBy(d: nat, time: int, endTime: seq<Timing>) {
    d < |endTime| && endTime[d].At? && endTime[d].time <= time
  }

  lemma {:induction false} CostMono(costs: seq<int>, queue: seq<nat>, j: nat, k: nat)
    requires NonNegative(costs) && (forall i :: 0 <= i < |queue| ==> queue[i] < |costs|) && j <= k <= |queue|
    ensures Cost(costs, queue[..j]) <= Cost(costs, queue[..k])
    decreases k - j
  {
    if j < k {
      CostMono(costs, queue, j, k - 1);
      assert queue[..k] == queue[..k - 1] + [queue[k - 1]];
      CostNext(costs, queue[..k - 1], queue[k - 1]);
    }
  }

  /** On one SM the schedule is the placement order, so dependencies have ended. */
  lemma OneSmStartsInOrder(deps: Deps, costs: seq<int>, queues: seq<seq<nat>>, startTime: seq<Timing>,
                           endTime: seq<Timing>)
    requires WellFormed(deps) && |costs| == |deps| && NonNegative(costs)
    requires IsSchedule(deps, costs, 1, queues, startTime, endTime)
    ensures |startTime| == |endTime| == |deps|
    ensures forall v: nat, d: nat :: v < |deps| && d in deps[v] && startTime[v].At? ==>
      d < |endTime| && endTime[d].At? && endTime[d].time <= startTime[v].time
    ensures StartsAfterDeps(deps, startTime, endTime)
  {
    var order, home, load :| Finished(deps, costs, order, home, queues, load, 1, startTime, endTime);
    hide LoadsAre, Balanced, CostliestFirst, LeastLoaded, IsReady, WellFormed;
    DealtToOne(order, home);
    hide Deal;
    assert queues[0] == order;
    forall v, d | 0 <= v < |deps| && d in deps[v] && startTime[v].At? ensures EndedBy(d, startTime[v].time, endTime) {
      assert v in order;
      var k :| 0 <= k < |order| && order[k] == v;
      assert d in Elems(order[..k]);
      var j :| 0 <= j < k && order[j] == d;
      EndsBefore(costs, order, j, k, startTime, endTime);
    }
  }

  lemma EndsBefore(costs: seq<int>, queue: seq<nat>, j: nat, k: nat, startTime: seq<Timing>, endTime: seq<Timing>)
    requires NonNegative(costs) && j < k < |queue|
    requires TimedAt(costs, queue, j, startTime, endTime) && TimedAt(costs, queue, k, startTime, endTime)
    ensures startTime[queue[k]].At? && EndedBy(queue[j], startTime[queue[k]].time, endTime)
  {
    assert queue[..j + 1] == queue[..j] + [queue[j]];
    CostNext(costs, queue[..j], queue[j]);
    CostMono(costs, queue, j + 1, k);
    hide Cost;
  }

  /** The least pair of a heap. */
  lemma {:induction false} LeastOf(heap: set<(int, nat)>) returns (min: (int, nat))
    requires heap != {}
    ensures min in heap && forall x :: x in heap ==> LexLe(min, x)
    decreases heap
  {
    var some :| some in heap;
    min := some;
    if heap != {some} {
      var below := LeastOf(heap - {some});
      if LexLe(below, some) { min := below; }
      forall x | x in heap ensures LexLe(min, x) { assert x == some || x in heap - {some}; }
    }
  }

  /** What the loop of `AssignDag` keeps. */
  ghost predicate Partial(deps: Deps, costs: seq<int>, order: seq<nat>, home: seq<nat>, queues: seq<seq<nat>>,
                          load: seq<int>, m: nat, startTime: seq<Timing>, endTime: seq<Timing>)
  {
    && Scheduled(deps, costs, order, home, queues, load, m)
    && CostliestFirst(deps, costs, order) && LeastLoaded(costs, order, home, load, m)
    && Timed(costs, order, queues, startTime, endTime)
  }

  /** Every partial list schedule can be finished, so there is one of every graph. */
  lemma ScheduleExists(deps: Deps, costs: seq<int>, order: seq<nat>, home: seq<nat>, queues: seq<seq<nat>>,
                       load: seq<int>, m: nat, startTime: seq<Timing>, endTime: seq<Timing>)
    returns (queues': seq<seq<nat>>, startTime': seq<Timing>, endTime': seq<Timing>)
    requires |costs| == |deps| && m > 0 && |load| == m
    requires Partial(deps, costs, order, home, queues, load, m, startTime, endTime)
    ensures IsSchedule(deps, costs, m, queues', startTime', endTime')
    decreases |deps| - |order|
  {
    OrderFits(deps, order);
    hide Deal, LoadsAre, Balanced, Topological, IsReady, ReadyHeap, HeapOf, Timed, CostliestFirst, LeastLoaded, LexLe;
    ReadyIsInHeap(deps, costs, order);
    if ReadyHeap(deps, costs, order) == {} {
      assert Finished(deps, costs, order, home, queues, load, m, startTime, endTime);
      queues', startTime', endTime' := queues, startTime, endTime;
    } else {
      HeapMembers(deps, costs, order, load);
      var ready := LeastOf(ReadyHeap(deps, costs, order));
      var sm := LeastOf(HeapOf(load));
      var v, q := ready.1, sm.1;
      PlacedAreListed(deps, costs, order, home, queues, load, m);
      CostliestNext(deps, costs, order, v);
      LeastLoadedNext(costs, order, home, load, m, v, q);
      TimedNext(costs, order, queues, load, startTime, endTime, v, q);
      ScheduledNext(deps, costs, order, home, queues, load, m, v, q);
      OrderFits(deps, order + [v]);
      queues', startTime', endTime' := ScheduleExists(deps, costs, order + [v], home + [q],
        queues[q := queues[q] + [v]], load[q := load[q] + costs[v]], m, startTime[v := At(load[q])],
        endTime[v := At(load[q] + costs[v])]);
    }
  }

  /** Two instructions of cost 1, the second depending on the first. */
  function Chain(): Deps {
    [{}, {0}]
  }

  lemma ChainOrder(order: seq<nat>)
    requires Topological(Chain(), order, {}) && forall v: nat :: !IsReady(Chain(), order, v)
    ensures order == [0, 1]
  {
    var deps := Chain();
    assert 0 in order by { assert !IsReady(deps, order, 0) && deps[0] == {}; }
    assert 1 in order by { assert !IsReady(deps, order, 1) && deps[1] <= Elems(order); }
    hide IsReady;
    OrderFits(deps, order);
    assert order[0] == 0 by {
      assert deps[order[0]] <= {} + Elems(order[..0]);
      assert 0 in deps[1] && order[..0] == [];
    }
  }

  lemma ChainHomes(home: seq<nat>, load: seq<int>, m: nat)
    requires m >= 2 && |load| == m && LeastLoaded([1, 1], [0, 1], home, load, m)
    ensures home == [0, 1]
  {
    var order, first := [0, 1], [0];
    assert order[..1] == first && first[..0] == [];
    var before := load[home[1] := load[home[1]] - 1];
    assert LeastLoaded([1, 1], first, home[..1], before, m);
    var h := home[0];
    var none := before[h := before[h] - 1];
    assert LeastLoaded([1, 1], first[..0], home[..1][..0], none, m);
    assert none == seq(m, _ => 0);
    assert LexLe((none[h], h), (none[0], 0));
    assert before[0] == 1 && before[1] == none[1] == 0;
    assert LexLe((before[home[1]], home[1]), (before[1], 1));
    assert home[1] != 0 ==> before[home[1]] == none[home[1]] == 0;
  }

  lemma ChainQueues(m: nat)
    requires m >= 2
    ensures Deal([0, 1], [0, 1], m)[0] == [0] && Deal([0, 1], [0, 1], m)[1] == [1]
  {
    DealAppend([], [], m, 0, 0);
    assert [] + [0] == [0];
    DealAppend([0], [0], m, 1, 1);
    assert [0] + [1] == [0, 1];
  }

  /** With a second SM, the second instruction starts at once, before the first has ended. */
  lemma ChainStartsEarly(m: nat, queues: seq<seq<nat>>, startTime: seq<Timing>, endTime: seq<Timing>)
    requires m >= 2 && IsSchedule(Chain(), [1, 1], m, queues, startTime, endTime)
    ensures |startTime| == |endTime| == 2 && startTime[1] == At(0) && endTime[0] == At(1)
    ensures !StartsAfterDeps(Chain(), startTime, endTime)
  {
    var order, home, load :| Finished(Chain(), [1, 1], order, home, queues, load, m, startTime, endTime);
    ChainOrder(order);
    hide IsReady, CostliestFirst, Topological, Balanced, NonNegative, LexLe;
    ChainHomes(home, load, m);
    ChainQueues(m);
    hide LeastLoaded, Deal, LoadsAre;
    assert TimedAt([1, 1], queues[0], 0, startTime, endTime) && TimedAt([1, 1], queues[1], 0, startTime, endTime);
    assert 0 in Chain()[1];
  }

  ghost predicate StartsInOrder(m: nat, deps: Deps, costs: seq<int>) {
    WellFormed(deps) && |costs| == |deps| && NonNegative(costs) ==>
      forall queues, startTime, endTime :: IsSchedule(deps, costs, m, queues, startTime, endTime) ==>
        StartsAfterDeps(deps, startTime, endTime)
  }

  lemma OneSm(deps: Deps, costs: seq<int>)
    ensures StartsInOrder(1, deps, costs)
  {
    hide StartsAfterDeps, IsSchedule;
    if WellFormed(deps) && |costs| == |deps| && NonNegative(costs) {
      forall queues, startTime, endTime | IsSchedule(deps, costs, 1, queues, startTime, endTime)
        ensures StartsAfterDeps(deps, startTime, endTime)
      {
        OneSmStartsInOrder(deps, costs, queues, startTime, endTime);
      }
    }
  }

  lemma TwoSms(m: nat)
    requires m >= 2
    ensures !StartsInOrder(m, Chain(), [1, 1])
  {
    hide StartsAfterDeps, IsSchedule, Scheduled, Timed, CostliestFirst, LeastLoaded, ReadyHeap, HeapOf, Remaining;
    ScheduledStart(Chain(), [1, 1], m);
    NothingTimed([1, 1], m);
    NothingPicked(Chain(), [1, 1], m);
    var queues, startTime, endTime := ScheduleExists(Chain(), [1, 1], [], [], NoQueues(m), seq(m, _ => 0), m,
                                                     seq(2, _ => Unset), seq(2, _ => Unset));
    ChainStartsEarly(m, queues, startTime, endTime);
  }

  /** No node of any graph starts before its dependencies have ended, whatever the costs,
      exactly when there is one SM. */
  lemma StartsInOrderExactly(m: nat)
    requires m > 0
    ensures (forall deps, costs :: StartsInOrder(m, deps, costs)) <==> m == 1
  {
    hide StartsInOrder;
    if m == 1 {
      forall deps, costs ensures StartsInOrder(m, deps, costs) { OneSm(deps, costs); }
    } else {
      TwoSms(m);
    }
  }
}
