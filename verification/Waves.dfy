/** Wave mode of Megakernels/megakernels/scheduler.py: instructions are split into waves of one
    opcode, each wave is sorted by cost and placed greedily; and what the modes guarantee of a
    whole run. */
module Waves {
  import opened Counting
  import opened Execution
  import opened SmQueues
  import opened Scheduler
  import opened Modes

  // ----- Sorting a wave by cost, largest first -----

  ghost predicate Known(costs: seq<int>, s: seq<nat>) {
    forall i :: 0 <= i < |s| ==> s[i] < |costs|
  }

  function Insert(costs: seq<int>, s: seq<nat>, v: nat): (r: seq<nat>)
    requires Known(costs, s) && v < |costs|
    ensures |r| == |s| + 1 && Known(costs, r) && multiset(r) == multiset(s) + multiset{v}
  {
    if s == [] || costs[s[|s| - 1]] >= costs[v] then s + [v]
    else
      var n := |s| - 1;
      assert s == s[..n] + [s[n]];
      Insert(costs, s[..n], v) + [s[n]]
  }

  /** `sorted(wave, key=cost, reverse=True)`: Python keeps equal elements in order. */
  function SortDescending(costs: seq<int>, s: seq<nat>): (r: seq<nat>)
    requires Known(costs, s)
    ensures |r| == |s| && Known(costs, r) && multiset(r) == multiset(s)
  {
    if s == [] then []
    else
      var n := |s| - 1;
      assert s == s[..n] + [s[n]];
      Insert(costs, SortDescending(costs, s[..n]), s[n])
  }

  ghost predicate Descending(costs: seq<int>, s: seq<nat>)
    requires Known(costs, s)
  {
    forall i, j :: 0 <= i < j < |s| ==> costs[s[i]] >= costs[s[j]]
  }

  /** The instructions of one cost, in order. */
  function OfCost(costs: seq<int>, s: seq<nat>, c: int): seq<nat>
    requires Known(costs, s)
  {
    if s == [] then []
    else
      var n := |s| - 1;
      OfCost(costs, s[..n], c) + if costs[s[n]] == c then [s[n]] else []
  }

  lemma AppendSmallest(costs: seq<int>, s: seq<nat>, v: nat)
    requires Known(costs, s) && v < |costs| && Descending(costs, s)
    requires forall x :: x in s ==> costs[x] >= costs[v]
    ensures Descending(costs, s + [v])
  {
    var r := s + [v];
    forall i, j | 0 <= i < j < |r| ensures costs[r[i]] >= costs[r[j]] {
      if j < |s| { assert costs[s[i]] >= costs[s[j]]; } else { assert s[i] in s; }
    }
  }

  lemma {:induction false} InsertDescends(costs: seq<int>, s: seq<nat>, v: nat)
    requires Known(costs, s) && v < |costs| && Descending(costs, s)
    ensures Descending(costs, Insert(costs, s, v))
  {
    var n := |s| - 1;
    if s == [] || costs[s[n]] >= costs[v] {
      forall x | x in s ensures costs[x] >= costs[v] {
        var i :| 0 <= i < |s| && s[i] == x;
        assert i < n ==> costs[s[i]] >= costs[s[n]];
      }
      AppendSmallest(costs, s, v);
    } else {
      InsertDescends(costs, s[..n], v);
      var below := Insert(costs, s[..n], v);
      forall x | x in below ensures costs[x] >= costs[s[n]] {
        assert x in multiset(below);
        assert x == v || x in s[..n];
      }
      AppendSmallest(costs, below, s[n]);
    }
  }

  lemma OfCostNext(costs: seq<int>, s: seq<nat>, v: nat, c: int)
    requires Known(costs, s) && v < |costs|
    ensures OfCost(costs, s + [v], c) == OfCost(costs, s, c) + if costs[v] == c then [v] else []
  {
    assert (s + [v])[..|s|] == s;
  }

  lemma {:induction false} InsertIsStable(costs: seq<int>, s: seq<nat>, v: nat, c: int)
    requires Known(costs, s) && v < |costs|
    ensures OfCost(costs, Insert(costs, s, v), c) == OfCost(costs, s, c) + if costs[v] == c then [v] else []
  {
    var n := |s| - 1;
    if s == [] || costs[s[n]] >= costs[v] {
      OfCostNext(costs, s, v, c);
    } else {
      InsertIsStable(costs, s[..n], v, c);
      OfCostNext(costs, Insert(costs, s[..n], v), s[n], c);
      hide Insert, Known;
      assert OfCost(costs, s, c) == OfCost(costs, s[..n], c) + if costs[s[n]] == c then [s[n]] else [];
    }
  }

  /** The sorted wave is the wave, largest cost first, equal costs in their old order. */
  lemma {:induction false} SortSorts(costs: seq<int>, s: seq<nat>, c: int)
    requires Known(costs, s)
    ensures Descending(costs, SortDescending(costs, s))
    ensures OfCost(costs, SortDescending(costs, s), c) == OfCost(costs, s, c)
  {
    if s != [] {
      var n := |s| - 1;
      SortSorts(costs, s[..n], c);
      InsertDescends(costs, SortDescending(costs, s[..n]), s[n]);
      InsertIsStable(costs, SortDescending(costs, s[..n]), s[n], c);
    }
  }

  ghost predicate StandsBefore(s: seq<nat>, u: nat, v: nat) {
    exists a, b :: 0 <= a < b < |s| && s[a] == u && s[b] == v
  }

  ghost predicate StablyOrdered(costs: seq<int>, r: seq<nat>, s: seq<nat>)
    requires Known(costs, r)
  {
    forall i, j :: 0 <= i < j < |r| ==>
      costs[r[i]] > costs[r[j]] || (costs[r[i]] == costs[r[j]] && StandsBefore(s, r[i], r[j]))
  }

  lemma StandsLast(s: seq<nat>, u: nat, v: nat)
    requires u in s
    ensures StandsBefore(s + [v], u, v)
  {
    var a :| 0 <= a < |s| && s[a] == u;
    assert (s + [v])[a] == u && (s + [v])[|s|] == v;
  }

  lemma StillBefore(s: seq<nat>, u: nat, w: nat, v: nat)
    requires StandsBefore(s, u, w)
    ensures StandsBefore(s + [v], u, w)
  {
    var a, b :| 0 <= a < b < |s| && s[a] == u && s[b] == w;
    assert (s + [v])[a] == u && (s + [v])[b] == w;
  }

  lemma AppendStably(costs: seq<int>, r: seq<nat>, s: seq<nat>, v: nat)
    requires Known(costs, r) && v < |costs| && StablyOrdered(costs, r, s)
    requires forall i :: 0 <= i < |r| ==>
      costs[r[i]] > costs[v] || (costs[r[i]] == costs[v] && StandsBefore(s, r[i], v))
    ensures StablyOrdered(costs, r + [v], s)
  {
    hide StandsBefore;
  }

  lemma StillOrdered(costs: seq<int>, r: seq<nat>, s: seq<nat>, v: nat)
    requires Known(costs, r) && StablyOrdered(costs, r, s)
    ensures StablyOrdered(costs, r, s + [v])
  {
    hide StandsBefore;
    forall i, j | 0 <= i < j < |r|
      ensures costs[r[i]] > costs[r[j]] || (costs[r[i]] == costs[r[j]] && StandsBefore(s + [v], r[i], r[j]))
    {
      if StandsBefore(s, r[i], r[j]) { StillBefore(s, r[i], r[j], v); }
    }
  }

  /** `v`, the last of the wave, goes after everything that costs as much or more. */
  lemma PutLast(costs: seq<int>, r: seq<nat>, s: seq<nat>, v: nat)
    requires Known(costs, r) && v < |costs| && Descending(costs, r) && StablyOrdered(costs, r, s + [v])
    requires (forall i :: 0 <= i < |r| ==> r[i] in s) && (r != [] ==> costs[r[|r| - 1]] >= costs[v])
    ensures StablyOrdered(costs, r + [v], s + [v])
  {
    forall i | 0 <= i < |r| ensures costs[r[i]] >= costs[v] && StandsBefore(s + [v], r[i], v) {
      StandsLast(s, r[i], v);
      assert i < |r| - 1 ==> costs[r[i]] >= costs[r[|r| - 1]];
    }
    hide StandsBefore, StablyOrdered, Descending;
    AppendStably(costs, r, s + [v], v);
  }

  /** What stood before the last still does, and `v` costs more than the last. */
  lemma PutBefore(costs: seq<int>, r: seq<nat>, s: seq<nat>, v: nat)
    requires r != [] && Known(costs, r) && v < |costs| && StablyOrdered(costs, r, s)
    requires costs[r[|r| - 1]] < costs[v] && StablyOrdered(costs, Insert(costs, r[..|r| - 1], v), s)
    ensures StablyOrdered(costs, Insert(costs, r, v), s)
  {
    var n := |r| - 1;
    var below := Insert(costs, r[..n], v);
    forall i | 0 <= i < |below|
      ensures costs[below[i]] > costs[r[n]] || (costs[below[i]] == costs[r[n]] && StandsBefore(s, below[i], r[n]))
    {
      assert below[i] in multiset(below);
      if below[i] != v {
        assert below[i] in r[..n];
        var a :| 0 <= a < n && r[a] == below[i];
      }
    }
    hide StandsBefore;
    AppendStably(costs, below, s, r[n]);
  }

  lemma {:induction false} InsertStably(costs: seq<int>, r: seq<nat>, s: seq<nat>, v: nat)
    requires Known(costs, r) && v < |costs| && Descending(costs, r) && StablyOrdered(costs, r, s)
    requires forall i :: 0 <= i < |r| ==> r[i] in s
    ensures StablyOrdered(costs, Insert(costs, r, v), s + [v])
  {
    StillOrdered(costs, r, s, v);
    var n := |r| - 1;
    if r == [] || costs[r[n]] >= costs[v] {
      hide StablyOrdered, Descending;
      PutLast(costs, r, s, v);
    } else {
      assert Descending(costs, r[..n]) && StablyOrdered(costs, r[..n], s);
      hide StablyOrdered, Descending, Insert;
      InsertStably(costs, r[..n], s, v);
      PutBefore(costs, r, s + [v], v);
    }
  }

  lemma {:induction false} SortIsStable(costs: seq<int>, s: seq<nat>)
    requires Known(costs, s)
    ensures StablyOrdered(costs, SortDescending(costs, s), s)
  {
    if s != [] {
      hide StablyOrdered, Descending, SortDescending, Insert, OfCost;
      var n := |s| - 1;
      var sorted := SortDescending(costs, s[..n]);
      SortIsStable(costs, s[..n]);
      SortSorts(costs, s[..n], 0);
      SortedIn(costs, s[..n]);
      assert s[..n] + [s[n]] == s;
      InsertStably(costs, sorted, s[..n], s[n]);
      SortNext(costs, s);
    }
  }

  lemma SortedIn(costs: seq<int>, s: seq<nat>)
    requires Known(costs, s)
    ensures forall i :: 0 <= i < |s| ==> SortDescending(costs, s)[i] in s
  {
    var sorted := SortDescending(costs, s);
    hide SortDescending;
    forall i | 0 <= i < |s| ensures sorted[i] in s { assert sorted[i] in multiset(sorted); }
  }

  lemma SortNext(costs: seq<int>, s: seq<nat>)
    requires Known(costs, s) && s != []
    ensures SortDescending(costs, s) == Insert(costs, SortDescending(costs, s[..|s| - 1]), s[|s| - 1])
  {
    hide Insert;
  }

  /** Of two instructions of the sorted wave, the first costs more, or as much and stood before
      the other in the wave. */
  lemma SortedInOrder(costs: seq<int>, s: seq<nat>, i: nat, j: nat)
    requires Known(costs, s) && i < j < |s|
    ensures var r := SortDescending(costs, s);
      costs[r[i]] > costs[r[j]]
      || (costs[r[i]] == costs[r[j]] && exists a, b :: 0 <= a < b < |s| && s[a] == r[i] && s[b] == r[j])
  {
    SortIsStable(costs, s);
    hide SortDescending;
  }

  // ----- Waves -----

  function SortWaves(costs: seq<int>, waves: seq<seq<nat>>): (order: seq<nat>)
    requires forall w :: 0 <= w < |waves| ==> Known(costs, waves[w])
    ensures Known(costs, order)
  {
    if waves == [] then []
    else SortWaves(costs, waves[..|waves| - 1]) + SortDescending(costs, waves[|waves| - 1])
  }

  /** What wave mode has placed so far. */
  ghost predicate Placed(costs: seq<int>, order: seq<nat>, home: seq<nat>,
                         queues: seq<seq<nat>>, load: seq<int>, m: nat) {
    && |order| == |home| && (forall k :: 0 <= k < |home| ==> home[k] < m)
    && queues == Deal(order, home, m)
    && LoadsAre(load, costs, queues) && LeastLoaded(costs, order, home, load, m)
    && (NonNegative(costs) ==> Balanced(load, Largest(costs)))
  }

  lemma PlacedNext(costs: seq<int>, order: seq<nat>, home: seq<nat>,
                   queues: seq<seq<nat>>, load: seq<int>, m: nat, v: nat, q: nat)
    requires Placed(costs, order, home, queues, load, m) && v < |costs|
    requires q < m && |load| == m && forall x :: x in HeapOf(load) ==> LexLe((load[q], q), x)
    ensures Placed(costs, order + [v], home + [q], queues[q := queues[q] + [v]], load[q := load[q] + costs[v]], m)
  {
    hide Deal, LoadsAre, Balanced, HeapOf, LexLe, Largest, NonNegative, LeastLoaded;
    LeastLoadedNext(costs, order, home, load, m, v, q);
    DealAppend(order, home, m, v, q);
    LoadsNext(costs, queues, load, v, q);
    if NonNegative(costs) { BalanceNext(costs, load, v, q); }
  }

  lemma PlacedStart(costs: seq<int>, m: nat)
    ensures Placed(costs, [], [], NoQueues(m), seq(m, _ => 0), m)
    ensures (set q: nat | q < m :: (0, q)) == HeapOf(seq(m, _ => 0))
  {
    var none: Deps := seq(|costs|, _ => {});
    ScheduledStart(none, costs, m);
    NothingPicked(none, costs, m);
  }

  lemma SmHeapMembers(load: seq<int>)
    requires |load| > 0
    ensures HeapOf(load) != {}
    ensures forall x :: x in HeapOf(load) ==> x.1 < |load| && x == (load[x.1], x.1)
  {
    assert (load[0], 0) in HeapOf(load);
  }

  lemma {:induction false} KnownWaves(costs: seq<int>, waves: seq<seq<nat>>)
    requires Known(costs, Concat(waves))
    ensures forall w :: 0 <= w < |waves| ==> Known(costs, waves[w])
  {
    if waves != [] {
      var n := |waves| - 1;
      var all := Concat(waves);
      assert all == Concat(waves[..n]) + waves[n];
      hide Concat;
      forall i | 0 <= i < |waves[n]| ensures waves[n][i] < |costs| {
        assert waves[n][i] == all[|Concat(waves[..n])| + i];
      }
      assert Concat(waves[..n]) == all[..|Concat(waves[..n])|];
      KnownWaves(costs, waves[..n]);
    }
  }

  /** The inner loop of `wave_assign_to_sms`: places one sorted wave. */
  method PlaceWave(costs: seq<int>, sorted: seq<nat>, queues: seq<seq<nat>>, heap: set<(int, nat)>,
                   ghost order: seq<nat>, ghost home: seq<nat>, ghost load: seq<int>, ghost m: nat)
    returns (queues': seq<seq<nat>>, heap': set<(int, nat)>, ghost home': seq<nat>, ghost load': seq<int>)
    requires Known(costs, sorted) && |queues| == |load| == m > 0
    requires Placed(costs, order, home, queues, load, m) && heap == HeapOf(load)
    ensures |queues'| == |load'| == m
    ensures Placed(costs, order + sorted, home', queues', load', m) && heap' == HeapOf(load')
  {
    hide Placed, HeapOf;
    queues', heap', home', load' := queues, heap, home, load;
    assert order + sorted[..0] == order;
    for i := 0 to |sorted|
      invariant |queues'| == |load'| == m
      invariant Placed(costs, order + sorted[..i], home', queues', load', m) && heap' == HeapOf(load')
    {
      SmHeapMembers(load');
      var sm, rest := PopMin(heap');
      LeastPair(heap', sm);
      var cost := sm.0 + costs[sorted[i]];
      PlacedNext(costs, order + sorted[..i], home', queues', load', m, sorted[i], sm.1);
      GreedyStep(load', sm.1, costs[sorted[i]], 0);
      assert order + sorted[..i] + [sorted[i]] == order + sorted[..i + 1];
      heap' := rest + {(cost, sm.1)};
      queues' := queues'[sm.1 := queues'[sm.1] + [sorted[i]]];
      home', load' := home' + [sm.1], load'[sm.1 := cost];
    }
    assert sorted[..|sorted|] == sorted;
  }

  /** `wave_assign_to_sms`. */
  method WaveAssign(instructions: seq<nat>, opcode: nat -> int, costs: seq<int>, smCount: nat)
    returns (queues: seq<seq<nat>>, waves: seq<seq<nat>>, ghost home: seq<nat>, ghost load: seq<int>)
    requires Known(costs, instructions) && smCount > 0
    ensures Concat(waves) == instructions && MaximalRuns(waves, opcode)
    ensures forall w :: 0 <= w < |waves| ==> Known(costs, waves[w])
    ensures Placed(costs, SortWaves(costs, waves), home, queues, load, smCount)
  {
    hide Placed, HeapOf, Concat, MaximalRuns;
    waves := CollectIntoWaves(instructions, opcode);
    KnownWaves(costs, waves);
    queues := NoQueues(smCount);
    var smHeap := set q: nat | q < smCount :: (0, q);
    home, load := [], seq(smCount, _ => 0);
    PlacedStart(costs, smCount);
    for w := 0 to |waves|
      invariant |queues| == |load| == smCount && smHeap == HeapOf(load)
      invariant Placed(costs, SortWaves(costs, waves[..w]), home, queues, load, smCount)
    {
      assert waves[..w + 1][..w] == waves[..w];
      queues, smHeap, home, load := PlaceWave(costs, SortDescending(costs, waves[w]), queues, smHeap,
                                              SortWaves(costs, waves[..w]), home, load, smCount);
    }
    assert waves[..|waves|] == waves;
  }

  /** Each instruction of the sorted waves goes to the SM with the least load of its time, the
      lowest-numbered of several. */
  lemma WaveIsGreedy(costs: seq<int>, order: seq<nat>, home: seq<nat>, queues: seq<seq<nat>>, load: seq<int>,
                     m: nat, k: nat, p: nat)
    requires Placed(costs, order, home, queues, load, m) && k < |order| && p < m
    ensures |order| == |home| && (forall i :: 0 <= i < |order| ==> order[i] < |costs| && home[i] < m)
    ensures queues == Deal(order, home, m)
    ensures var mine, other := LoadAt(costs, order, home, k, home[k]), LoadAt(costs, order, home, k, p);
      mine < other || (mine == other && home[k] <= p)
  {
    LeastLoadedIs(costs, order, home, load, m, k, p);
    hide Deal, LoadsAre, Balanced, LeastLoaded, LoadAt;
  }

  // ----- How balanced wave mode is -----

  lemma {:induction false} CostConcat(costs: seq<int>, a: seq<nat>, b: seq<nat>)
    requires Known(costs, a) && Known(costs, b)
    ensures Known(costs, a + b) && Cost(costs, a + b) == Cost(costs, a) + Cost(costs, b)
  {
    if b == [] {
      assert a + b == a;
    } else {
      CostConcat(costs, a, b[..|b| - 1]);
      assert (a + b)[..|a + b| - 1] == a + b[..|b| - 1];
    }
  }

  lemma {:induction false} InsertCost(costs: seq<int>, s: seq<nat>, v: nat)
    requires Known(costs, s) && v < |costs|
    ensures Cost(costs, Insert(costs, s, v)) == Cost(costs, s) + costs[v]
  {
    var n := |s| - 1;
    if s == [] || costs[s[n]] >= costs[v] {
      CostNext(costs, s, v);
    } else {
      InsertCost(costs, s[..n], v);
      CostNext(costs, Insert(costs, s[..n], v), s[n]);
    }
  }

  lemma {:induction false} SortCost(costs: seq<int>, s: seq<nat>)
    requires Known(costs, s)
    ensures Cost(costs, SortDescending(costs, s)) == Cost(costs, s)
  {
    if s != [] {
      SortCost(costs, s[..|s| - 1]);
      InsertCost(costs, SortDescending(costs, s[..|s| - 1]), s[|s| - 1]);
    }
  }

  lemma {:induction false} WavesCost(costs: seq<int>, waves: seq<seq<nat>>)
    requires forall w :: 0 <= w < |waves| ==> Known(costs, waves[w])
    ensures Known(costs, Concat(waves)) && Cost(costs, SortWaves(costs, waves)) == Cost(costs, Concat(waves))
  {
    hide Cost, SortDescending;
    if waves == [] {
      assert SortWaves(costs, waves) == Concat(waves);
    } else {
      var n := |waves| - 1;
      var sorted, front := SortWaves(costs, waves[..n]), Concat(waves[..n]);
      assert SortWaves(costs, waves) == sorted + SortDescending(costs, waves[n]);
      assert Concat(waves) == front + waves[n];
      WavesCost(costs, waves[..n]);
      hide SortWaves, Concat, Known;
      SortCost(costs, waves[n]);
      CostConcat(costs, sorted, SortDescending(costs, waves[n]));
      CostConcat(costs, front, waves[n]);
    }
  }

  /** If no cost is above `c`, the cost of a queue is within m-1 times `c` of a fair share of the
      whole list. */
  lemma WaveMakespan(costs: seq<int>, waves: seq<seq<nat>>, home: seq<nat>, queues: seq<seq<nat>>, load: seq<int>,
                     m: nat, q: nat, c: nat)
    requires (forall w :: 0 <= w < |waves| ==> Known(costs, waves[w])) && q < m
    requires forall v :: 0 <= v < |costs| ==> 0 <= costs[v] <= c
    requires Placed(costs, SortWaves(costs, waves), home, queues, load, m)
    ensures |queues| == m && InRangeOf(queues, |costs|) && Known(costs, Concat(waves))
    ensures m * Cost(costs, queues[q]) <= Cost(costs, Concat(waves)) + (m - 1) * c
  {
    hide Deal, Largest, Balanced, Cost, SortWaves, Concat, LeastLoaded;
    assert NonNegative(costs);
    WavesCost(costs, waves);
    BalancedBound(costs, SortWaves(costs, waves), home, queues, load, m, q, c);
  }

  // ----- When sorted waves keep a topological list topological -----

  /** No member of the wave depends on a cheaper one. */
  ghost predicate CostOrdered(deps: Deps, costs: seq<int>, wave: seq<nat>)
    requires Known(costs, wave)
  {
    forall i, j :: 0 <= i < |wave| && 0 <= j < |wave| && wave[j] < |deps| && wave[i] in deps[wave[j]] ==>
      costs[wave[i]] >= costs[wave[j]]
  }

  ghost predicate AllCostOrdered(deps: Deps, costs: seq<int>, waves: seq<seq<nat>>) {
    forall w :: 0 <= w < |waves| ==> Known(costs, waves[w]) && CostOrdered(deps, costs, waves[w])
  }

  lemma TopologicalPrefix(deps: Deps, a: seq<nat>, b: seq<nat>)
    requires Topological(deps, a + b, {})
    ensures Topological(deps, a, {})
  {
    forall k | 0 <= k < |a|
      ensures a[k] < |deps| && a[k] !in a[..k] && deps[a[k]] <= {} + Elems(a[..k])
    {
      assert (a + b)[k] == a[k] && (a + b)[..k] == a[..k];
    }
  }

  /** The last node of a topological order comes after its dependencies. */
  lemma LastOf(deps: Deps, order: seq<nat>, v: nat)
    requires Topological(deps, order + [v], {})
    ensures Topological(deps, order, {}) && IsReady(deps, order, v)
  {
    TopologicalPrefix(deps, order, [v]);
    assert (order + [v])[|order|] == v && (order + [v])[..|order|] == order;
  }

  lemma ReadyNext(deps: Deps, order: seq<nat>, v: nat)
    requires Topological(deps, order, {}) && IsReady(deps, order, v)
    ensures Topological(deps, order + [v], {})
  {
    ReadyDeps(deps, order, v);
    OneMore(deps, order, v);
  }

  /** What is ready is ready without a node that it does not depend on, ... */
  lemma ReadyWithout(deps: Deps, order: seq<nat>, x: nat, v: nat)
    requires IsReady(deps, order + [x], v) && x !in deps[v]
    ensures IsReady(deps, order, v) && v != x
  {
    assert forall u: nat :: u in order + [x] <==> u in order || u == x;
    forall d | d in deps[v] ensures d in Elems(order) { assert d in Elems(order + [x]); }
  }

  /** ... and in any order of the same nodes, or of one more other. */
  lemma ReadyIn(deps: Deps, a: seq<nat>, b: seq<nat>, more: set<nat>, v: nat)
    requires IsReady(deps, a, v) && Elems(b) == Elems(a) + more && v !in more
    ensures IsReady(deps, b, v)
  {
    assert v !in Elems(a) && v !in Elems(b);
  }

  lemma ElemsNext(a: seq<nat>, v: nat)
    ensures Elems(a + [v]) == Elems(a) + {v}
  {
  }

  lemma ElemsAround(a: seq<nat>, b: seq<nat>, v: nat)
    ensures Elems(a + (b + [v])) == Elems(a + b) + {v} && a + (b + [v]) == a + b + [v]
  {
  }

  /** A node may move forward past nodes that it does not depend on. */
  lemma {:induction false} InsertTopological(deps: Deps, costs: seq<int>, front: seq<nat>, s: seq<nat>, v: nat)
    requires Known(costs, s) && v < |costs| && Topological(deps, front + s + [v], {})
    requires v < |deps| && forall i :: 0 <= i < |s| && costs[s[i]] < costs[v] ==> s[i] !in deps[v]
    ensures Topological(deps, front + Insert(costs, s, v), {})
    ensures Elems(front + Insert(costs, s, v)) == Elems(front + s) + {v}
  {
    hide Topological, IsReady, Elems;
    var n := |s| - 1;
    LastOf(deps, front + s, v);
    if s == [] || costs[s[n]] >= costs[v] {
      ElemsAround(front, s, v);
    } else {
      var x, rest := s[n], front + s[..n];
      var below := Insert(costs, s[..n], v);
      assert Insert(costs, s, v) == below + [x];
      assert front + s == rest + [x];
      LastOf(deps, rest, x);
      ReadyWithout(deps, rest, x, v);
      ReadyNext(deps, rest, v);
      InsertTopological(deps, costs, front, s[..n], v);
      hide Insert;
      ReadyIn(deps, rest, front + below, {v}, x);
      ReadyNext(deps, front + below, x);
      ElemsAround(front, below, x);
      ElemsNext(rest, x);
    }
  }

  lemma CheaperIsNoDependency(deps: Deps, costs: seq<int>, wave: seq<nat>, sorted: seq<nat>)
    requires wave != [] && Known(costs, wave) && CostOrdered(deps, costs, wave)
    requires multiset(sorted) == multiset(wave[..|wave| - 1]) && wave[|wave| - 1] < |deps|
    requires Known(costs, sorted)
    ensures var v := wave[|wave| - 1];
      forall i :: 0 <= i < |sorted| && costs[sorted[i]] < costs[v] ==> sorted[i] !in deps[v]
  {
    var n := |wave| - 1;
    forall i | 0 <= i < |sorted| && costs[sorted[i]] < costs[wave[n]] ensures sorted[i] !in deps[wave[n]] {
      assert sorted[i] in multiset(sorted);
      var j :| 0 <= j < n && wave[..n][j] == sorted[i];
      assert wave[j] == sorted[i];
    }
  }

  /** A wave of which no member depends on a cheaper one may be sorted in place. */
  lemma {:induction false} SortTopological(deps: Deps, costs: seq<int>, front: seq<nat>, wave: seq<nat>)
    requires Known(costs, wave) && CostOrdered(deps, costs, wave) && Topological(deps, front + wave, {})
    ensures Topological(deps, front + SortDescending(costs, wave), {})
    ensures Elems(front + SortDescending(costs, wave)) == Elems(front + wave)
  {
    if wave != [] {
      var n, v := |wave| - 1, wave[|wave| - 1];
      var sorted := SortDescending(costs, wave[..n]);
      assert SortDescending(costs, wave) == Insert(costs, sorted, v);
      assert front + wave == front + wave[..n] + [v];
      LastOf(deps, front + wave[..n], v);
      SortTopological(deps, costs, front, wave[..n]);
      hide Topological, SortDescending, Elems, Insert;
      ReadyIn(deps, front + wave[..n], front + sorted, {}, v);
      ReadyNext(deps, front + sorted, v);
      CheaperIsNoDependency(deps, costs, wave, sorted);
      InsertTopological(deps, costs, front, sorted, v);
      ElemsNext(front + wave[..n], v);
    }
  }

  /** The nodes before may stand in any other topological order. */
  lemma {:induction false} ReplaceFront(deps: Deps, a: seq<nat>, b: seq<nat>, wave: seq<nat>)
    requires Topological(deps, a + wave, {}) && Topological(deps, b, {}) && Elems(a) == Elems(b)
    ensures Topological(deps, b + wave, {}) && Elems(a + wave) == Elems(b + wave)
  {
    hide Topological, IsReady, Elems;
    if wave == [] {
      assert a + wave == a && b + wave == b;
    } else {
      var n := |wave| - 1;
      assert a + wave == a + wave[..n] + [wave[n]] && b + wave == b + wave[..n] + [wave[n]];
      LastOf(deps, a + wave[..n], wave[n]);
      ReplaceFront(deps, a, b, wave[..n]);
      ReadyIn(deps, a + wave[..n], b + wave[..n], {}, wave[n]);
      ReadyNext(deps, b + wave[..n], wave[n]);
      ElemsNext(a + wave[..n], wave[n]);
      ElemsNext(b + wave[..n], wave[n]);
    }
  }

  /** In a topological order that ends in `sorted`, a member stands after those it depends on. */
  lemma EarlierMember(deps: Deps, front: seq<nat>, sorted: seq<nat>, p: nat, u: nat) returns (q: nat)
    requires Topological(deps, front + sorted, {}) && p < |sorted| && sorted[p] < |deps|
    requires u in deps[sorted[p]] && u !in front
    ensures q < p && sorted[q] == u
  {
    assert (front + sorted)[|front| + p] == sorted[p];
    assert (front + sorted)[..|front| + p] == front + sorted[..p];
    assert u in Elems(front + sorted[..p]);
    q :| q < p && sorted[..p][q] == u;
  }

  lemma Member(a: seq<nat>, b: seq<nat>, v: nat) returns (p: nat)
    requires multiset(a) == multiset(b) && v in a
    ensures p < |b| && b[p] == v
  {
    assert v in multiset(a);
    p :| p < |b| && b[p] == v;
  }

  lemma OrderedPair(deps: Deps, costs: seq<int>, front: seq<nat>, wave: seq<nat>, sorted: seq<nat>, u: nat, v: nat)
    requires Topological(deps, front + sorted, {}) && multiset(sorted) == multiset(wave)
    requires Known(costs, sorted) && Descending(costs, sorted) && u < |costs| && v < |costs|
    requires v in wave && u !in front && v < |deps| && u in deps[v]
    ensures costs[u] >= costs[v]
  {
    hide Topological;
    var p := Member(wave, sorted, v);
    var q := EarlierMember(deps, front, sorted, p, u);
  }

  /** Sorting a wave in place keeps the order topological exactly when no member depends on a
      cheaper one. */
  lemma SortedWave(deps: Deps, costs: seq<int>, front: seq<nat>, wave: seq<nat>)
    requires Known(costs, wave) && Topological(deps, front + wave, {})
    ensures Topological(deps, front + SortDescending(costs, wave), {}) <==> CostOrdered(deps, costs, wave)
  {
    LastWaveIsNew(deps, front, wave);
    SortSorts(costs, wave, 0);
    var sorted := SortDescending(costs, wave);
    if CostOrdered(deps, costs, wave) { SortTopological(deps, costs, front, wave); }
    hide SortDescending, OfCost, Topological, Descending;
    if Topological(deps, front + sorted, {}) {
      forall i, j | 0 <= i < |wave| && 0 <= j < |wave| && wave[j] < |deps| && wave[i] in deps[wave[j]]
        ensures costs[wave[i]] >= costs[wave[j]]
      {
        OrderedPair(deps, costs, front, wave, sorted, wave[i], wave[j]);
      }
    }
  }

  lemma LastWaveIsNew(deps: Deps, front: seq<nat>, wave: seq<nat>)
    requires Topological(deps, front + wave, {})
    ensures forall v :: v in wave ==> v !in front
  {
    forall i | 0 <= i < |wave| ensures wave[i] !in front {
      assert (front + wave)[|front| + i] == wave[i] && (front + wave)[..|front| + i] == front + wave[..i];
    }
  }

  lemma {:induction false} SortedElems(costs: seq<int>, waves: seq<seq<nat>>)
    requires forall w :: 0 <= w < |waves| ==> Known(costs, waves[w])
    ensures Elems(SortWaves(costs, waves)) == Elems(Concat(waves))
  {
    if waves != [] {
      var n := |waves| - 1;
      SortedElems(costs, waves[..n]);
      ElemsOfMultiset(waves[n], SortDescending(costs, waves[n]));
      ElemsConcat(SortWaves(costs, waves[..n]), SortDescending(costs, waves[n]));
      ElemsConcat(Concat(waves[..n]), waves[n]);
    }
  }

  /** Sorting the waves of a topological list keeps it topological exactly when no instruction
      depends on a cheaper one of its own wave. */
  lemma {:induction false} SortedWavesTopological(deps: Deps, costs: seq<int>, waves: seq<seq<nat>>)
    requires (forall w :: 0 <= w < |waves| ==> Known(costs, waves[w])) && Topological(deps, Concat(waves), {})
    ensures Topological(deps, SortWaves(costs, waves), {}) <==> AllCostOrdered(deps, costs, waves)
  {
    if waves != [] {
      var n := |waves| - 1;
      var front, sortedFront := Concat(waves[..n]), SortWaves(costs, waves[..n]);
      TopologicalPrefix(deps, front, waves[n]);
      SortedWavesTopological(deps, costs, waves[..n]);
      SortedElems(costs, waves[..n]);
      hide Topological, Concat, SortDescending, CostOrdered, Known, Elems;
      if Topological(deps, sortedFront, {}) {
        ReplaceFront(deps, front, sortedFront, waves[n]);
        SortedWave(deps, costs, sortedFront, waves[n]);
      }
      if Topological(deps, SortWaves(costs, waves), {}) {
        TopologicalPrefix(deps, sortedFront, SortDescending(costs, waves[n]));
      }
      AllButLast(deps, costs, waves);
    }
  }

  lemma AllButLast(deps: Deps, costs: seq<int>, waves: seq<seq<nat>>)
    requires waves != [] && forall w :: 0 <= w < |waves| ==> Known(costs, waves[w])
    ensures AllCostOrdered(deps, costs, waves) <==>
      AllCostOrdered(deps, costs, waves[..|waves| - 1]) && CostOrdered(deps, costs, waves[|waves| - 1])
  {
    hide CostOrdered, Known;
    var init := waves[..|waves| - 1];
    if AllCostOrdered(deps, costs, waves) {
      forall w | 0 <= w < |init| ensures CostOrdered(deps, costs, init[w]) { assert init[w] == waves[w]; }
    }
    if AllCostOrdered(deps, costs, init) && CostOrdered(deps, costs, waves[|waves| - 1]) {
      forall w | 0 <= w < |waves| ensures CostOrdered(deps, costs, waves[w]) {
        if w < |init| { assert init[w] == waves[w]; }
      }
    }
  }

  lemma InsertLarger(costs: seq<int>, u: nat, v: nat)
    requires u < |costs| && v < |costs| && costs[u] < costs[v]
    ensures Insert(costs, [u], v) == [v, u]
  {
    assert [u][..0] == [] && [u][0] == u;
    assert Insert(costs, [], v) == [v];
    assert Insert(costs, [u], v) == Insert(costs, [u][..0], v) + [[u][0]];
  }

  lemma SortSingle(costs: seq<int>, u: nat)
    requires u < |costs|
    ensures SortDescending(costs, [u]) == [u]
  {
    assert [u][..0] == [];
  }

  lemma SortedPair(costs: seq<int>, u: nat, v: nat)
    requires u < |costs| && v < |costs| && costs[u] < costs[v]
    ensures SortWaves(costs, [[u, v]]) == [v, u]
  {
    assert [u, v][..1] == [u] && [[u, v]][..0] == [];
    SortSingle(costs, u);
    InsertLarger(costs, u, v);
    hide Insert;
    assert SortDescending(costs, [u, v]) == [v, u];
  }

  lemma DealPair()
    ensures Deal([1, 0], [0, 0], 1) == [[1, 0]]
  {
    hide Deal;
    assert Deal([], [], 1) == [[]] by { NothingDealt(); }
    DealAppend([], [], 1, 1, 0);
    assert [] + [1] == [1] && [] + [0] == [0];
    DealAppend([1], [0], 1, 0, 0);
    assert [1] + [0] == [1, 0] && [0] + [0] == [0, 0];
  }

  lemma NothingDealt()
    ensures Deal([], [], 1) == [[]]
  {
  }

  /** A cheap instruction and a costly one that depends on it form one wave: the costly one
      goes first, and on a single SM it waits for ever. */
  lemma DependentWaveDeadlocks(deps: Deps, costs: seq<int>)
    requires deps == [{}, {0}] && costs == [1, 2]
    ensures Topological(deps, Concat([[0, 1]]), {})
    ensures SortWaves(costs, [[0, 1]]) == [1, 0]
    ensures var queues := Deal([1, 0], [0, 0], 1);
      Positions(queues, [0]) && !Complete(queues, [0]) && forall q :: !Enabled(queues, deps, [0], q)
  {
    SortedPair(costs, 0, 1);
    DealPair();
    TopologicalPair(deps);
    hide SortWaves, Deal, Enabled, Topological;
    forall q ensures !Enabled([[1, 0]], deps, [0], q) { HeadWaits(deps, q); }
  }

  lemma TopologicalPair(deps: Deps)
    requires deps == [{}, {0}]
    ensures Topological(deps, Concat([[0, 1]]), {})
  {
    assert Concat([[0, 1]]) == [0, 1] by { assert [[0, 1]][..0] == []; }
    assert [0, 1][..1] == [0];
  }

  lemma HeadWaits(deps: Deps, q: nat)
    requires deps == [{}, {0}]
    ensures !Enabled([[1, 0]], deps, [0], q)
  {
    assert 0 in deps[1];
  }

  // ----- Whole runs -----

  /** Wave mode runs to completion, in every interleaving, to the state of the linear
      interpreter. */
  lemma WaveModeRuns<S(!new)>(deps: Deps, step: (nat, S) -> S, costs: seq<int>, waves: seq<seq<nat>>, home: seq<nat>,
                              queues: seq<seq<nat>>, load: seq<int>, m: nat, run: seq<nat>, s: S)
    requires AllCostOrdered(deps, costs, waves) && Topological(deps, Concat(waves), {}) && Commute(deps, step)
    requires Placed(costs, SortWaves(costs, waves), home, queues, load, m) && Valid(queues, deps, run)
    ensures var pcs := After(Start(m), run);
      if Complete(queues, pcs) then Exec(step, Trace(queues, deps, run), s) == Exec(step, Concat(waves), s)
      else exists q :: 0 <= q < m && Enabled(queues, deps, pcs, q)
  {
    SortedWavesTopological(deps, costs, waves);
    SortedElems(costs, waves);
    ModeRuns(deps, step, SortWaves(costs, waves), home, m, Concat(waves), run, s);
  }

  /** Wave mode's queues on `m` SMs, whichever they are. */
  ghost predicate WaveQueues(costs: seq<int>, waves: seq<seq<nat>>, queues: seq<seq<nat>>, m: nat)
    requires forall w :: 0 <= w < |waves| ==> Known(costs, waves[w])
  {
    exists home, load :: Placed(costs, SortWaves(costs, waves), home, queues, load, m)
  }

  lemma OneSmHeap(load: seq<int>)
    requires |load| == 1
    ensures forall x :: x in HeapOf(load) ==> LexLe((load[0], 0), x)
  {
  }

  lemma PlacedLoads(costs: seq<int>, order: seq<nat>, home: seq<nat>, queues: seq<seq<nat>>, load: seq<int>, m: nat)
    requires Placed(costs, order, home, queues, load, m)
    ensures |load| == |queues| == m && |order| == |home| && forall k :: 0 <= k < |home| ==> home[k] < m
  {
    hide LeastLoaded, NonNegative, Balanced, Cost;
  }

  lemma {:induction false} PlacedOnOne(costs: seq<int>, order: seq<nat>)
    returns (home: seq<nat>, load: seq<int>)
    requires Known(costs, order)
    ensures Placed(costs, order, home, [order], load, 1)
  {
    hide Placed, HeapOf, LexLe;
    var queues: seq<seq<nat>> := [order];
    if order == [] {
      PlacedStart(costs, 1);
      home, load := [], seq(1, _ => 0);
      assert NoQueues(1) == queues;
    } else {
      var n := |order| - 1;
      var init: seq<seq<nat>> := [order[..n]];
      home, load := PlacedOnOne(costs, order[..n]);
      PlacedLoads(costs, order[..n], home, init, load, 1);
      OneSmHeap(load);
      PlacedNext(costs, order[..n], home, init, load, 1, order[n], 0);
      assert order[..n] + [order[n]] == order && init[0 := order] == queues;
      home, load := home + [0], load[0 := load[0] + costs[order[n]]];
    }
  }

  lemma NodesInRange(deps: Deps, order: seq<nat>)
    requires Topological(deps, order, {})
    ensures (forall k :: 0 <= k < |order| ==> order[k] < |deps| && order[k] !in order[..k])
  {
  }

  /** A single SM never waits for ever exactly when its queue is in topological order. */
  lemma OneQueue(deps: Deps, order: seq<nat>)
    requires forall k :: 0 <= k < |order| ==> order[k] !in order[..k]
    ensures NeverSticks([order], deps) <==> Topological(deps, order, {})
  {
    var home := seq(|order|, _ => 0);
    var queues := [order];
    DealtToOne(order, home);
    DealIsDistinct(order, home, 1);
    NeverSticksExactly(queues, deps);
    hide Topological, NeverSticks, Distinct, Deal;
    if Topological(deps, order, {}) { assert DealtFrom(queues, deps, order, home); }
    if o, h :| DealtFrom(queues, deps, o, h) {
      DealtToOne(o, h);
      assert queues[0] == o;
    }
  }

  /** Queues dealt in topological order never deadlock. */
  lemma DealtNeverSticks(deps: Deps, order: seq<nat>, home: seq<nat>, m: nat)
    requires |order| == |home| && (forall k :: 0 <= k < |home| ==> home[k] < m) && Topological(deps, order, {})
    ensures NeverSticks(Deal(order, home, m), deps)
  {
    NodesInRange(deps, order);
    DealIsDistinct(order, home, m);
    assert DealtFrom(Deal(order, home, m), deps, order, home);
    NeverSticksExactly(Deal(order, home, m), deps);
  }

  lemma WaveQueuesNeverStick(deps: Deps, costs: seq<int>, waves: seq<seq<nat>>, queues: seq<seq<nat>>, m: nat)
    requires forall w :: 0 <= w < |waves| ==> Known(costs, waves[w])
    requires Topological(deps, SortWaves(costs, waves), {}) && WaveQueues(costs, waves, queues, m)
    ensures NeverSticks(queues, deps)
  {
    hide SortWaves, Topological, Known, LoadsAre, LeastLoaded, Balanced, NonNegative, Deal;
    var home, load :| Placed(costs, SortWaves(costs, waves), home, queues, load, m);
    DealtNeverSticks(deps, SortWaves(costs, waves), home, m);
  }

  /** Wave mode never deadlocks, whatever the number of SMs, exactly when no instruction
      depends on a cheaper one of its own wave.  If one does, a single SM waits for ever. */
  lemma WaveModeNeverSticks(deps: Deps, costs: seq<int>, waves: seq<seq<nat>>)
    requires (forall w :: 0 <= w < |waves| ==> Known(costs, waves[w])) && Topological(deps, Concat(waves), {})
    ensures (forall m: nat, queues :: m > 0 && WaveQueues(costs, waves, queues, m) ==> NeverSticks(queues, deps))
       <==> AllCostOrdered(deps, costs, waves)
    ensures WaveQueues(costs, waves, [SortWaves(costs, waves)], 1)
    ensures NeverSticks([SortWaves(costs, waves)], deps) <==> AllCostOrdered(deps, costs, waves)
  {
    SortedWavesTopological(deps, costs, waves);
    SortedDistinct(deps, costs, waves);
    hide SortWaves, Topological, Concat, AllCostOrdered, NeverSticks, Known, Placed;
    var home, load := PlacedOnOne(costs, SortWaves(costs, waves));
    assert WaveQueues(costs, waves, [SortWaves(costs, waves)], 1);
    OneQueue(deps, SortWaves(costs, waves));
    if Topological(deps, SortWaves(costs, waves), {}) {
      forall m: nat, queues | m > 0 && WaveQueues(costs, waves, queues, m) ensures NeverSticks(queues, deps) {
        WaveQueuesNeverStick(deps, costs, waves, queues, m);
      }
    }
  }

  lemma SortedDistinct(deps: Deps, costs: seq<int>, waves: seq<seq<nat>>)
    requires (forall w :: 0 <= w < |waves| ==> Known(costs, waves[w])) && Topological(deps, Concat(waves), {})
    ensures var order := SortWaves(costs, waves); forall k :: 0 <= k < |order| ==> order[k] !in order[..k]
  {
    NodesInRange(deps, Concat(waves));
    DistinctCount(Concat(waves));
    SortedElems(costs, waves);
    SortedLength(costs, waves);
    NoDuplicates(SortWaves(costs, waves));
  }

  lemma {:induction false} SortedLength(costs: seq<int>, waves: seq<seq<nat>>)
    requires forall w :: 0 <= w < |waves| ==> Known(costs, waves[w])
    ensures |SortWaves(costs, waves)| == |Concat(waves)|
  {
    if waves != [] { SortedLength(costs, waves[..|waves| - 1]); }
  }

  /** The same for instructions dealt in any topological order, the round-robin, zig-zag and
      pool modes on a topological list among them. */
  lemma ModeRuns<S(!new)>(deps: Deps, step: (nat, S) -> S, order: seq<nat>, home: seq<nat>, m: nat,
                          list: seq<nat>, run: seq<nat>, s: S)
    requires |order| == |home| && (forall i :: 0 <= i < |home| ==> home[i] < m)
    requires Topological(deps, order, {}) && Topological(deps, list, {}) && Elems(list) == Elems(order)
    requires Commute(deps, step) && Valid(Deal(order, home, m), deps, run)
    ensures var queues, pcs := Deal(order, home, m), After(Start(m), run);
      if Complete(queues, pcs) then Exec(step, Trace(queues, deps, run), s) == Exec(step, list, s)
      else exists q :: 0 <= q < m && Enabled(queues, deps, pcs, q)
  {
    TraceIsDone(Deal(order, home, m), deps, run);
    hide Deal, Complete, After, Trace, Exec, Valid, Enabled, Commute, Topological;
    if Complete(Deal(order, home, m), After(Start(m), run)) {
      RunComputes(deps, step, order, home, m, list, run, s);
    } else {
      NeverStuck(deps, order, home, m, After(Start(m), run));
    }
  }

  /** DAG mode on a graph without cycles: every node is queued once, and every interleaving can
      run on until it is complete, and then is in the state of the linear interpreter on any
      topological list of all the nodes. */
  lemma DagModeRuns<S(!new)>(deps: Deps, step: (nat, S) -> S, costs: seq<int>, m: nat, queues: seq<seq<nat>>,
                             startTime: seq<Timing>, endTime: seq<Timing>, list: seq<nat>, run: seq<nat>, s: S)
    requires WellFormed(deps) && |costs| == |deps| && IsSchedule(deps, costs, m, queues, startTime, endTime)
    requires forall v: nat :: v < |deps| ==> !BehindCycle(deps, v)
    requires Topological(deps, list, {}) && (forall v: nat :: v < |deps| ==> v in list)
    requires Commute(deps, step) && Valid(queues, deps, run)
    ensures |queues| == m && Distinct(queues) && forall v: nat :: InQueues(queues, v) <==> v < |deps|
    ensures var pcs := After(Start(m), run);
      if Complete(queues, pcs) then Exec(step, Trace(queues, deps, run), s) == Exec(step, list, s)
      else exists q :: 0 <= q < m && Enabled(queues, deps, pcs, q)
  {
    hide Commute, Valid, Complete, After, Trace, Exec, Enabled, BehindCycle, IsReady, LoadsAre, Balanced, InQueues;
    hide CostliestFirst, LeastLoaded;
    var order, home, load :| Finished(deps, costs, order, home, queues, load, m, startTime, endTime);
    InRange(deps, order, {});
    InRange(deps, list, {});
    hide Deal, Topological, Distinct, Timed;
    forall v: nat ensures InQueues(queues, v) <==> v < |deps| {
      ScheduleHolds(deps, costs, m, queues, startTime, endTime, v);
    }
    ScheduleHolds(deps, costs, m, queues, startTime, endTime, 0);
    forall v: nat | v < |deps| ensures v in order { PlacedIffAcyclic(deps, order, v); }
    assert Elems(list) == Elems(order);
    ModeRuns(deps, step, order, home, m, list, run, s);
  }
}
