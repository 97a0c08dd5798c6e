/** The list-based assignment modes of Megakernels/megakernels/scheduler.py, and what every
    mode guarantees of the queues it builds. */
module Modes {
  import opened DivMod
  import opened Results
  import opened SmQueues

  // ----- Round robin and zig-zag -----

  function RoundRobinHome(n: nat, m: nat): (home: seq<nat>)
    requires m > 0
    ensures |home| == n && forall k :: 0 <= k < n ==> home[k] == k % m
  {
    seq(n, k requires 0 <= k < n => k % m)
  }

  /** The queues of a round robin over `m` SMs, of which none is needed for an empty list. */
  function RoundRobinQueues(order: seq<nat>, m: nat): (queues: seq<seq<nat>>)
    requires order != [] ==> m > 0
    ensures |queues| == m
  {
    if m == 0 then [] else Deal(order, RoundRobinHome(|order|, m), m)
  }

  /** `round_robin_assign_to_sms`; `sm_count` may come out as 0 or less from the pool mode's
      rounding, and then the first instruction raises. */
  method RoundRobin(instructions: seq<nat>, smCount: int) returns (r: Result<seq<seq<nat>>>)
    ensures r.Ok? <==> smCount > 0 || instructions == []
    ensures smCount > 0 ==> r == Ok(Deal(instructions, RoundRobinHome(|instructions|, smCount), smCount))
    ensures r.Ok? ==> r.value == RoundRobinQueues(instructions, Count(smCount))
  {
    var queues := NoQueues(Count(smCount));
    for i := 0 to |instructions|
      invariant smCount > 0 ==>
        && (forall k :: 0 <= k < i ==> RoundRobinHome(|instructions|, smCount)[k] < smCount)
        && queues == Deal(instructions[..i], RoundRobinHome(|instructions|, smCount)[..i], smCount)
      invariant smCount <= 0 ==> i == 0 && queues == []
    {
      if smCount <= 0 { return Err("modulo by zero or empty queue list"); }
      DealNext(instructions, RoundRobinHome(|instructions|, smCount), smCount, i);
      queues := queues[i % smCount := queues[i % smCount] + [instructions[i]]];
    }
    assert instructions[..|instructions|] == instructions;
    assert smCount > 0 ==>
      RoundRobinHome(|instructions|, smCount)[..|instructions|] == RoundRobinHome(|instructions|, smCount);
    r := Ok(queues);
  }

  /** `queue` holds every m-th instruction, starting with the q-th, and nothing else. */
  ghost predicate Strided(order: seq<nat>, queue: seq<nat>, m: nat, q: nat) {
    && (forall i :: 0 <= i < |queue| ==> q + i * m < |order| && queue[i] == order[q + i * m])
    && q + |queue| * m >= |order| && (|queue| > 0 ==> q + (|queue| - 1) * m < |order|)
  }

  lemma {:induction false} RoundRobinStride(order: seq<nat>, m: nat, q: nat)
    requires m > 0 && q < m
    ensures Strided(order, Deal(order, RoundRobinHome(|order|, m), m)[q], m, q)
    decreases |order|
  {
    if order != [] {
      var n := |order| - 1;
      RoundRobinStride(order[..n], m, q);
      assert RoundRobinHome(|order|, m)[..n] == RoundRobinHome(n, m);
      StrideNext(order, Deal(order[..n], RoundRobinHome(n, m), m)[q], m, q);
    }
  }

  lemma StrideNext(order: seq<nat>, queue: seq<nat>, m: nat, q: nat)
    requires m > 0 && q < m && order != [] && Strided(order[..|order| - 1], queue, m, q)
    ensures Strided(order, if (|order| - 1) % m == q then queue + [order[|order| - 1]] else queue, m, q)
  {
    StrideSlot(|order| - 1, m, q, |queue|);
    StrideOn(order, queue, m, q);
  }

  lemma StrideOn(order: seq<nat>, queue: seq<nat>, m: nat, q: nat)
    requires m > 0 && order != [] && Strided(order[..|order| - 1], queue, m, q)
    ensures var n := |order| - 1;
      Strided(order, if q + |queue| * m == n then queue + [order[n]] else queue, m, q)
  {
    var n := |order| - 1;
    assert (|queue| + 1) * m == |queue| * m + m;
    forall i | 0 <= i < |queue| ensures q + i * m < n && queue[i] == order[q + i * m] {
      assert order[..n][q + i * m] == order[q + i * m];
    }
  }

  lemma StrideSlot(n: nat, m: nat, q: nat, c: nat)
    requires m > 0 && q < m && q + c * m >= n && (c > 0 ==> q + (c - 1) * m < n)
    ensures n % m == q <==> q + c * m == n
  {
    var t := n / m;
    assert n == t * m + n % m;
    MulStep(t, c, m);
    MulStep(c, t, m);
    assert (c - 1) * m == c * m - m;
    if q + c * m == n { Unique(c, q, m); }
  }

  /** The SM of the k-th instruction in zig-zag order: up the SMs, then down. */
  function ZigZagHome(n: nat, m: nat): (home: seq<nat>)
    requires m > 0
    ensures |home| == n && forall k :: 0 <= k < n ==> home[k] < m
  {
    seq(n, k requires 0 <= k < n => var base := k % (m * 2); if base < m then base else m - 1 - (base - m))
  }

  /** Every 2m instructions visit each SM twice, once on the way up and once, mirrored, on the
      way down, and the SM at either end twice in a row; an incomplete last turn goes as far as
      there are instructions. */
  lemma ZigZagTurns(n: nat, m: nat, b: nat, j: nat)
    requires j < m
    ensures b * (m * 2) + j < n ==> ZigZagHome(n, m)[b * (m * 2) + j] == j
    ensures b * (m * 2) + 2 * m - 1 - j < n ==> ZigZagHome(n, m)[b * (m * 2) + 2 * m - 1 - j] == j
  {
    Unique(b, j, m * 2);
    Unique(b, 2 * m - 1 - j, m * 2);
  }

  /** `zig_zag_assign_to_sms`. */
  method ZigZag(instructions: seq<nat>, smCount: nat) returns (r: Result<seq<seq<nat>>>)
    ensures r.Ok? <==> smCount > 0 || instructions == []
    ensures smCount > 0 ==> r == Ok(Deal(instructions, ZigZagHome(|instructions|, smCount), smCount))
  {
    var queues := NoQueues(smCount);
    for i := 0 to |instructions|
      invariant smCount == 0 ==> i == 0
      invariant smCount > 0 ==> queues == Deal(instructions[..i], ZigZagHome(|instructions|, smCount)[..i], smCount)
    {
      if smCount == 0 { return Err("modulo by zero"); }
      DealNext(instructions, ZigZagHome(|instructions|, smCount), smCount, i);
      var baseId := i % (smCount * 2);
      if baseId < smCount {
        queues := queues[baseId := queues[baseId] + [instructions[i]]];
      } else {
        var q := smCount - 1 - (baseId - smCount);
        queues := queues[q := queues[q] + [instructions[i]]];
      }
    }
    assert instructions[..|instructions|] == instructions;
    assert smCount > 0 ==> ZigZagHome(|instructions|, smCount)[..|instructions|] == ZigZagHome(|instructions|, smCount);
    r := Ok(queues);
  }

  // ----- Pools -----

  datatype Pool = Memory | Compute | Unknown

  /** The instructions of one pool, in list order. */
  function OfPool(instructions: seq<nat>, pool: nat -> Pool, p: Pool): seq<nat> {
    if instructions == [] then []
    else
      var n := |instructions| - 1;
      OfPool(instructions[..n], pool, p) + if pool(instructions[n]) == p then [instructions[n]] else []
  }

  lemma RoundRobinNext(order: seq<nat>, m: nat, v: nat)
    requires m > 0
    ensures var before, q := RoundRobinQueues(order, m), |order| % m;
      RoundRobinQueues(order + [v], m) == before[q := before[q] + [v]]
  {
    assert (order + [v])[..|order|] == order;
    assert RoundRobinHome(|order| + 1, m)[..|order|] == RoundRobinHome(|order|, m);
  }

  ghost predicate Poolable(instructions: seq<nat>, pool: nat -> Pool, memSms: int, computeSms: int) {
    && (OfPool(instructions, pool, Memory) != [] ==> memSms > 0)
    && (OfPool(instructions, pool, Compute) != [] ==> computeSms > 0)
    && (forall k :: 0 <= k < |instructions| ==> pool(instructions[k]) != Unknown)
  }

  /** The SM of each instruction: memory instructions go round the first `memSms` SMs, the
      others round the rest. */
  function PoolHome(instructions: seq<nat>, pool: nat -> Pool, memSms: nat, computeSms: nat): (home: seq<nat>)
    requires Poolable(instructions, pool, memSms, computeSms)
    ensures |home| == |instructions| && forall k :: 0 <= k < |home| ==> home[k] < memSms + computeSms
  {
    if instructions == [] then []
    else
      var n := |instructions| - 1;
      PoolHome(instructions[..n], pool, memSms, computeSms) +
      [if pool(instructions[n]) == Memory then |OfPool(instructions[..n], pool, Memory)| % memSms
       else memSms + |OfPool(instructions[..n], pool, Compute)| % computeSms]
  }

  function PoolQueues(instructions: seq<nat>, pool: nat -> Pool, memSms: nat, computeSms: nat): seq<seq<nat>>
    requires Poolable(instructions, pool, memSms, computeSms)
  {
    RoundRobinQueues(OfPool(instructions, pool, Memory), memSms)
      + RoundRobinQueues(OfPool(instructions, pool, Compute), computeSms)
  }

  /** Two round robins side by side are one deal of the whole list. */
  lemma {:induction false} PoolsAreADeal(instructions: seq<nat>, pool: nat -> Pool, memSms: nat, computeSms: nat)
    requires Poolable(instructions, pool, memSms, computeSms)
    ensures Deal(instructions, PoolHome(instructions, pool, memSms, computeSms), memSms + computeSms)
         == PoolQueues(instructions, pool, memSms, computeSms)
  {
    hide PoolQueues, Deal, PoolHome;
    if instructions == [] {
      NoPools(instructions, pool, memSms, computeSms);
    } else {
      var n := |instructions| - 1;
      PoolHomeNext(instructions, pool, memSms, computeSms);
      var home := PoolHome(instructions[..n], pool, memSms, computeSms);
      PoolsAreADeal(instructions[..n], pool, memSms, computeSms);
      DealAppend(instructions[..n], home, memSms + computeSms, instructions[n],
                 PoolHome(instructions, pool, memSms, computeSms)[n]);
      assert instructions[..n] + [instructions[n]] == instructions;
      PoolsNext(instructions, pool, memSms, computeSms);
    }
  }

  lemma NoPools(instructions: seq<nat>, pool: nat -> Pool, memSms: nat, computeSms: nat)
    requires instructions == []
    ensures Deal(instructions, PoolHome(instructions, pool, memSms, computeSms), memSms + computeSms)
         == PoolQueues(instructions, pool, memSms, computeSms)
  {
    assert NoQueues(memSms) + NoQueues(computeSms) == NoQueues(memSms + computeSms);
    assert RoundRobinQueues([], memSms) == NoQueues(memSms);
    assert RoundRobinQueues([], computeSms) == NoQueues(computeSms);
  }

  lemma PoolHomeNext(instructions: seq<nat>, pool: nat -> Pool, memSms: nat, computeSms: nat)
    requires instructions != [] && Poolable(instructions, pool, memSms, computeSms)
    ensures var n := |instructions| - 1;
      && Poolable(instructions[..n], pool, memSms, computeSms)
      && PoolHome(instructions, pool, memSms, computeSms)
         == PoolHome(instructions[..n], pool, memSms, computeSms)
            + [PoolHome(instructions, pool, memSms, computeSms)[n]]
  {
  }

  lemma PoolsNext(instructions: seq<nat>, pool: nat -> Pool, memSms: nat, computeSms: nat)
    requires instructions != [] && Poolable(instructions, pool, memSms, computeSms)
    requires Poolable(instructions[..|instructions| - 1], pool, memSms, computeSms)
    ensures var n := |instructions| - 1;
      var before := PoolQueues(instructions[..n], pool, memSms, computeSms);
      var q := PoolHome(instructions, pool, memSms, computeSms)[n];
      PoolQueues(instructions, pool, memSms, computeSms) == before[q := before[q] + [instructions[n]]]
  {
    hide RoundRobinQueues;
    var n := |instructions| - 1;
    var mem, comp := OfPool(instructions[..n], pool, Memory), OfPool(instructions[..n], pool, Compute);
    if pool(instructions[n]) == Memory {
      RoundRobinNext(mem, memSms, instructions[n]);
      assert comp + [] == comp;
    } else {
      RoundRobinNext(comp, computeSms, instructions[n]);
      assert mem + [] == mem;
    }
  }

  /** The first loop of `pool_assign_to_sms`. */
  method SplitPools(instructions: seq<nat>, pool: nat -> Pool) returns (r: Result<(seq<nat>, seq<nat>)>)
    ensures r.Ok? <==> forall k :: 0 <= k < |instructions| ==> pool(instructions[k]) != Unknown
    ensures r.Ok? ==> r.value == (OfPool(instructions, pool, Memory), OfPool(instructions, pool, Compute))
  {
    var memoryInstructions, computeInstructions := [], [];
    for i := 0 to |instructions|
      invariant forall k :: 0 <= k < i ==> pool(instructions[k]) != Unknown
      invariant memoryInstructions == OfPool(instructions[..i], pool, Memory)
      invariant computeInstructions == OfPool(instructions[..i], pool, Compute)
    {
      assert instructions[..i + 1][..i] == instructions[..i];
      match pool(instructions[i])
      case Memory => memoryInstructions := memoryInstructions + [instructions[i]];
      case Compute => computeInstructions := computeInstructions + [instructions[i]];
      case Unknown => return Err("Unknown pool");
    }
    assert instructions[..|instructions|] == instructions;
    r := Ok((memoryInstructions, computeInstructions));
  }

  /** As many SMs as `range(n)` counts. */
  function Count(n: int): nat {
    if n > 0 then n else 0
  }

  /** `pool_assign_to_sms`; `memSms` stands for `round(sm_count * memory_fraction)`.  A share
      outside 0 to `smCount` gives one pool no SM and the other more than there are. */
  method PoolAssign(instructions: seq<nat>, pool: nat -> Pool, smCount: nat,
                    memSms: int) returns (r: Result<seq<seq<nat>>>)
    ensures r.Ok? <==> Poolable(instructions, pool, memSms, smCount - memSms)
    ensures r.Ok? ==>
      var mem, comp := Count(memSms), Count(smCount - memSms);
      r.value == Deal(instructions, PoolHome(instructions, pool, mem, comp), mem + comp)
    ensures 0 <= memSms <= smCount <==> Count(memSms) + Count(smCount - memSms) == smCount
  {
    hide OfPool, Deal, PoolHome, RoundRobinQueues;
    var split := SplitPools(instructions, pool);
    if split.Err? { return Err(split.error); }
    var computeSms := smCount - memSms;
    var memoryQueues := RoundRobin(split.value.0, memSms);
    if memoryQueues.Err? { return memoryQueues; }
    var computeQueues := RoundRobin(split.value.1, computeSms);
    if computeQueues.Err? { return computeQueues; }
    r := Ok(memoryQueues.value + computeQueues.value);
    PoolsAreADeal(instructions, pool, Count(memSms), Count(computeSms));
  }

  // ----- Waves -----

  function Concat(waves: seq<seq<nat>>): seq<nat> {
    if waves == [] then [] else Concat(waves[..|waves| - 1]) + waves[|waves| - 1]
  }

  ghost predicate SameOpcode(wave: seq<nat>, opcode: nat -> int) {
    forall i, j :: 0 <= i < |wave| && 0 <= j < |wave| ==> opcode(wave[i]) == opcode(wave[j])
  }

  ghost predicate Differ(wave: seq<nat>, next: seq<nat>, opcode: nat -> int) {
    wave != [] && next != [] ==> opcode(wave[0]) != opcode(next[0])
  }

  /** The waves are the maximal runs of equal opcodes. */
  ghost predicate MaximalRuns(waves: seq<seq<nat>>, opcode: nat -> int) {
    && (forall w :: 0 <= w < |waves| ==> waves[w] != [] && SameOpcode(waves[w], opcode))
    && (forall v, w :: 0 <= v && v + 1 == w < |waves| ==> Differ(waves[v], waves[w], opcode))
  }

  lemma ConcatNext(waves: seq<seq<nat>>, cur: seq<nat>)
    ensures Concat(waves + [cur]) == Concat(waves) + cur
  {
    assert (waves + [cur])[..|waves|] == waves;
  }

  lemma OneMoreWave(waves: seq<seq<nat>>, cur: seq<nat>, opcode: nat -> int)
    requires MaximalRuns(waves, opcode) && SameOpcode(cur, opcode) && cur != []
    requires waves != [] ==> opcode(waves[|waves| - 1][0]) != opcode(cur[0])
    ensures MaximalRuns(waves + [cur], opcode)
  {
    assert waves != [] ==> Differ(waves[|waves| - 1], cur, opcode);
    hide SameOpcode, Differ;
    var r := waves + [cur];
    forall v, w | 0 <= v && v + 1 == w < |r| ensures Differ(r[v], r[w], opcode) {
      if w < |waves| { assert Differ(waves[v], waves[w], opcode); }
    }
  }

  /** Where `collect_into_waves` stands once the instructions of `done` are in `waves` and `cur`. */
  ghost predicate Collected(waves: seq<seq<nat>>, cur: seq<nat>, opcode: nat -> int, done: seq<nat>) {
    && MaximalRuns(waves, opcode) && SameOpcode(cur, opcode) && Concat(waves) + cur == done
    && (done != [] ==> cur != [])
    && (waves != [] ==> cur != [] && opcode(waves[|waves| - 1][0]) != opcode(cur[0]))
  }

  lemma NothingCollected(opcode: nat -> int)
    ensures Collected([], [], opcode, [])
  {
  }

  lemma CollectedSame(waves: seq<seq<nat>>, cur: seq<nat>, opcode: nat -> int, done: seq<nat>, v: nat)
    requires Collected(waves, cur, opcode, done) && (cur != [] ==> opcode(cur[|cur| - 1]) == opcode(v))
    ensures Collected(waves, cur + [v], opcode, done + [v])
  {
    hide Concat, MaximalRuns;
    assert Concat(waves) + cur + [v] == Concat(waves) + (cur + [v]);
  }

  lemma CollectedNext(waves: seq<seq<nat>>, cur: seq<nat>, opcode: nat -> int, done: seq<nat>, v: nat)
    requires Collected(waves, cur, opcode, done) && cur != [] && opcode(cur[|cur| - 1]) != opcode(v)
    ensures Collected(waves + [cur], [v], opcode, done + [v])
  {
    hide Concat, MaximalRuns, SameOpcode;
    OneMoreWave(waves, cur, opcode);
    ConcatNext(waves, cur);
    OneOpcode(cur, v, opcode);
    assert Concat(waves) + cur + [v] == done + [v];
  }

  lemma OneOpcode(cur: seq<nat>, v: nat, opcode: nat -> int)
    requires SameOpcode(cur, opcode) && cur != []
    ensures opcode(cur[|cur| - 1]) == opcode(cur[0]) && SameOpcode([v], opcode)
  {
  }

  lemma CollectedAll(waves: seq<seq<nat>>, cur: seq<nat>, opcode: nat -> int, done: seq<nat>)
    requires Collected(waves, cur, opcode, done)
    ensures cur == [] ==> Concat(waves) == done && MaximalRuns(waves, opcode)
    ensures cur != [] ==> Concat(waves + [cur]) == done && MaximalRuns(waves + [cur], opcode)
  {
    if cur != [] {
      OneMoreWave(waves, cur, opcode);
      ConcatNext(waves, cur);
    }
    hide Concat, MaximalRuns, SameOpcode;
  }

  /** `collect_into_waves`. */
  method CollectIntoWaves(instructions: seq<nat>, opcode: nat -> int) returns (waves: seq<seq<nat>>)
    ensures Concat(waves) == instructions && MaximalRuns(waves, opcode)
  {
    hide Collected, Concat, MaximalRuns;
    waves := [];
    var cur: seq<nat> := [];
    NothingCollected(opcode);
    for i := 0 to |instructions|
      invariant Collected(waves, cur, opcode, instructions[..i])
    {
      var instruction := instructions[i];
      assert instructions[..i + 1] == instructions[..i] + [instruction];
      if cur == [] || opcode(cur[|cur| - 1]) == opcode(instruction) {
        CollectedSame(waves, cur, opcode, instructions[..i], instruction);
        cur := cur + [instruction];
      } else {
        CollectedNext(waves, cur, opcode, instructions[..i], instruction);
        waves := waves + [cur];
        cur := [instruction];
      }
    }
    assert instructions[..|instructions|] == instructions;
    CollectedAll(waves, cur, opcode, instructions);
    if |cur| > 0 {
      waves := waves + [cur];
    }
  }

  /** A wave has one opcode, and the next wave another. */
  lemma RunsAre(waves: seq<seq<nat>>, opcode: nat -> int)
    requires MaximalRuns(waves, opcode)
    ensures forall w :: 0 <= w < |waves| ==>
      waves[w] != [] && forall i :: 0 <= i < |waves[w]| ==> opcode(waves[w][i]) == opcode(waves[w][0])
    ensures forall w :: 0 < w < |waves| ==> opcode(waves[w - 1][0]) != opcode(waves[w][0])
  {
    forall w | 0 < w < |waves| ensures opcode(waves[w - 1][0]) != opcode(waves[w][0]) {
      assert Differ(waves[w - 1], waves[w], opcode);
    }
    forall w, i | 0 <= w < |waves| && 0 <= i < |waves[w]| ensures opcode(waves[w][i]) == opcode(waves[w][0]) {
      assert SameOpcode(waves[w], opcode);
    }
  }
}
