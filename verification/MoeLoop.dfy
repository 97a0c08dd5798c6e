/** The routed-expert loop of `MoE.forward` in deepseekv4/model.py: experts are split over the
    ranks, each rank adds its experts' outputs to the rows that chose them, and the ranks' sums
    are added up. */
module MoeLoop {
  import opened Addition
  import opened Counting
  import opened DivMod

  // ----- What the loop does to one row -----

  /** `slot(i)` is a slot of the row that chose expert `i`, for every expert that it chose. */
  ghost predicate Picks(row: seq<nat>, slot: nat -> nat) {
    forall i: nat :: i in row ==> slot(i) < |row| && row[slot(i)] == i
  }

  /** A row's value after experts `from` to `end`; `f(i, k)` is expert i's output for the row,
      weighted by slot k. */
  function AfterExperts<T>(add: (T, T) -> T, zero: T, f: (nat, nat) -> T, row: seq<nat>, slot: nat -> nat,
                           from: nat, end: nat): T
    requires from <= end
  {
    if end == from then zero
    else
      var before := AfterExperts(add, zero, f, row, slot, from, end - 1);
      if end - 1 in row then add(before, f(end - 1, slot(end - 1))) else before
  }

  function ForRow<T>(f: (nat, nat, nat) -> T, t: nat): (nat, nat) -> T {
    (i: nat, k: nat) => f(i, t, k)
  }

  function SlotsOf(slot: (nat, nat) -> nat, t: nat): nat -> nat {
    (i: nat) => slot(t, i)
  }

  ghost predicate AllPick(indices: seq<seq<nat>>, slot: (nat, nat) -> nat) {
    forall t: nat :: t < |indices| ==> Picks(indices[t], SlotsOf(slot, t))
  }

  function Count(indices: seq<seq<nat>>, i: nat): nat {
    if indices == [] then 0
    else Count(indices[..|indices| - 1], i) + if i in indices[|indices| - 1] then 1 else 0
  }

  lemma {:induction false} CountIsZero(indices: seq<seq<nat>>, i: nat)
    ensures Count(indices, i) == 0 <==> forall t :: 0 <= t < |indices| ==> i !in indices[t]
  {
    if indices != [] { CountIsZero(indices[..|indices| - 1], i); }
  }

  /** `idx, top = where(indices == i); y[idx] += expert(x[idx], weights[idx, top])`: the old rows
      are gathered, added to and scattered back.  Of several stores to one row any may land
      last: that of slot `slot(t, i)` does. */
  method AddExpert<T>(add: (T, T) -> T, f: (nat, nat, nat) -> T, indices: seq<seq<nat>>, slot: (nat, nat) -> nat,
                      i: nat, y: array<T>)
    requires y.Length == |indices| && AllPick(indices, slot)
    modifies y
    ensures forall t: nat :: t < |indices| ==>
      y[t] == if i in indices[t] then add(old(y[t]), f(i, t, slot(t, i))) else old(y[t])
  {
    var before := y[..];
    for t := 0 to |indices|
      invariant before == old(y[..])
      invariant forall u: nat :: t <= u < |indices| ==> y[u] == before[u]
      invariant forall u: nat :: u < t ==>
        y[u] == if i in indices[u] then add(before[u], f(i, u, slot(u, i))) else before[u]
    {
      assert Picks(indices[t], SlotsOf(slot, t)) && SlotsOf(slot, t)(i) == slot(t, i);
      for k := 0 to |indices[t]|
        invariant forall u: nat :: t < u < |indices| ==> y[u] == before[u]
        invariant forall u: nat :: u < t ==>
          y[u] == if i in indices[u] then add(before[u], f(i, u, slot(u, i))) else before[u]
        invariant y[t] == if i in indices[t] && slot(t, i) < k then add(before[t], f(i, t, slot(t, i))) else before[t]
      {
        if indices[t][k] == i && slot(t, i) == k { y[t] := add(before[t], f(i, t, k)); }
      }
    }
  }

  /** The loop over a rank's experts. */
  method RoutedExperts<T>(add: (T, T) -> T, zero: T, f: (nat, nat, nat) -> T, indices: seq<seq<nat>>,
                          slot: (nat, nat) -> nat, start: nat, end: nat)
    returns (y: array<T>)
    requires start <= end && AllPick(indices, slot)
    ensures fresh(y) && y.Length == |indices|
    ensures forall t: nat :: t < |indices| ==>
      y[t] == AfterExperts(add, zero, ForRow(f, t), indices[t], SlotsOf(slot, t), start, end)
  {
    hide AllPick;
    y := new T[|indices|](_ => zero);
    for i := start to end
      invariant fresh(y) && y.Length == |indices|
      invariant forall t: nat :: t < |indices| ==>
        y[t] == AfterExperts(add, zero, ForRow(f, t), indices[t], SlotsOf(slot, t), start, i)
    {
      CountIsZero(indices, i);
      var count := Count(indices, i);
      if count != 0 { AddExpert(add, f, indices, slot, i, y); }
    }
  }

  // ----- All ranks -----

  lemma {:induction false} AfterSplit<T(!new)>(add: (T, T) -> T, zero: T, f: (nat, nat) -> T, row: seq<nat>,
                  slot: nat -> nat, from: nat, mid: nat, end: nat)
    requires Sums(add) && Zero(add, zero) && from <= mid <= end
    ensures AfterExperts(add, zero, f, row, slot, from, end)
         == add(AfterExperts(add, zero, f, row, slot, from, mid), AfterExperts(add, zero, f, row, slot, mid, end))
    decreases end - mid
  {
    hide Sums, Zero;
    var front := AfterExperts(add, zero, f, row, slot, from, mid);
    if mid == end {
      AddsZero(add, zero, front);
    } else {
      AfterSplit(add, zero, f, row, slot, from, mid, end - 1);
      Associates(add, front, AfterExperts(add, zero, f, row, slot, mid, end - 1), f(end - 1, slot(end - 1)));
    }
  }

  /** `all_reduce` over the first `ranks` ranks, each with its share of the experts. */
  function AllReduced<T>(add: (T, T) -> T, zero: T, f: (nat, nat) -> T, row: seq<nat>, slot: nat -> nat, share: nat,
                         ranks: nat): T {
    if ranks == 0 then zero
    else
      var n: nat := ranks - 1;
      MulMono(n, ranks, share);
      add(AllReduced(add, zero, f, row, slot, share, n),
          AfterExperts(add, zero, f, row, slot, n * share, ranks * share))
  }

  lemma NoExperts<T>(add: (T, T) -> T, zero: T, f: (nat, nat) -> T, row: seq<nat>, slot: nat -> nat)
    ensures AfterExperts(add, zero, f, row, slot, 0, 0) == zero
  {
  }

  /** The ranks together do what one rank with all experts would. */
  lemma {:induction false} RanksTogether<T(!new)>(add: (T, T) -> T, zero: T, f: (nat, nat) -> T, row: seq<nat>,
                  slot: nat -> nat, share: nat, ranks: nat)
    requires Sums(add) && Zero(add, zero)
    ensures AllReduced(add, zero, f, row, slot, share, ranks) == AfterExperts(add, zero, f, row, slot, 0, ranks * share)
  {
    hide Sums, Zero, AfterExperts;
    if ranks == 0 {
      NoExperts(add, zero, f, row, slot);
    } else {
      var n: nat := ranks - 1;
      MulMono(n, ranks, share);
      RanksTogether(add, zero, f, row, slot, share, n);
      AfterSplit(add, zero, f, row, slot, 0, n * share, ranks * share);
    }
  }

  // ----- Against the definition: the sum over a row's slots -----

  /** The outputs of the slots whose expert is below `e`, in slot order. */
  function SlotSum<T>(add: (T, T) -> T, zero: T, f: (nat, nat) -> T, row: seq<nat>, e: nat): T {
    if row == [] then zero
    else
      var n := |row| - 1;
      var rest := SlotSum(add, zero, f, row[..n], e);
      if row[n] < e then add(rest, f(row[n], n)) else rest
  }

  ghost predicate Distinct(row: seq<nat>) {
    forall k :: 0 <= k < |row| ==> row[k] !in row[..k]
  }

  lemma {:induction false} SlotSumNext<T(!new)>(add: (T, T) -> T, zero: T, f: (nat, nat) -> T, row: seq<nat>, e: nat,
                                                k: nat)
    requires Sums(add) && Distinct(row)
    requires if e in row then k < |row| && row[k] == e else k == |row|
    ensures SlotSum(add, zero, f, row, e + 1)
         == if k < |row| then add(SlotSum(add, zero, f, row, e), f(e, k)) else SlotSum(add, zero, f, row, e)
  {
    if row != [] {
      var n := |row| - 1;
      var init := row[..n];
      assert row == init + [row[n]];
      forall k | 0 <= k < n ensures init[k] !in init[..k] { assert init[..k] == row[..k]; }
      assert row[n] !in init && (k < n ==> init[k] == e);
      SlotSumNext(add, zero, f, init, e, if k < n then k else n);
      Exchange(add, SlotSum(add, zero, f, init, e), f(row[n], n), f(e, k));
      hide Sums, Distinct;
    }
  }

  lemma {:induction false} SlotSumNone<T>(add: (T, T) -> T, zero: T, f: (nat, nat) -> T, row: seq<nat>)
    ensures SlotSum(add, zero, f, row, 0) == zero
  {
    if row != [] { SlotSumNone(add, zero, f, row[..|row| - 1]); }
  }

  lemma {:induction false} ExpertsAreSlots<T(!new)>(add: (T, T) -> T, zero: T, f: (nat, nat) -> T, row: seq<nat>,
                  slot: nat -> nat, e: nat)
    requires Sums(add) && Distinct(row) && Picks(row, slot)
    ensures AfterExperts(add, zero, f, row, slot, 0, e) == SlotSum(add, zero, f, row, e)
  {
    hide Sums, Distinct;
    if e == 0 {
      SlotSumNone(add, zero, f, row);
    } else {
      ExpertsAreSlots(add, zero, f, row, slot, e - 1);
      SlotSumNext(add, zero, f, row, e - 1, if e - 1 in row then slot(e - 1) else |row|);
    }
  }

  /** All experts of all ranks together give each row the sum over its slots, if its experts are
      distinct (SlotSum leaves out slots whose expert does not exist). */
  lemma RoutedSum<T(!new)>(add: (T, T) -> T, zero: T, f: (nat, nat) -> T, row: seq<nat>, slot: nat -> nat,
                           share: nat, ranks: nat)
    requires Sums(add) && Zero(add, zero) && Distinct(row) && Picks(row, slot)
    ensures AllReduced(add, zero, f, row, slot, share, ranks) == SlotSum(add, zero, f, row, ranks * share)
  {
    hide Sums, Zero, Distinct, Picks, AllReduced, AfterExperts, SlotSum;
    RanksTogether(add, zero, f, row, slot, share, ranks);
    ExpertsAreSlots(add, zero, f, row, slot, ranks * share);
  }

  // ----- Distinctness is needed -----

  function Plus(a: int, b: int): int {
    a + b
  }

  function One(expert: nat, slot: nat): int {
    1
  }

  ghost function Below(row: seq<nat>, e: nat): set<nat> {
    set x | x in row && x < e
  }

  lemma {:induction false} OnesCountExperts(row: seq<nat>, slot: nat -> nat, e: nat)
    ensures AfterExperts(Plus, 0, One, row, slot, 0, e) == |Below(row, e)|
  {
    if e == 0 {
      assert Below(row, 0) == {};
    } else {
      OnesCountExperts(row, slot, e - 1);
      if e - 1 in row {
        assert Below(row, e) == Below(row, e - 1) + {e - 1};
      } else {
        assert Below(row, e) == Below(row, e - 1);
      }
    }
  }

  lemma {:induction false} OnesCountSlots(row: seq<nat>, e: nat)
    requires forall k :: 0 <= k < |row| ==> row[k] < e
    ensures SlotSum(Plus, 0, One, row, e) == |row|
  {
    if row != [] { OnesCountSlots(row[..|row| - 1], e); }
  }

  /** An expert that stands in two slots of a row is added once only, whichever store lands
      last: with every output 1, the loop agrees with the sum over the slots exactly when the
      row's experts are distinct. */
  lemma DuplicatesAreLost(row: seq<nat>, slot: nat -> nat, e: nat)
    requires forall k :: 0 <= k < |row| ==> row[k] < e
    ensures Distinct(row) <==> AfterExperts(Plus, 0, One, row, slot, 0, e) == SlotSum(Plus, 0, One, row, e)
  {
    OnesCountExperts(row, slot, e);
    OnesCountSlots(row, e);
    assert Below(row, e) == Elems(row);
    if Distinct(row) { DistinctCount(row); }
    if |Elems(row)| == |row| { NoDuplicates(row); }
  }
}
