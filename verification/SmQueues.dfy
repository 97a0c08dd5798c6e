/** In-order SM queues: every assignment mode deals a list of instructions to the SMs, and
    the SMs then run their queues concurrently, each head waiting for its dependencies. */
module SmQueues {
  import opened Counting
  import opened Execution

  // ----- Dealing a list into queues -----

  function NoQueues(m: nat): seq<seq<nat>> {
    seq(m, _ => [])
  }

  /** The queues after the instructions of `order` were appended, `order[k]` to queue `home[k]`. */
  function Deal(order: seq<nat>, home: seq<nat>, m: nat): (queues: seq<seq<nat>>)
    requires |order| == |home| && forall k :: 0 <= k < |home| ==> home[k] < m
    ensures |queues| == m
  {
    if order == [] then NoQueues(m)
    else
      var n := |order| - 1;
      var q := Deal(order[..n], home[..n], m);
      q[home[n] := q[home[n]] + [order[n]]]
  }

  /** One more instruction is appended to one queue. */
  lemma DealNext(order: seq<nat>, home: seq<nat>, m: nat, k: nat)
    requires |order| == |home| && (forall i :: 0 <= i < |home| ==> home[i] < m) && k < |order|
    ensures var q := Deal(order[..k], home[..k], m);
      Deal(order[..k + 1], home[..k + 1], m) == q[home[k] := q[home[k]] + [order[k]]]
  {
    assert order[..k + 1][..k] == order[..k] && home[..k + 1][..k] == home[..k];
  }

  lemma DealAppend(order: seq<nat>, home: seq<nat>, m: nat, v: nat, q: nat)
    requires |order| == |home| && (forall i :: 0 <= i < |home| ==> home[i] < m) && q < m
    ensures var queues := Deal(order, home, m);
      Deal(order + [v], home + [q], m) == queues[q := queues[q] + [v]]
  {
    assert (order + [v])[..|order|] == order && (home + [q])[..|order|] == home;
  }

  /** A single queue holds everything in order. */
  lemma DealtToOne(order: seq<nat>, home: seq<nat>)
    requires |order| == |home| && forall k :: 0 <= k < |home| ==> home[k] < 1
    ensures Deal(order, home, 1) == [order]
  {
    if order != [] {
      var n := |order| - 1;
      DealtToOne(order[..n], home[..n]);
      assert order[..n] + [order[n]] == order;
    }
  }

  /** Later instructions only extend the queues. */
  lemma {:induction false} DealGrows(order: seq<nat>, home: seq<nat>, m: nat, k: nat, q: nat)
    requires |order| == |home| && (forall i :: 0 <= i < |home| ==> home[i] < m) && k <= |order| && q < m
    ensures Deal(order[..k], home[..k], m)[q] <= Deal(order, home, m)[q]
    decreases |order| - k
  {
    if k < |order| {
      DealNext(order, home, m, k);
      DealGrows(order, home, m, k + 1, q);
    } else {
      assert order[..k] == order && home[..k] == home;
    }
  }

  /** The instructions that stand in some queue before that queue's position in `pcs`. */
  ghost predicate Done(queues: seq<seq<nat>>, pcs: seq<nat>, v: nat) {
    exists q, i :: 0 <= q < |queues| && q < |pcs| && 0 <= i < pcs[q] && i < |queues[q]| && queues[q][i] == v
  }

  ghost predicate Positions(queues: seq<seq<nat>>, pcs: seq<nat>) {
    |pcs| == |queues| && forall q :: 0 <= q < |pcs| ==> pcs[q] <= |queues[q]|
  }

  ghost predicate Complete(queues: seq<seq<nat>>, pcs: seq<nat>) {
    Positions(queues, pcs) && forall q :: 0 <= q < |pcs| ==> pcs[q] == |queues[q]|
  }

  /** Queue `q` may run its head: all of the head's dependencies are done. */
  ghost predicate Enabled(queues: seq<seq<nat>>, deps: Deps, pcs: seq<nat>, q: nat) {
    && Positions(queues, pcs) && q < |queues| && pcs[q] < |queues[q]|
    && var v := queues[q][pcs[q]]; v < |deps| && forall d :: d in deps[v] ==> Done(queues, pcs, d)
  }

  // ----- No deadlock -----

  /** The first `k` instructions have all run. */
  ghost predicate Covered(order: seq<nat>, home: seq<nat>, m: nat, pcs: seq<nat>, k: nat)
    requires |order| == |home| && (forall i :: 0 <= i < |home| ==> home[i] < m) && k <= |order|
  {
    |pcs| == m && forall q :: 0 <= q < m ==> |Deal(order[..k], home[..k], m)[q]| <= pcs[q]
  }

  lemma {:induction false} CoveredIsDone(order: seq<nat>, home: seq<nat>, m: nat, pcs: seq<nat>, k: nat, j: nat)
    requires |order| == |home| && (forall i :: 0 <= i < |home| ==> home[i] < m) && j < k <= |order|
    requires Covered(order, home, m, pcs, k)
    ensures Done(Deal(order, home, m), pcs, order[j])
  {
    var q := home[j];
    var before := Deal(order[..j], home[..j], m);
    DealNext(order, home, m, j);
    assert order[..k][..j + 1] == order[..j + 1] && home[..k][..j + 1] == home[..j + 1];
    DealGrows(order[..k], home[..k], m, j + 1, q);
    DealGrows(order, home, m, k, q);
    assert Deal(order, home, m)[q][|before[q]|] == order[j];
  }

  lemma CoveredAll(order: seq<nat>, home: seq<nat>, m: nat, pcs: seq<nat>)
    requires |order| == |home| && (forall i :: 0 <= i < |home| ==> home[i] < m)
    requires Positions(Deal(order, home, m), pcs) && Covered(order, home, m, pcs, |order|)
    ensures Complete(Deal(order, home, m), pcs)
  {
    assert order[..|order|] == order && home[..|order|] == home;
  }

  /** The first instruction that has not run stands at the head of its queue. */
  lemma HeadIsEnabled(deps: Deps, order: seq<nat>, home: seq<nat>, m: nat, pcs: seq<nat>, k: nat)
    requires |order| == |home| && (forall i :: 0 <= i < |home| ==> home[i] < m)
    requires Topological(deps, order, {}) && Positions(Deal(order, home, m), pcs)
    requires k < |order| && Covered(order, home, m, pcs, k)
    requires pcs[home[k]] == |Deal(order[..k], home[..k], m)[home[k]]|
    ensures Enabled(Deal(order, home, m), deps, pcs, home[k])
  {
    hide Deal;
    var queues, q := Deal(order, home, m), home[k];
    DealNext(order, home, m, k);
    DealGrows(order, home, m, k + 1, q);
    assert queues[q][pcs[q]] == order[k];
    forall d | d in deps[order[k]] ensures Done(queues, pcs, d) {
      assert d in Elems(order[..k]);
      var j :| 0 <= j < k && order[..k][j] == d;
      CoveredIsDone(order, home, m, pcs, k, j);
    }
  }

  lemma {:induction false} StuckNowhere(deps: Deps, order: seq<nat>, home: seq<nat>, m: nat, pcs: seq<nat>,
                  k: nat) returns (q: nat)
    requires |order| == |home| && (forall i :: 0 <= i < |home| ==> home[i] < m)
    requires Topological(deps, order, {})
    requires Positions(Deal(order, home, m), pcs) && !Complete(Deal(order, home, m), pcs)
    requires k <= |order| && Covered(order, home, m, pcs, k)
    ensures Enabled(Deal(order, home, m), deps, pcs, q)
    decreases |order| - k
  {
    hide Deal, Complete, Topological, Enabled;
    if k == |order| {
      CoveredAll(order, home, m, pcs);
      assert false;
    } else {
      DealNext(order, home, m, k);
      if pcs[home[k]] > |Deal(order[..k], home[..k], m)[home[k]]| {
        q := StuckNowhere(deps, order, home, m, pcs, k + 1);
      } else {
        q := home[k];
        HeadIsEnabled(deps, order, home, m, pcs, k);
      }
    }
  }

  /** Instructions dealt in a topological order never deadlock: as long as some queue is
      unfinished, wherever the others stand, some queue can run its head. */
  lemma NeverStuck(deps: Deps, order: seq<nat>, home: seq<nat>, m: nat, pcs: seq<nat>)
    requires |order| == |home| && (forall i :: 0 <= i < |home| ==> home[i] < m)
    requires Topological(deps, order, {})
    requires Positions(Deal(order, home, m), pcs) && !Complete(Deal(order, home, m), pcs)
    ensures exists q :: 0 <= q < m && Enabled(Deal(order, home, m), deps, pcs, q)
  {
    assert order[..0] == [] && home[..0] == [];
    var q := StuckNowhere(deps, order, home, m, pcs, 0);
  }

  // ----- Runs -----

  /** A run is the sequence of queues that run their head. */
  function After(pcs: seq<nat>, run: seq<nat>): (r: seq<nat>)
    requires forall k :: 0 <= k < |run| ==> run[k] < |pcs|
    ensures |r| == |pcs|
  {
    if run == [] then pcs
    else
      var n := |run| - 1;
      var p := After(pcs, run[..n]);
      p[run[n] := p[run[n]] + 1]
  }

  function Start(m: nat): seq<nat> {
    seq(m, _ => 0)
  }

  /** Every step of the run ran an enabled head. */
  ghost predicate Valid(queues: seq<seq<nat>>, deps: Deps, run: seq<nat>)
    decreases |run|
  {
    && (forall k :: 0 <= k < |run| ==> run[k] < |queues|)
    && (run != [] ==>
      var n := |run| - 1;
      Valid(queues, deps, run[..n]) && Enabled(queues, deps, After(Start(|queues|), run[..n]), run[n]))
  }

  /** The instructions in the order in which the run executed them. */
  function Trace(queues: seq<seq<nat>>, deps: Deps, run: seq<nat>): (t: seq<nat>)
    requires Valid(queues, deps, run)
    ensures |t| == |run|
    decreases |run|
  {
    if run == [] then []
    else
      var n := |run| - 1;
      var q := run[n];
      Trace(queues, deps, run[..n]) + [queues[q][After(Start(|queues|), run[..n])[q]]]
  }

  /** No instruction stands in two places. */
  ghost predicate Distinct(queues: seq<seq<nat>>) {
    forall q, i, q', i' | 0 <= q < |queues| && 0 <= i < |queues[q]| && 0 <= q' < |queues| && 0 <= i' < |queues[q']| ::
      queues[q][i] == queues[q'][i'] ==> q == q' && i == i'
  }

  /** A valid run has executed exactly what stands before the queues' positions. */
  lemma {:induction false} TraceIsDone(queues: seq<seq<nat>>, deps: Deps, run: seq<nat>)
    requires Valid(queues, deps, run)
    ensures Positions(queues, After(Start(|queues|), run))
    ensures forall v :: v in Trace(queues, deps, run) <==> Done(queues, After(Start(|queues|), run), v)
    decreases |run|
  {
    var m := |queues|;
    if run != [] {
      var n := |run| - 1;
      TraceIsDone(queues, deps, run[..n]);
      StepDone(queues, After(Start(m), run[..n]), run[n]);
    }
  }

  lemma StepDone(queues: seq<seq<nat>>, pcs: seq<nat>, q: nat)
    requires Positions(queues, pcs) && q < |queues| && pcs[q] < |queues[q]|
    ensures var pcs' := pcs[q := pcs[q] + 1];
      forall v :: Done(queues, pcs', v) <==> Done(queues, pcs, v) || v == queues[q][pcs[q]]
  {
    var pcs' := pcs[q := pcs[q] + 1];
    forall v ensures Done(queues, pcs', v) <==> Done(queues, pcs, v) || v == queues[q][pcs[q]] {
      if Done(queues, pcs, v) {
        var p, i :| 0 <= p < |queues| && p < |pcs| && 0 <= i < pcs[p] && i < |queues[p]| && queues[p][i] == v;
        assert 0 <= i < pcs'[p];
      }
      if v == queues[q][pcs[q]] { assert 0 <= pcs[q] < pcs'[q]; }
    }
  }

  /** A valid run is a linear extension of what it has executed. */
  lemma {:induction false} TraceIsTopological(queues: seq<seq<nat>>, deps: Deps, run: seq<nat>)
    requires Distinct(queues) && Valid(queues, deps, run)
    ensures Topological(deps, Trace(queues, deps, run), {})
    decreases |run|
  {
    if run != [] {
      var n, m := |run| - 1, |queues|;
      var q, pcs := run[n], After(Start(m), run[..n]);
      var before := Trace(queues, deps, run[..n]);
      var v := queues[q][pcs[q]];
      TraceIsTopological(queues, deps, run[..n]);
      TraceIsDone(queues, deps, run[..n]);
      assert Enabled(queues, deps, pcs, q);
      assert !Done(queues, pcs, v);
      OneMore(deps, before, v);
    }
  }

  lemma OneMore(deps: Deps, order: seq<nat>, v: nat)
    requires Topological(deps, order, {}) && v < |deps| && v !in order
    requires forall d :: d in deps[v] ==> d in order
    ensures Topological(deps, order + [v], {})
  {
    var r := order + [v];
    forall k | 0 <= k < |r|
      ensures r[k] < |deps| && r[k] !in r[..k] && deps[r[k]] <= {} + Elems(r[..k])
    {
      assert r[..k] == order[..k];
      assert k == |order| ==> order[..k] == order;
    }
  }

  lemma {:induction false} DealIsDistinct(order: seq<nat>, home: seq<nat>, m: nat)
    requires |order| == |home| && (forall i :: 0 <= i < |home| ==> home[i] < m)
    requires forall k :: 0 <= k < |order| ==> order[k] !in order[..k]
    ensures Distinct(Deal(order, home, m))
    ensures forall q, i :: 0 <= q < m && 0 <= i < |Deal(order, home, m)[q]| ==> Deal(order, home, m)[q][i] in order
  {
    if order != [] {
      var n := |order| - 1;
      forall k | 0 <= k < n ensures order[..n][k] !in order[..n][..k] {
        assert order[..n][..k] == order[..k];
      }
      DealIsDistinct(order[..n], home[..n], m);
    }
  }

  /** The queues together hold exactly the dealt instructions. */
  lemma DealHoldsAll(order: seq<nat>, home: seq<nat>, m: nat, pcs: seq<nat>)
    requires |order| == |home| && (forall i :: 0 <= i < |home| ==> home[i] < m)
    requires forall k :: 0 <= k < |order| ==> order[k] !in order[..k]
    requires Positions(Deal(order, home, m), pcs)
    ensures forall v :: Done(Deal(order, home, m), pcs, v) ==> v in order
    ensures Complete(Deal(order, home, m), pcs) <==> forall v :: v in order ==> Done(Deal(order, home, m), pcs, v)
  {
    var queues := Deal(order, home, m);
    DealIsDistinct(order, home, m);
    if Complete(queues, pcs) {
      assert order[..|order|] == order && home[..|order|] == home;
      forall v | v in order ensures Done(queues, pcs, v) {
        var j :| 0 <= j < |order| && order[j] == v;
        CoveredIsDone(order, home, m, pcs, |order|, j);
      }
    } else {
      var q :| 0 <= q < m && pcs[q] < |queues[q]|;
      var v := queues[q][pcs[q]];
      assert v in order && !Done(queues, pcs, v);
    }
  }

  /** A valid run executes dealt instructions only, and all of them exactly when complete. */
  lemma TraceElems(deps: Deps, order: seq<nat>, home: seq<nat>, m: nat, run: seq<nat>)
    requires |order| == |home| && (forall i :: 0 <= i < |home| ==> home[i] < m)
    requires Topological(deps, order, {}) && Valid(Deal(order, home, m), deps, run)
    ensures var t := Trace(Deal(order, home, m), deps, run);
      && Topological(deps, t, {}) && Elems(t) <= Elems(order)
      && (Elems(t) == Elems(order) <==> Complete(Deal(order, home, m), After(Start(m), run)))
  {
    hide Deal, Complete, After, Trace;
    var queues := Deal(order, home, m);
    DealIsDistinct(order, home, m);
    TraceIsTopological(queues, deps, run);
    TraceIsDone(queues, deps, run);
    DealHoldsAll(order, home, m, After(Start(m), run));
    hide Done;
    var t, pcs := Trace(queues, deps, run), After(Start(m), run);
    forall v | v in Elems(t) ensures v in Elems(order) { assert Done(queues, pcs, v); }
    assert forall v :: v in Elems(t) <==> Done(queues, pcs, v);
    assert forall v :: v in Elems(order) <==> v in order;
  }

  /** Whatever the interleaving, a complete run of the queues ends in the state of the linear
      interpreter on any topological list of the same instructions, provided instructions
      that the DAG does not order commute. */
  lemma RunComputes<S(!new)>(deps: Deps, step: (nat, S) -> S, order: seq<nat>, home: seq<nat>, m: nat,
                             list: seq<nat>, run: seq<nat>, s: S)
    requires |order| == |home| && (forall i :: 0 <= i < |home| ==> home[i] < m)
    requires Topological(deps, order, {}) && Topological(deps, list, {}) && Elems(list) == Elems(order)
    requires Commute(deps, step)
    requires Valid(Deal(order, home, m), deps, run) && Complete(Deal(order, home, m), After(Start(m), run))
    ensures Exec(step, Trace(Deal(order, home, m), deps, run), s) == Exec(step, list, s)
  {
    TraceElems(deps, order, home, m, run);
    var t := Trace(Deal(order, home, m), deps, run);
    hide Deal, Valid, Complete, Commute, Exec, After, Topological, Trace;
    LinearExtensionsAgree(deps, step, t, list, {}, s);
  }

  /** Every run ends: it takes at most one step per instruction, and it has taken them all
      exactly when every queue is finished. */
  lemma RunsEnd(deps: Deps, order: seq<nat>, home: seq<nat>, m: nat, run: seq<nat>)
    requires |order| == |home| && (forall i :: 0 <= i < |home| ==> home[i] < m)
    requires Topological(deps, order, {}) && Valid(Deal(order, home, m), deps, run)
    ensures |run| <= |order|
    ensures |run| == |order| <==> Complete(Deal(order, home, m), After(Start(m), run))
  {
    TraceElems(deps, order, home, m, run);
    var t := Trace(Deal(order, home, m), deps, run);
    hide Deal, Complete, After, Valid;
    DistinctCount(t);
    DistinctCount(order);
    SubsetCount(Elems(t), Elems(order));
  }

  // ----- Exactly when queues never deadlock -----

  /** The queues are finished, or some queue can run its head. */
  ghost predicate Moves(queues: seq<seq<nat>>, deps: Deps, pcs: seq<nat>) {
    Complete(queues, pcs) || exists q :: 0 <= q < |queues| && Enabled(queues, deps, pcs, q)
  }

  ghost predicate NeverSticks(queues: seq<seq<nat>>, deps: Deps) {
    forall run :: Valid(queues, deps, run) ==> Moves(queues, deps, After(Start(|queues|), run))
  }

  /** The queues are a deal of `order`, a topological order. */
  ghost predicate DealtFrom(queues: seq<seq<nat>>, deps: Deps, order: seq<nat>, home: seq<nat>) {
    && |order| == |home| && (forall k :: 0 <= k < |home| ==> home[k] < |queues|)
    && Topological(deps, order, {}) && queues == Deal(order, home, |queues|)
  }

  /** What a run has executed, dealt to the queues that executed it, is what stands before the
      queues' positions. */
  lemma {:induction false} DealOfTrace(queues: seq<seq<nat>>, deps: Deps, run: seq<nat>, q: nat)
    requires Valid(queues, deps, run) && q < |queues|
    ensures var pcs := After(Start(|queues|), run);
      pcs[q] <= |queues[q]| && Deal(Trace(queues, deps, run), run, |queues|)[q] == queues[q][..pcs[q]]
    decreases |run|
  {
    if run != [] {
      var n, m := |run| - 1, |queues|;
      var pcs := After(Start(m), run[..n]);
      DealOfTrace(queues, deps, run[..n], q);
      assert run == run[..n] + [run[n]];
      DealAppend(Trace(queues, deps, run[..n]), run[..n], m, queues[run[n]][pcs[run[n]]], run[n]);
      hide Deal, Valid;
      if q == run[n] { assert queues[q][..pcs[q] + 1] == queues[q][..pcs[q]] + [queues[q][pcs[q]]]; }
    }
  }

  lemma RunFits(queues: seq<seq<nat>>, deps: Deps, run: seq<nat>)
    requires Distinct(queues) && Valid(queues, deps, run)
    ensures |run| <= |deps|
  {
    var t := Trace(queues, deps, run);
    TraceIsTopological(queues, deps, run);
    hide Trace, Valid, Distinct;
    DistinctCount(t);
    NaturalsAre(|deps|);
    SubsetCount(Elems(t), Naturals(|deps|));
  }

  lemma RunOn(queues: seq<seq<nat>>, deps: Deps, run: seq<nat>, q: nat)
    requires Valid(queues, deps, run) && q < |queues| && Enabled(queues, deps, After(Start(|queues|), run), q)
    ensures Valid(queues, deps, run + [q])
  {
    assert (run + [q])[..|run|] == run;
    hide Enabled;
  }

  /** Queues that never stick run on to the end. */
  lemma RunToEnd(queues: seq<seq<nat>>, deps: Deps, run: seq<nat>) returns (full: seq<nat>)
    requires Distinct(queues) && NeverSticks(queues, deps) && Valid(queues, deps, run)
    ensures Valid(queues, deps, full) && Complete(queues, After(Start(|queues|), full))
    decreases |deps| - |run|
  {
    RunFits(queues, deps, run);
    hide Valid, Distinct, Enabled, Complete;
    var pcs := After(Start(|queues|), run);
    assert Moves(queues, deps, pcs);
    if Complete(queues, pcs) {
      full := run;
    } else {
      var q :| 0 <= q < |queues| && Enabled(queues, deps, pcs, q);
      RunOn(queues, deps, run, q);
      RunFits(queues, deps, run + [q]);
      full := RunToEnd(queues, deps, run + [q]);
    }
  }

  /** What a complete run has executed, dealt to the queues that executed it, is the queues. */
  lemma CompleteIsDealt(queues: seq<seq<nat>>, deps: Deps, run: seq<nat>)
    requires Distinct(queues) && Valid(queues, deps, run) && Complete(queues, After(Start(|queues|), run))
    ensures DealtFrom(queues, deps, Trace(queues, deps, run), run)
  {
    TraceIsTopological(queues, deps, run);
    hide Distinct, Trace, Topological, Deal;
    var dealt := Deal(Trace(queues, deps, run), run, |queues|);
    forall q | 0 <= q < |queues| ensures dealt[q] == queues[q] { DealOfTrace(queues, deps, run, q); }
  }

  lemma DealtMoves(queues: seq<seq<nat>>, deps: Deps, order: seq<nat>, home: seq<nat>, run: seq<nat>)
    requires DealtFrom(queues, deps, order, home) && Valid(queues, deps, run)
    ensures Moves(queues, deps, After(Start(|queues|), run))
  {
    TraceIsDone(queues, deps, run);
    hide Deal, Valid, Enabled, Done, After, Topological, Positions;
    if !Complete(queues, After(Start(|queues|), run)) {
      NeverStuck(deps, order, home, |queues|, After(Start(|queues|), run));
    }
  }

  /** Queues of distinct instructions never deadlock, in any interleaving, exactly when they
      are a deal of some topological order. */
  lemma NeverSticksExactly(queues: seq<seq<nat>>, deps: Deps)
    requires Distinct(queues)
    ensures NeverSticks(queues, deps) <==> exists order, home :: DealtFrom(queues, deps, order, home)
  {
    assert Valid(queues, deps, []);
    hide Distinct, Valid, Complete, Moves, DealtFrom;
    if NeverSticks(queues, deps) {
      var run := RunToEnd(queues, deps, []);
      CompleteIsDealt(queues, deps, run);
    }
    if order, home :| DealtFrom(queues, deps, order, home) {
      forall run | Valid(queues, deps, run) ensures Moves(queues, deps, After(Start(|queues|), run)) {
        DealtMoves(queues, deps, order, home, run);
      }
    }
  }
}
