/** What a megakernel computes: instructions with dependencies, dealt into one in-order queue
    per SM, each queue head waiting for its dependencies.  Instructions are named by their
    position in `Schedule.dag_nodes`; `deps[v]` is the set of nodes that v depends on. */
module Execution {
  import opened Counting

  type Deps = seq<set<nat>>

  ghost predicate WellFormed(deps: Deps) {
    forall v, d :: 0 <= v < |deps| && d in deps[v] ==> d < |deps|
  }

  // ----- Running instructions one after another -----

  /** The state after the instructions of `order`, in order. */
  function Exec<S>(step: (nat, S) -> S, order: seq<nat>, s: S): S {
    if order == [] then s else Exec(step, order[1..], step(order[0], s))
  }

  lemma {:induction false} ExecConcat<S>(step: (nat, S) -> S, a: seq<nat>, b: seq<nat>, s: S)
    ensures Exec(step, a + b, s) == Exec(step, b, Exec(step, a, s))
  {
    if a == [] {
      assert a + b == b;
    } else {
      assert (a + b)[1..] == a[1..] + b;
      ExecConcat(step, a[1..], b, step(a[0], s));
    }
  }

  /** The states one passes through: each is its predecessor with one instruction run. */
  lemma {:induction false} ExecSteps<S>(step: (nat, S) -> S, order: seq<nat>, s: S) returns (states: seq<S>)
    ensures |states| == |order| + 1 && states[0] == s && states[|order|] == Exec(step, order, s)
    ensures forall k :: 0 <= k < |order| ==> states[k + 1] == step(order[k], states[k])
  {
    if order == [] {
      states := [s];
    } else {
      var rest := ExecSteps(step, order[1..], step(order[0], s));
      states := [s] + rest;
    }
  }

  /** `interpret_with_pyvm`: the linear interpreter. */
  method InterpretWithPyvm<S>(step: (nat, S) -> S, instructions: seq<nat>, globals: S) returns (state: S)
    ensures state == Exec(step, instructions, globals)
  {
    state := globals;
    for i := 0 to |instructions|
      invariant state == Exec(step, instructions[..i], globals)
    {
      assert instructions[..i + 1] == instructions[..i] + [instructions[i]];
      ExecConcat(step, instructions[..i], [instructions[i]], globals);
      state := step(instructions[i], state);
    }
    assert instructions[..|instructions|] == instructions;
  }

  // ----- Dependencies -----

  /** `path` climbs from a dependency to what depends on it. */
  ghost predicate Path(deps: Deps, path: seq<nat>) {
    && |path| > 1
    && (forall i :: 0 <= i < |path| ==> path[i] < |deps|)
    && (forall i :: 0 < i < |path| ==> path[i - 1] in deps[path[i]])
  }

  /** The DAG orders u before v. */
  ghost predicate Precedes(deps: Deps, u: nat, v: nat) {
    exists path :: Path(deps, path) && path[0] == u && path[|path| - 1] == v
  }

  /** The DAG orders u before v when v depends on u, or on something that comes after u. */
  lemma PrecedesIs(deps: Deps, u: nat, v: nat)
    requires u < |deps|
    ensures Precedes(deps, u, v) <==>
      v < |deps| && (u in deps[v] || exists w :: Precedes(deps, u, w) && w in deps[v])
  {
    if Precedes(deps, u, v) {
      var path :| Path(deps, path) && path[0] == u && path[|path| - 1] == v;
      var n := |path| - 1;
      assert path[n - 1] in deps[path[n]];
      if n > 1 {
        assert Path(deps, path[..n]);
        assert Precedes(deps, u, path[n - 1]);
      }
    }
    if v < |deps| && u in deps[v] { assert Path(deps, [u, v]); }
    if w: nat :| Precedes(deps, u, w) && v < |deps| && w in deps[v] {
      var path :| Path(deps, path) && path[0] == u && path[|path| - 1] == w;
      assert Path(deps, path + [v]);
    }
  }

  ghost predicate Swap<S(!new)>(step: (nat, S) -> S, u: nat, v: nat) {
    forall s :: step(u, step(v, s)) == step(v, step(u, s))
  }

  /** Instructions that the DAG does not order commute. */
  ghost predicate Commute<S(!new)>(deps: Deps, step: (nat, S) -> S) {
    forall u, v :: 0 <= u < |deps| && 0 <= v < |deps| && u != v && !Precedes(deps, u, v) && !Precedes(deps, v, u)
      ==> Swap(step, u, v)
  }

  ghost predicate DownClosed(deps: Deps, done: set<nat>) {
    forall v, d :: v in done && v < |deps| && d in deps[v] ==> d in done
  }

  /** `order` runs each of its nodes once, after `done`, and no node before a dependency. */
  ghost predicate Topological(deps: Deps, order: seq<nat>, done: set<nat>) {
    && (forall k :: 0 <= k < |order| ==> order[k] < |deps| && order[k] !in done && order[k] !in order[..k])
    && (forall k :: 0 <= k < |order| ==> deps[order[k]] <= done + Elems(order[..k]))
  }

  /** What precedes a node whose dependencies lie in a down-closed set lies in that set. */
  lemma {:induction false} PrecedesInside(deps: Deps, path: seq<nat>, done: set<nat>)
    requires Path(deps, path) && DownClosed(deps, done) && deps[path[|path| - 1]] <= done
    ensures path[0] in done
  {
    var n := |path| - 1;
    assert path[n - 1] in deps[path[n]];
    if n > 1 {
      assert deps[path[n - 1]] <= done;
      PrecedesInside(deps, path[..n], done);
    }
  }

  lemma {:induction false} PrefixIsDownClosed(deps: Deps, order: seq<nat>, done: set<nat>, k: nat)
    requires Topological(deps, order, done) && DownClosed(deps, done) && k <= |order|
    ensures DownClosed(deps, done + Elems(order[..k]))
  {
    if k > 0 {
      PrefixIsDownClosed(deps, order, done, k - 1);
      assert order[..k] == order[..k - 1] + [order[k - 1]];
    }
  }

  /** In two topological orders of the same nodes, the first node of one commutes with all
      nodes that come before it in the other. */
  lemma FirstIsUnordered(deps: Deps, a: seq<nat>, done: set<nat>, x: nat, i: nat, j: nat)
    requires Topological(deps, a, done) && DownClosed(deps, done)
    requires j < i < |a| && a[i] == x && deps[x] <= done
    ensures a[j] != x && !Precedes(deps, a[j], x) && !Precedes(deps, x, a[j])
  {
    assert a[j] in a[..i];
    if Precedes(deps, a[j], x) {
      var path :| Path(deps, path) && path[0] == a[j] && path[|path| - 1] == x;
      PrecedesInside(deps, path, done);
    }
    if Precedes(deps, x, a[j]) {
      var path :| Path(deps, path) && path[0] == x && path[|path| - 1] == a[j];
      PrefixIsDownClosed(deps, a, done, j);
      PrecedesInside(deps, path, done + Elems(a[..j]));
    }
  }

  /** Moving a node to the front past nodes it commutes with changes nothing. */
  lemma {:induction false} MoveToFront<S(!new)>(step: (nat, S) -> S, before: seq<nat>, x: nat, s: S)
    requires forall j :: 0 <= j < |before| ==> Swap(step, x, before[j])
    ensures Exec(step, before + [x], s) == Exec(step, [x] + before, s)
  {
    if before == [] {
      assert before + [x] == [x] + before;
    } else {
      var y, rest := before[0], before[1..];
      assert step(x, step(y, s)) == step(y, step(x, s)) by { assert Swap(step, x, y); }
      hide Swap;
      assert (before + [x])[1..] == rest + [x];
      assert forall j :: 0 <= j < |rest| ==> rest[j] == before[j + 1];
      MoveToFront(step, rest, x, step(y, s));
      assert ([x] + rest)[1..] == rest;
      assert ([x] + before)[1..] == before;
    }
  }

  /** All linear extensions of the DAG end in the same state. */
  lemma {:induction false} LinearExtensionsAgree<S(!new)>(deps: Deps, step: (nat, S) -> S, a: seq<nat>, b: seq<nat>,
                  done: set<nat>, s: S)
    requires Commute(deps, step) && DownClosed(deps, done)
    requires Topological(deps, a, done) && Topological(deps, b, done) && Elems(a) == Elems(b)
    ensures Exec(step, a, s) == Exec(step, b, s)
    decreases |b|
  {
    if b == [] {
      SomeElem(a);
    } else {
      var x := b[0];
      assert x in Elems(b);
      var i :| 0 <= i < |a| && a[i] == x;
      assert b[..0] == [] && deps[x] <= done;
      FirstFirst(deps, step, a, i, done, s);
      RestIsTopological(deps, a, done, i);
      RestIsTopological(deps, b, done, 0);
      RestElems(deps, a, i, done);
      RestElems(deps, b, 0, done);
      assert Without(b, 0) == b[1..];
      LinearExtensionsAgree(deps, step, Without(a, i), b[1..], done + {x}, step(x, s));
    }
  }

  lemma SomeElem(a: seq<nat>)
    ensures a == [] <==> Elems(a) == {}
  {
    if a != [] { assert a[0] in Elems(a); }
  }

  function Without(a: seq<nat>, i: nat): seq<nat>
    requires i < |a|
  {
    a[..i] + a[i + 1..]
  }

  /** A node that is ready may as well run first. */
  lemma FirstFirst<S(!new)>(deps: Deps, step: (nat, S) -> S, a: seq<nat>, i: nat, done: set<nat>, s: S)
    requires Commute(deps, step) && DownClosed(deps, done) && Topological(deps, a, done)
    requires i < |a| && deps[a[i]] <= done
    ensures Exec(step, a, s) == Exec(step, Without(a, i), step(a[i], s))
  {
    hide Swap, Exec, Precedes, DownClosed, Topological;
    var x, before, after := a[i], a[..i], a[i + 1..];
    assert x < |deps| && forall j :: 0 <= j < i ==> a[j] < |deps| by { InRange(deps, a, done); }
    assert a == before + [x] + after;
    forall j | 0 <= j < |before| ensures Swap(step, x, before[j]) {
      FirstIsUnordered(deps, a, done, x, i, j);
    }
    CommuteAway(step, before, x, after, s);
  }

  lemma InRange(deps: Deps, a: seq<nat>, done: set<nat>)
    requires Topological(deps, a, done)
    ensures forall j :: 0 <= j < |a| ==> a[j] < |deps|
  {
  }

  lemma CommuteAway<S(!new)>(step: (nat, S) -> S, before: seq<nat>, x: nat, after: seq<nat>, s: S)
    requires forall j :: 0 <= j < |before| ==> Swap(step, x, before[j])
    ensures Exec(step, before + [x] + after, s) == Exec(step, before + after, step(x, s))
  {
    hide Swap;
    MoveToFront(step, before, x, s);
    ExecConcat(step, before + [x], after, s);
    ExecConcat(step, [x] + before, after, s);
    assert ([x] + before + after)[1..] == before + after;
  }

  /** Taking a node out leaves the nodes before it where they were, ... */
  lemma RestBefore(deps: Deps, a: seq<nat>, done: set<nat>, i: nat, k: nat)
    requires Topological(deps, a, done) && k < i < |a|
    ensures Without(a, i)[k] == a[k] && Without(a, i)[..k] == a[..k] && a[k] != a[i]
  {
    assert a[k] in a[..i];
  }

  /** ... and moves those after it up. */
  lemma RestAfter(deps: Deps, a: seq<nat>, done: set<nat>, i: nat, k: nat)
    requires Topological(deps, a, done) && i <= k < |a| - 1
    ensures Without(a, i)[k] == a[k + 1] && Elems(a[..k + 1]) == Elems(Without(a, i)[..k]) + {a[i]}
  {
    hide Topological, Elems;
    var r, front, middle := Without(a, i), a[..i], a[i + 1..k + 1];
    assert r[..k] == front + middle;
    assert a[..k + 1] == front + [a[i]] + middle;
    ElemsOut(front, a[i], middle);
  }

  lemma ElemsOut(front: seq<nat>, v: nat, middle: seq<nat>)
    ensures Elems(front + [v] + middle) == Elems(front + middle) + {v}
  {
  }

  lemma InElems(v: nat, s: seq<nat>)
    ensures v in Elems(s) <==> v in s
  {
  }

  lemma RestIsTopological(deps: Deps, a: seq<nat>, done: set<nat>, i: nat)
    requires Topological(deps, a, done) && DownClosed(deps, done) && i < |a| && deps[a[i]] <= done
    ensures Topological(deps, Without(a, i), done + {a[i]}) && DownClosed(deps, done + {a[i]})
  {
    var r, done' := Without(a, i), done + {a[i]};
    forall k | 0 <= k < |r|
      ensures r[k] < |deps| && r[k] !in done' && r[k] !in r[..k] && deps[r[k]] <= done' + Elems(r[..k])
    {
      hide DownClosed, Elems, Without;
      if k < i {
        RestBefore(deps, a, done, i, k);
      } else {
        RestAfter(deps, a, done, i, k);
        InElems(r[k], a[..k + 1]);
        InElems(r[k], r[..k]);
      }
    }
    hide Elems, Without;
  }

  lemma RestElems(deps: Deps, a: seq<nat>, i: nat, done: set<nat>)
    requires i < |a| && Topological(deps, a, done)
    ensures Elems(Without(a, i)) == Elems(a) - {a[i]}
  {
    assert a == a[..i] + [a[i]] + a[i + 1..];
    forall k | 0 <= k < |a| && k != i ensures a[k] != a[i] {
      assert if k < i then a[k] in a[..i] else a[i] in a[..k];
    }
    assert a[i] !in Without(a, i);
  }
}
