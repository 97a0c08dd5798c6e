/** Memories as functions from addresses to values, with one cell changed. */
module Cells {
  function Put1<V>(f: nat -> V, a: nat, v: V): nat -> V {
    (x: nat) => if x == a then v else f(x)
  }

  function Put2<V>(f: (nat, nat) -> V, a: nat, b: nat, v: V): (nat, nat) -> V {
    (x: nat, y: nat) => if x == a && y == b then v else f(x, y)
  }

  function Put3<V>(f: (nat, nat, nat) -> V, a: nat, b: nat, c: nat, v: V): (nat, nat, nat) -> V {
    (x: nat, y: nat, z: nat) => if x == a && y == b && z == c then v else f(x, y, z)
  }

  function Put4<V>(f: (nat, nat, nat, nat) -> V, a: nat, b: nat, c: nat, d: nat, v: V): (nat, nat, nat, nat) -> V {
    (x: nat, y: nat, z: nat, w: nat) => if x == a && y == b && z == c && w == d then v else f(x, y, z, w)
  }
}
