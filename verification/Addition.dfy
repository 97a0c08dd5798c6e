/** Additions that do not care about order or grouping. */
module Addition {
  ghost predicate Sums<T(!new)>(add: (T, T) -> T) {
    (forall x, y :: add(x, y) == add(y, x)) && forall x, y, z :: add(add(x, y), z) == add(x, add(y, z))
  }

  ghost predicate Zero<T(!new)>(add: (T, T) -> T, zero: T) {
    forall x :: add(zero, x) == x
  }

  lemma Commutes<T(!new)>(add: (T, T) -> T, x: T, y: T)
    requires Sums(add)
    ensures add(x, y) == add(y, x)
  {
  }

  lemma Associates<T(!new)>(add: (T, T) -> T, x: T, y: T, z: T)
    requires Sums(add)
    ensures add(add(x, y), z) == add(x, add(y, z))
  {
  }

  lemma AddsZero<T(!new)>(add: (T, T) -> T, zero: T, x: T)
    requires Sums(add) && Zero(add, zero)
    ensures add(zero, x) == x == add(x, zero)
  {
    assert add(x, zero) == add(zero, x);
  }

  lemma Exchange<T(!new)>(add: (T, T) -> T, x: T, y: T, z: T)
    requires Sums(add)
    ensures add(add(x, y), z) == add(add(x, z), y)
  {
    assert add(y, z) == add(z, y);
  }
}
