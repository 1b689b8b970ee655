/** Repeated addition in a commutative monoid: what scalar multiplication means. */
module Group {

  /** An operation with a unit on the values that satisfy member. */
  datatype Op<!T> = Op(zero: T, add: (T, T) -> T, member: T -> bool)

  ghost predicate Closed<T(!new)>(g: Op<T>) {
    && g.member(g.zero)
    && (forall x :: g.member(x) ==> g.add(g.zero, x) == x && g.add(x, g.zero) == x)
    && forall x, y :: g.member(x) && g.member(y) ==> g.member(g.add(x, y))
  }

  ghost predicate Commutative<T(!new)>(g: Op<T>) {
    forall x, y :: g.member(x) && g.member(y) ==> g.add(x, y) == g.add(y, x)
  }

  ghost predicate Associative<T(!new)>(g: Op<T>) {
    forall x, y, z :: AssociativeAt(g, x, y, z)
  }

  ghost predicate AssociativeAt<T>(g: Op<T>, x: T, y: T, z: T) {
    g.member(x) && g.member(y) && g.member(z) ==> g.add(g.add(x, y), z) == g.add(x, g.add(y, z))
  }

  /** x added to itself k times. */
  function Times<T>(g: Op<T>, k: nat, x: T): T {
    if k == 0 then g.zero else g.add(Times(g, k - 1, x), x)
  }

  /** Binary double-and-add from an accumulator. */
  function DoubleAndAdd<T>(g: Op<T>, amount: nat, result: T, addend: T): T {
    if amount == 0 then result
    else DoubleAndAdd(g, amount / 2, if amount % 2 == 1 then g.add(result, addend) else result, g.add(addend, addend))
  }

  lemma {:induction false} TimesClosed<T(!new)>(g: Op<T>, k: nat, x: T)
    requires Closed(g) && g.member(x)
    ensures g.member(Times(g, k, x))
  {
    if k > 0 {
      TimesClosed(g, k - 1, x);
    }
  }

  lemma {:induction false} TimesAdd<T(!new)>(g: Op<T>, j: nat, k: nat, x: T)
    requires Closed(g) && Associative(g) && g.member(x)
    ensures Times(g, j + k, x) == g.add(Times(g, j, x), Times(g, k, x))
  {
    TimesClosed(g, j, x);
    if k > 0 {
      TimesAdd(g, j, k - 1, x);
      TimesClosed(g, k - 1, x);
      assert AssociativeAt(g, Times(g, j, x), Times(g, k - 1, x), x);
    }
  }

  lemma {:induction false} TimesTimes<T(!new)>(g: Op<T>, k: nat, j: nat, x: T)
    requires Closed(g) && Associative(g) && g.member(x)
    ensures Times(g, k, Times(g, j, x)) == Times(g, k * j, x)
  {
    if k > 0 {
      TimesTimes(g, k - 1, j, x);
      assert k * j == (k - 1) * j + j;
      TimesAdd(g, (k - 1) * j, j, x);
    }
  }

  /** Double-and-add adds the amount-fold of the addend to the accumulator. */
  lemma {:induction false} DoubleAndAddIsTimes<T(!new)>(g: Op<T>, amount: nat, result: T, addend: T)
    requires Closed(g) && Associative(g) && g.member(result) && g.member(addend)
    ensures DoubleAndAdd(g, amount, result, addend) == g.add(result, Times(g, amount, addend))
  {
    if amount > 0 {
      var half, double := amount / 2, g.add(addend, addend);
      DoubleAndAddIsTimes(g, half, if amount % 2 == 1 then g.add(result, addend) else result, double);
      assert Times(g, 1, addend) == g.add(Times(g, 0, addend), addend) == addend;
      assert Times(g, 2, addend) == double;
      TimesTimes(g, half, 2, addend);
      if amount % 2 == 1 {
        TimesClosed(g, 2 * half, addend);
        TimesAdd(g, 1, 2 * half, addend);
        assert AssociativeAt(g, result, addend, Times(g, 2 * half, addend));
      }
    }
  }

  /** Adding a mask and then its inverse leaves the value. */
  lemma Unmask<T(!new)>(g: Op<T>, x: T, mask: T, inverse: T)
    requires Closed(g) && Associative(g)
    requires g.member(x) && g.member(mask) && g.member(inverse) && g.add(mask, inverse) == g.zero
    ensures g.add(g.add(x, mask), inverse) == x
  {
    assert AssociativeAt(g, x, mask, inverse);
  }

  /** The Diffie-Hellman square: the order of the two scalars does not matter. */
  lemma Exchange<T(!new)>(g: Op<T>, j: nat, k: nat, x: T)
    requires Closed(g) && Associative(g) && g.member(x)
    ensures Times(g, j, Times(g, k, x)) == Times(g, k, Times(g, j, x))
  {
    TimesTimes(g, j, k, x);
    TimesTimes(g, k, j, x);
    assert j * k == k * j;
  }
}
