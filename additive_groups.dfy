/** The additive group contract: a binary `+`, a prefix negation `-` that
    plays the role of the inverse, and a constant `zero`, with a derived
    binary subtraction and the three axiom checks stated in additive
    notation. It is a contract of its own, not the multiplicative one
    renamed. */
module AdditiveGroups {

  /** The operations a type supplies to conform to the additive group contract. */
  datatype AdditiveGroup<!T> = AdditiveGroup(add: (T, T) -> T, neg: T -> T, zero: T)

  /** Derived binary `-`: add the negation of the right operand. */
  function Sub<T>(g: AdditiveGroup<T>, a: T, b: T): T {
    g.add(a, g.neg(b))
  }

  /** Associativity of `+` on one sample triple. */
  predicate TestAssociativity<T(==)>(g: AdditiveGroup<T>, a: T, b: T, c: T) {
    g.add(g.add(a, b), c) == g.add(a, g.add(b, c))
  }

  /** `zero` is a two-sided neutral element for `+` at one sample. */
  predicate TestIdentity<T(==)>(g: AdditiveGroup<T>, a: T) {
    g.add(a, g.zero) == a && g.add(g.zero, a) == a
  }

  /** Negation is a two-sided additive inverse at one sample. */
  predicate TestInverse<T(==)>(g: AdditiveGroup<T>, a: T) {
    g.add(a, g.neg(a)) == g.zero && g.add(g.neg(a), a) == g.zero
  }

  /** The additive group axioms: every check passes on every sample. */
  ghost predicate IsAdditiveGroup<T(!new)>(g: AdditiveGroup<T>) {
    && (forall a, b, c :: TestAssociativity(g, a, b, c))
    && (forall a :: TestIdentity(g, a))
    && (forall a :: TestInverse(g, a))
  }

  /** Adding the same element on the left can be cancelled. */
  lemma AddLeftCancel<T(!new)>(g: AdditiveGroup<T>, a: T, x: T, y: T)
    requires IsAdditiveGroup(g)
    ensures g.add(a, x) == g.add(a, y) <==> x == y
  {
    if g.add(a, x) == g.add(a, y) {
      var na := g.neg(a);
      assert TestInverse(g, a);
      assert TestAssociativity(g, na, a, x);
      assert TestAssociativity(g, na, a, y);
      assert TestIdentity(g, x);
      assert TestIdentity(g, y);
    }
  }

  /** Adding the same element on the right can be cancelled. */
  lemma AddRightCancel<T(!new)>(g: AdditiveGroup<T>, a: T, x: T, y: T)
    requires IsAdditiveGroup(g)
    ensures g.add(x, a) == g.add(y, a) <==> x == y
  {
    if g.add(x, a) == g.add(y, a) {
      AddSubCancel(g, x, a);
      AddSubCancel(g, y, a);
    }
  }

  /** Subtraction undoes addition: (a - b) + b == a. */
  lemma SubAddCancel<T(!new)>(g: AdditiveGroup<T>, a: T, b: T)
    requires IsAdditiveGroup(g)
    ensures g.add(Sub(g, a, b), b) == a
  {
    assert TestAssociativity(g, a, g.neg(b), b);
    assert TestInverse(g, b);
    assert TestIdentity(g, a);
  }

  /** Addition undoes subtraction: (a + b) - b == a. */
  lemma AddSubCancel<T(!new)>(g: AdditiveGroup<T>, a: T, b: T)
    requires IsAdditiveGroup(g)
    ensures Sub(g, g.add(a, b), b) == a
  {
    assert TestAssociativity(g, a, b, g.neg(b));
    assert TestInverse(g, b);
    assert TestIdentity(g, a);
  }

  /** a - b is the unique x with x + b == a. */
  lemma SubUnique<T(!new)>(g: AdditiveGroup<T>, a: T, b: T, x: T)
    requires IsAdditiveGroup(g)
    ensures g.add(x, b) == a <==> x == Sub(g, a, b)
  {
    if g.add(x, b) == a {
      AddSubCancel(g, x, b);
    } else {
      SubAddCancel(g, a, b);
    }
  }

  /** a - a == zero, and zero is negated to itself, so a - zero == a. */
  lemma SubSelfAndZero<T(!new)>(g: AdditiveGroup<T>, a: T)
    requires IsAdditiveGroup(g)
    ensures Sub(g, a, a) == g.zero
    ensures g.neg(g.zero) == g.zero
    ensures Sub(g, a, g.zero) == a
  {
    assert TestInverse(g, a);
    assert TestInverse(g, g.zero);
    assert TestIdentity(g, g.neg(g.zero));
    assert TestIdentity(g, a);
  }
}
