/** The multiplicative group contract: a closed binary operation `*`, a
    constant `identity` and a per-value `inverse`, together with the three
    axiom checks that every conforming type inherits. A conformance is a
    value of `Group<T>`; the element type must support `==`, as the contract
    demands structural equality of its elements. */
module Groups {

  /** The operations a type supplies to conform to the group contract. */
  datatype Group<!T> = Group(mul: (T, T) -> T, identity: T, inverse: T -> T)

  /** Associativity check on one sample triple. */
  predicate TestAssociativity<T(==)>(g: Group<T>, a: T, b: T, c: T) {
    g.mul(g.mul(a, b), c) == g.mul(a, g.mul(b, c))
  }

  /** Two-sided identity check on one sample. */
  predicate TestIdentity<T(==)>(g: Group<T>, a: T) {
    g.mul(a, g.identity) == a && g.mul(g.identity, a) == a
  }

  /** Two-sided inverse check on one sample. */
  predicate TestInverse<T(==)>(g: Group<T>, a: T) {
    g.mul(a, g.inverse(a)) == g.identity && g.mul(g.inverse(a), a) == g.identity
  }

  /** The group axioms: every check passes on every sample. */
  ghost predicate IsGroup<T(!new)>(g: Group<T>) {
    && (forall a, b, c :: TestAssociativity(g, a, b, c))
    && (forall a :: TestIdentity(g, a))
    && (forall a :: TestInverse(g, a))
  }

  /** In a group, a right inverse of `a` is the inverse that `g` supplies. */
  lemma InverseUnique<T(!new)>(g: Group<T>, a: T, x: T)
    requires IsGroup(g)
    requires g.mul(a, x) == g.identity
    ensures x == g.inverse(a)
  {
    assert TestIdentity(g, x);
    assert TestInverse(g, a);
    assert TestAssociativity(g, g.inverse(a), a, x);
    assert TestIdentity(g, g.inverse(a));
  }

  /** Inverting twice gives back the element. */
  lemma InverseInvolutive<T(!new)>(g: Group<T>, a: T)
    requires IsGroup(g)
    ensures g.inverse(g.inverse(a)) == a
  {
    assert TestInverse(g, a);
    InverseUnique(g, g.inverse(a), a);
  }
}
