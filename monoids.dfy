/** The monoid contract: a closed binary operation `*` and a constant
    `identity`, with no inverse. The contract declares no checks of its
    own; the two below mirror the group checks for the laws it names. */
module Monoids {

  /** The operations a type supplies to conform to the monoid contract. */
  datatype Monoid<!T> = Monoid(mul: (T, T) -> T, identity: T)

  /** Associativity of `*` on one sample triple. */
  predicate TestAssociativity<T(==)>(m: Monoid<T>, a: T, b: T, c: T) {
    m.mul(m.mul(a, b), c) == m.mul(a, m.mul(b, c))
  }

  /** `identity` is a two-sided neutral element for `*` at one sample. */
  predicate TestIdentity<T(==)>(m: Monoid<T>, a: T) {
    m.mul(a, m.identity) == a && m.mul(m.identity, a) == a
  }

  /** The monoid axioms: every check passes on every sample. */
  ghost predicate IsMonoid<T(!new)>(m: Monoid<T>) {
    && (forall a, b, c :: TestAssociativity(m, a, b, c))
    && (forall a :: TestIdentity(m, a))
  }
}
