/** The ring contract: an additive group under `+` and a monoid under `*`
    on the same type. A conforming type supplies `+`, prefix `-`, `*` and a
    constructor from an integer; the contract derives the additive `zero`
    as the constructor at 0 and the multiplicative `identity` as the
    constructor at 1, so neither is written by hand. */
module Rings {
  import AG = AdditiveGroups
  import M = Monoids

  /** The operations a type supplies to conform to the ring contract. */
  datatype Ring<!T> = Ring(add: (T, T) -> T, neg: T -> T, mul: (T, T) -> T, fromInt: int -> T)

  /** The derived additive zero. */
  function Zero<T>(r: Ring<T>): T {
    r.fromInt(0)
  }

  /** The derived multiplicative identity. */
  function One<T>(r: Ring<T>): T {
    r.fromInt(1)
  }

  /** The additive group the ring conforms to, with its derived zero. */
  function AdditivePart<T>(r: Ring<T>): AG.AdditiveGroup<T>
  {
    AG.AdditiveGroup(r.add, r.neg, Zero(r))
  }

  /** The monoid the ring conforms to, with its derived identity. */
  function MultiplicativePart<T>(r: Ring<T>): M.Monoid<T>
  {
    M.Monoid(r.mul, One(r))
  }

  /** Multiplication distributes over addition from the right on one sample:
      (a + b) * c == a * c + b * c. */
  predicate TestRightDistributivity<T(==)>(r: Ring<T>, a: T, b: T, c: T) {
    r.mul(r.add(a, b), c) == r.add(r.mul(a, c), r.mul(b, c))
  }

  /** Multiplication distributes over addition from the left on one sample:
      a * (b + c) == a * b + a * c. */
  predicate TestLeftDistributivity<T(==)>(r: Ring<T>, a: T, b: T, c: T) {
    r.mul(a, r.add(b, c)) == r.add(r.mul(a, b), r.mul(a, c))
  }

  /** The left law exactly as the ring's documentation writes it,
      a * (a + b) == a * b + a * c, where the first `a` inside the
      parentheses should be `b`. */
  predicate TestLeftDistributivityAsDocumented<T(==)>(r: Ring<T>, a: T, b: T, c: T) {
    r.mul(a, r.add(a, b)) == r.add(r.mul(a, b), r.mul(a, c))
  }

  /** The ring axioms: the additive part is an additive group, the
      multiplicative part a monoid, and both distributive laws hold. */
  ghost predicate IsRing<T(!new)>(r: Ring<T>) {
    && AG.IsAdditiveGroup(AdditivePart(r))
    && M.IsMonoid(MultiplicativePart(r))
    && (forall a, b, c :: TestRightDistributivity(r, a, b, c))
    && (forall a, b, c :: TestLeftDistributivity(r, a, b, c))
  }

  /** The derived zero is the only zero the ring's `+` admits: a zero the
      type supplied itself, in place of the derived one, that passes the
      identity check on every sample equals `init(0)`. */
  lemma ZeroUnique<T(!new)>(r: Ring<T>, e: T)
    requires IsRing(r)
    requires forall a :: AG.TestIdentity(AG.AdditiveGroup(r.add, r.neg, e), a)
    ensures e == Zero(r)
  {
    assert AG.TestIdentity(AG.AdditiveGroup(r.add, r.neg, e), Zero(r));
    assert AG.TestIdentity(AdditivePart(r), e);
  }

  /** The derived identity is the only identity the ring's `*` admits: an
      identity the type supplied itself that passes the identity check on
      every sample equals `init(1)`. */
  lemma OneUnique<T(!new)>(r: Ring<T>, e: T)
    requires IsRing(r)
    requires forall a :: M.TestIdentity(M.Monoid(r.mul, e), a)
    ensures e == One(r)
  {
    assert M.TestIdentity(M.Monoid(r.mul, e), One(r));
    assert M.TestIdentity(MultiplicativePart(r), e);
  }

  /** The ring laws force `+` to be commutative, although no check tests
      it: expanding (1 + 1) * (a + b) by each distributive law gives
      (a + b) + (a + b) == (a + a) + (b + b), and cancelling the outer a
      and b leaves b + a == a + b. */
  lemma AddCommutes<T(!new)>(r: Ring<T>, a: T, b: T)
    requires IsRing(r)
    ensures r.add(a, b) == r.add(b, a)
  {
    var g := AdditivePart(r);
    var m := MultiplicativePart(r);
    var o := One(r);
    var s := r.add(a, b);
    var t := r.add(o, o);
    assert r.mul(t, s) == r.add(s, s) by {
      assert TestRightDistributivity(r, o, o, s);
      assert M.TestIdentity(m, s);
    }
    assert r.mul(t, s) == r.add(r.add(a, a), r.add(b, b)) by {
      assert TestLeftDistributivity(r, t, a, b);
      assert TestRightDistributivity(r, o, o, a);
      assert TestRightDistributivity(r, o, o, b);
      assert M.TestIdentity(m, a);
      assert M.TestIdentity(m, b);
    }
    assert AG.TestAssociativity(g, a, b, s);
    assert AG.TestAssociativity(g, a, a, r.add(b, b));
    AG.AddLeftCancel(g, a, r.add(b, s), r.add(a, r.add(b, b)));
    assert AG.TestAssociativity(g, b, a, b);
    assert AG.TestAssociativity(g, a, b, b);
    AG.AddRightCancel(g, b, r.add(b, a), s);
  }

  /** Zero absorbs multiplication from both sides: a * 0 == 0 == 0 * a. */
  lemma MulZero<T(!new)>(r: Ring<T>, a: T)
    requires IsRing(r)
    ensures r.mul(a, Zero(r)) == Zero(r)
    ensures r.mul(Zero(r), a) == Zero(r)
  {
    var g := AdditivePart(r);
    var z := Zero(r);
    assert AG.TestIdentity(g, z);
    // a * 0 == a * (0 + 0) == a * 0 + a * 0, then cancel a * 0.
    var p := r.mul(a, z);
    assert TestLeftDistributivity(r, a, z, z);
    assert AG.TestIdentity(g, p);
    AG.AddLeftCancel(g, p, p, z);
    // 0 * a == (0 + 0) * a == 0 * a + 0 * a, then cancel 0 * a.
    var q := r.mul(z, a);
    assert TestRightDistributivity(r, z, z, a);
    assert AG.TestIdentity(g, q);
    AG.AddLeftCancel(g, q, q, z);
  }

  /** Unless the ring is the one-element ring, zero has no multiplicative
      inverse on either side. */
  lemma ZeroHasNoInverse<T(!new)>(r: Ring<T>, x: T)
    requires IsRing(r)
    requires Zero(r) != One(r)
    ensures r.mul(Zero(r), x) != One(r)
    ensures r.mul(x, Zero(r)) != One(r)
  {
    MulZero(r, x);
  }

  /** In the one-element ring, where 0 == 1, every element is zero. */
  lemma TrivialRing<T(!new)>(r: Ring<T>, a: T)
    requires IsRing(r)
    requires Zero(r) == One(r)
    ensures a == Zero(r)
  {
    assert M.TestIdentity(MultiplicativePart(r), a);
    MulZero(r, a);
  }
}
