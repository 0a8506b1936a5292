/** The field contract: a ring whose `*` is also the operation of the group
    contract, with a per-value `inverse`, and a derived division
    `a / b == a * b.inverse`. The group identity is the ring's derived
    identity, the constructor at 1. */
module Fields {
  import G = Groups
  import R = Rings

  /** The operations a type supplies to conform to the field contract. */
  datatype Field<!T> = Field(add: (T, T) -> T, neg: T -> T, mul: (T, T) -> T, fromInt: int -> T, inverse: T -> T)

  /** The ring the field conforms to. */
  function RingPart<T>(f: Field<T>): R.Ring<T>
  {
    R.Ring(f.add, f.neg, f.mul, f.fromInt)
  }

  /** The multiplicative group the field conforms to; its identity is the
      ring's derived identity. */
  function GroupPart<T>(f: Field<T>): G.Group<T>
  {
    G.Group(f.mul, f.fromInt(1), f.inverse)
  }

  /** Derived division: multiply by the inverse of the divisor. */
  function Div<T>(f: Field<T>, a: T, b: T): T {
    f.mul(a, f.inverse(b))
  }

  /** The field axioms as the field's documentation states them: a ring,
      with 0 != 1, whose nonzero elements form a group under `*`. So the
      associativity and identity checks hold everywhere, and the inverse
      check holds on every nonzero element. The group's associativity and
      identity conjuncts coincide with the monoid laws inside `IsRing`,
      since the group uses the ring's `*` and `init(1)`; they are kept to
      mirror the statement that F - {0} is a group. */
  ghost predicate IsField<T(!new)>(f: Field<T>) {
    var r := RingPart(f);
    var g := GroupPart(f);
    && R.IsRing(r)
    && R.Zero(r) != R.One(r)
    && (forall a, b, c :: G.TestAssociativity(g, a, b, c))
    && (forall a :: G.TestIdentity(g, a))
    && (forall a :: a != R.Zero(r) ==> G.TestInverse(g, a))
  }

  /** The group identity of a field is the ring's derived identity
      `init(1)`, and no other element passes the group identity check on
      every sample. */
  lemma GroupIdentityUnique<T(!new)>(f: Field<T>, e: T)
    requires IsField(f)
    requires forall a :: G.TestIdentity(G.Group(f.mul, e, f.inverse), a)
    ensures e == R.One(RingPart(f))
  {
    var one := R.One(RingPart(f));
    assert G.TestIdentity(G.Group(f.mul, e, f.inverse), one);
    assert G.TestIdentity(GroupPart(f), e);
  }

  /** The laws the contract declaration itself asks for: a ring that also
      conforms to the whole group contract, so the inverse check must hold
      on every element, zero included. */
  ghost predicate IsFieldAsDeclared<T(!new)>(f: Field<T>) {
    R.IsRing(RingPart(f)) && G.IsGroup(GroupPart(f))
  }

  /** Only the one-element ring meets the declared laws: every element of a
      type that does is zero. */
  lemma DeclaredFieldIsTrivial<T(!new)>(f: Field<T>, a: T)
    requires IsFieldAsDeclared(f)
    ensures a == R.Zero(RingPart(f))
  {
    var r := RingPart(f);
    var z := R.Zero(r);
    assert G.TestInverse(GroupPart(f), z);
    R.MulZero(r, f.inverse(z));
    R.TrivialRing(r, a);
  }

  /** A field never passes the inverse check at zero, so no field meets the
      declared laws. */
  lemma ZeroFailsInverseCheck<T(!new)>(f: Field<T>)
    requires IsField(f)
    ensures !G.TestInverse(GroupPart(f), R.Zero(RingPart(f)))
    ensures !IsFieldAsDeclared(f)
  {
    var r := RingPart(f);
    R.ZeroHasNoInverse(r, f.inverse(R.Zero(r)));
  }

  /** Dividing by a nonzero b and multiplying back by b gives a back. */
  lemma DivMulCancel<T(!new)>(f: Field<T>, a: T, b: T)
    requires IsField(f)
    requires b != R.Zero(RingPart(f))
    ensures f.mul(Div(f, a, b), b) == a
  {
    var g := GroupPart(f);
    assert G.TestAssociativity(g, a, f.inverse(b), b);
    assert G.TestInverse(g, b);
    assert G.TestIdentity(g, a);
  }

  /** Multiplying by a nonzero b and dividing by b gives a back. */
  lemma MulDivCancel<T(!new)>(f: Field<T>, a: T, b: T)
    requires IsField(f)
    requires b != R.Zero(RingPart(f))
    ensures Div(f, f.mul(a, b), b) == a
  {
    var g := GroupPart(f);
    assert G.TestAssociativity(g, a, b, f.inverse(b));
    assert G.TestInverse(g, b);
    assert G.TestIdentity(g, a);
  }

  /** a / b is the unique x with x * b == a, for nonzero b. */
  lemma DivUnique<T(!new)>(f: Field<T>, a: T, b: T, x: T)
    requires IsField(f)
    requires b != R.Zero(RingPart(f))
    ensures f.mul(x, b) == a <==> x == Div(f, a, b)
  {
    if f.mul(x, b) == a {
      MulDivCancel(f, x, b);
    } else {
      DivMulCancel(f, a, b);
    }
  }

  /** A nonzero b divided by itself is 1, and anything divided by 1 is
      itself. */
  lemma DivSelfAndOne<T(!new)>(f: Field<T>, a: T, b: T)
    requires IsField(f)
    requires b != R.Zero(RingPart(f))
    ensures Div(f, b, b) == R.One(RingPart(f))
    ensures Div(f, a, R.One(RingPart(f))) == a
  {
    var g := GroupPart(f);
    var r := RingPart(f);
    var one := R.One(r);
    assert G.TestInverse(g, b);
    // 1 != 0, so 1 has an inverse, and 1 * inverse(1) is both 1 and inverse(1).
    assert G.TestInverse(g, one);
    assert G.TestIdentity(g, f.inverse(one));
    assert G.TestIdentity(g, a);
  }

  /** The quotient of a by a nonzero b is zero exactly when a is zero. */
  lemma DivZero<T(!new)>(f: Field<T>, a: T, b: T)
    requires IsField(f)
    requires b != R.Zero(RingPart(f))
    ensures Div(f, a, b) == R.Zero(RingPart(f)) <==> a == R.Zero(RingPart(f))
  {
    var r := RingPart(f);
    R.MulZero(r, f.inverse(b));
    if Div(f, a, b) == R.Zero(r) {
      DivMulCancel(f, a, b);
      R.MulZero(r, b);
    }
  }
}
