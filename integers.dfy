/** The integers as the additive group `GrZ` and as the ring `RiZ`.
    Integers are unbounded here; the 64-bit width of the platform integer
    is not modelled. */
module Integers {
  import AG = AdditiveGroups
  import M = Monoids
  import R = Rings

  /** Integer addition, negation and 0 as an additive group. */
  function GrZ(): AG.AdditiveGroup<int> {
    AG.AdditiveGroup((a: int, b: int) => a + b, (a: int) => -a, 0)
  }

  /** The integers as a ring: the constructor from an integer is the
      identity map, and `*` is integer multiplication. */
  function RiZ(): R.Ring<int> {
    R.Ring((a: int, b: int) => a + b, (a: int) => -a, (a: int, b: int) => a * b, (n: int) => n)
  }

  /** The three additive checks pass on every sample. */
  lemma GrZChecksPass(a: int, b: int, c: int)
    ensures AG.TestAssociativity(GrZ(), a, b, c)
    ensures AG.TestIdentity(GrZ(), a)
    ensures AG.TestInverse(GrZ(), a)
  {
  }

  /** Hence GrZ meets the additive group laws everywhere, not only on the
      samples a caller happens to check. */
  lemma GrZIsAdditiveGroup()
    ensures AG.IsAdditiveGroup(GrZ())
  {
  }

  /** The derived subtraction of GrZ is integer subtraction. */
  lemma GrZSubIsIntSub(a: int, b: int)
    ensures AG.Sub(GrZ(), a, b) == a - b
  {
  }

  /** The worked samples: (2 + 3) + 4 == 2 + (3 + 4), 7 + 0 == 7 == 0 + 7,
      and 5 + (-5) == 0 == (-5) + 5. */
  lemma GrZSamples()
    ensures AG.TestAssociativity(GrZ(), 2, 3, 4)
    ensures AG.TestIdentity(GrZ(), 7)
    ensures AG.TestInverse(GrZ(), 5)
  {
  }

  /** A check that fails is an ordinary false result: integer subtraction
      offered as `+` fails associativity at (1, 1, 1), since
      (1 - 1) - 1 == -1 while 1 - (1 - 1) == 1. */
  lemma SubtractionFailsAssociativity()
    ensures !AG.TestAssociativity(AG.AdditiveGroup((a: int, b: int) => a - b, (a: int) => a, 0), 1, 1, 1)
  {
  }

  /** The derived zero and identity of RiZ are 0 and 1, and RiZ has the
      same additive structure as GrZ. */
  lemma RiZZeroAndOne()
    ensures R.Zero(RiZ()) == 0 && R.One(RiZ()) == 1
    ensures R.AdditivePart(RiZ()).zero == GrZ().zero
    ensures forall a: int, b: int :: R.AdditivePart(RiZ()).add(a, b) == GrZ().add(a, b)
    ensures forall a: int :: R.AdditivePart(RiZ()).neg(a) == GrZ().neg(a)
  {
  }

  /** The ring checks pass on every sample: the additive ones, the monoid
      ones with identity 1, and both distributive laws. */
  lemma RiZChecksPass(a: int, b: int, c: int)
    ensures AG.TestAssociativity(R.AdditivePart(RiZ()), a, b, c)
    ensures AG.TestIdentity(R.AdditivePart(RiZ()), a)
    ensures AG.TestInverse(R.AdditivePart(RiZ()), a)
    ensures M.TestAssociativity(R.MultiplicativePart(RiZ()), a, b, c)
    ensures M.TestIdentity(R.MultiplicativePart(RiZ()), a)
    ensures R.TestRightDistributivity(RiZ(), a, b, c)
    ensures R.TestLeftDistributivity(RiZ(), a, b, c)
  {
  }

  /** Hence RiZ meets the ring laws everywhere. */
  lemma RiZIsRing()
    ensures R.IsRing(RiZ())
  {
    forall a, b, c
      ensures AG.TestAssociativity(R.AdditivePart(RiZ()), a, b, c)
      ensures M.TestAssociativity(R.MultiplicativePart(RiZ()), a, b, c)
      ensures R.TestRightDistributivity(RiZ(), a, b, c)
      ensures R.TestLeftDistributivity(RiZ(), a, b, c)
    {
      RiZChecksPass(a, b, c);
    }
    forall a
      ensures AG.TestIdentity(R.AdditivePart(RiZ()), a)
      ensures AG.TestInverse(R.AdditivePart(RiZ()), a)
      ensures M.TestIdentity(R.MultiplicativePart(RiZ()), a)
    {
      RiZChecksPass(a, a, a);
    }
  }

  /** The left law as documented, a * (a + b) == a * b + a * c, fails for
      the integers at a = 1, b = 1, c = 2: 1 * (1 + 1) == 2 but
      1 * 1 + 1 * 2 == 3. */
  lemma DocumentedLeftLawFails()
    ensures !R.TestLeftDistributivityAsDocumented(RiZ(), 1, 1, 2)
  {
  }
}
