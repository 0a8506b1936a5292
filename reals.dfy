/** The real numbers as a field, with inverse the reciprocal. This is the
    exact field of reals, not floating point: rounding is absent, and the
    reciprocal of 0, which the contract leaves unconstrained, is fixed here
    at 0 rather than an infinity. */
module Reals {
  import AG = AdditiveGroups
  import G = Groups
  import M = Monoids
  import R = Rings
  import F = Fields

  /** The reciprocal, with 0 sent to 0. */
  function Reciprocal(a: real): (r: real)
    ensures a != 0.0 ==> a * r == 1.0
    ensures a == 0.0 ==> r == 0.0
  {
    if a == 0.0 then 0.0 else 1.0 / a
  }

  /** The reals with their arithmetic and the reciprocal as inverse. */
  function RealField(): F.Field<real> {
    F.Field((a: real, b: real) => a + b, (a: real) => -a, (a: real, b: real) => a * b,
            (n: int) => n as real, Reciprocal)
  }

  /** The reals meet the field laws: the ring laws, 0 != 1, and the group
      laws for `*` on the nonzero reals. */
  lemma RealFieldIsField()
    ensures F.IsField(RealField())
  {
    var r := F.RingPart(RealField());
    var g := F.GroupPart(RealField());
    forall a, b, c
      ensures AG.TestAssociativity(R.AdditivePart(r), a, b, c)
      ensures M.TestAssociativity(R.MultiplicativePart(r), a, b, c)
      ensures R.TestRightDistributivity(r, a, b, c)
      ensures R.TestLeftDistributivity(r, a, b, c)
      ensures G.TestAssociativity(g, a, b, c)
    {
    }
    forall a
      ensures AG.TestIdentity(R.AdditivePart(r), a)
      ensures AG.TestInverse(R.AdditivePart(r), a)
      ensures M.TestIdentity(R.MultiplicativePart(r), a)
      ensures G.TestIdentity(g, a)
      ensures a != 0.0 ==> G.TestInverse(g, a)
    {
    }
  }

  /** Division is ordinary real division on a nonzero divisor; the worked
      sample 4.0 / 2.0 == 4.0 * 0.5 == 2.0 is one case. */
  lemma RealDivIsDivision(a: real, b: real)
    requires b != 0.0
    ensures F.Div(RealField(), a, b) == a / b
  {
  }

  /** Zero fails the inverse check in the reals, as in every field. */
  lemma ZeroNotInvertible()
    ensures !G.TestInverse(F.GroupPart(RealField()), 0.0)
  {
  }
}
