# Group, ring and field contracts

A Dafny model of a small hierarchy of algebraic-structure contracts: the
group, additive group, monoid, ring and field contracts. For each it models
the operations a conforming type supplies, the operations the contract
derives from them, and the axiom checks a conforming type inherits. It also
models the integer instances `GrZ` (additive group) and `RiZ` (ring).

Each contract becomes a Dafny datatype whose fields are the operations a
conformance supplies:

- `Groups.Group<T>`: `mul`, `identity`, `inverse`.
- `AdditiveGroups.AdditiveGroup<T>`: `add`, `neg`, `zero`, with the derived
  `Sub(g, a, b) = a + (-b)`.
- `Monoids.Monoid<T>`: `mul`, `identity`.
- `Rings.Ring<T>`: `add`, `neg`, `mul`, `fromInt`. The derived
  `Zero = fromInt(0)` and `One = fromInt(1)` give the additive group
  (`AdditivePart`) and the monoid (`MultiplicativePart`) the ring conforms to.
- `Fields.Field<T>`: the ring operations plus `inverse`. `RingPart` and
  `GroupPart` are the ring and the group it conforms to, and
  `Div(f, a, b) = a * inverse(b)`.

The axiom checks `TestAssociativity`, `TestIdentity` and `TestInverse` are
compiled predicates over sample values. Each is the single boolean equation
the source writes. They are total, and a false result is ordinary data.
The ghost predicates state the laws each contract stands for:

- `IsGroup`, `IsAdditiveGroup` and `IsMonoid` say that every check of the
  contract passes on every sample.
- `IsRing` asks that of the additive part and the multiplicative part, and
  adds the two distributive laws, which the source documents but does not
  check.
- `IsField` asks for the ring laws, for `0 != 1`, and for the group checks
  on `*` with the inverse check required only on nonzero elements. That is
  the documented "F - {0} is a group", not the declared conformance to the
  whole group contract, which `IsFieldAsDeclared` states (see Findings).

The generic lemmas are proved from those predicates alone, for every
conforming type. The integer lemmas prove once and for all what the checks
only sample.

The modules follow the source's protocols: `Groups`, `AdditiveGroups`,
`Monoids`, `Rings`, `Fields`, then `Integers` for `GrZ`/`RiZ` and `Reals`
for the real field.

Where the source text does not compile, the model follows its evident intent:

- The additive group checks (Contents.swift:56-70) are a copy of the group
  ones. They use `*`, `identity` and `inverse`, which the additive contract
  does not declare. They are modelled with `+`, `zero` and prefix `-`.
- `GrZ`'s `zero` (Contents.swift:77) is typed with an undefined `Z`. It is
  modelled as the integer 0.
- Subtraction (Contents.swift:51-53) and division (Contents.swift:133-135)
  are written as function bodies inside protocol declarations. They are
  modelled as derived operations of the contract.
- The monoid contract declares no checks. `Monoids.TestAssociativity` and
  `Monoids.TestIdentity` state the two laws its comment names
  (Contents.swift:82-87), so that `IsRing` can require them.
- The two distributive laws are documented in a comment
  (Contents.swift:100-103) and have no check in the source.
  `Rings.TestRightDistributivity` and `Rings.TestLeftDistributivity` state
  them, the left one as intended (see Findings).
- The only field instance in the source is `Double`. `Reals.RealField` is the
  exact real field that instance stands for. It has no rounding, and the
  reciprocal of 0 is fixed at 0: the contract leaves that value free, and the
  floating-point instance returns an infinity.

## Model

| member | source | states |
|---|---|---|
| `Groups.InverseUnique` | src/swift/group_ring_field.playground/Contents.swift:16-30 | in a type that passes every group check, any right inverse of `a` equals `a.inverse` |
| `Groups.InverseInvolutive` | src/swift/group_ring_field.playground/Contents.swift:28-30 | when every group check passes, `a.inverse.inverse == a` |
| `AdditiveGroups.AddLeftCancel` | src/swift/group_ring_field.playground/Contents.swift:41-49 | in an additive group, `a + x == a + y` holds exactly when `x == y` |
| `AdditiveGroups.AddRightCancel` | src/swift/group_ring_field.playground/Contents.swift:41-49 | in an additive group, `x + a == y + a` holds exactly when `x == y` |
| `AdditiveGroups.SubAddCancel` | src/swift/group_ring_field.playground/Contents.swift:51-53 | the derived subtraction is undone by addition: `(a - b) + b == a` |
| `AdditiveGroups.AddSubCancel` | src/swift/group_ring_field.playground/Contents.swift:51-53 | addition is undone by the derived subtraction: `(a + b) - b == a` |
| `AdditiveGroups.SubUnique` | src/swift/group_ring_field.playground/Contents.swift:51-53 | `x + b == a` holds exactly when `x == a - b` |
| `AdditiveGroups.SubSelfAndZero` | src/swift/group_ring_field.playground/Contents.swift:45-53 | `a - a == zero`, `-zero == zero` and `a - zero == a` |
| `Rings.ZeroUnique` | src/swift/group_ring_field.playground/Contents.swift:111-114 | the derived zero `init(0)` is the only zero the ring admits: any zero passing the additive identity check on every sample equals it |
| `Rings.OneUnique` | src/swift/group_ring_field.playground/Contents.swift:116-118 | the derived identity `init(1)` is the only identity the ring admits: any identity passing the monoid identity check on every sample equals it |
| `Rings.AddCommutes` | src/swift/group_ring_field.playground/Contents.swift:95-109 | the ring laws force `+` to be commutative, as the ring's comment claims, though no check tests it |
| `Rings.MulZero` | src/swift/group_ring_field.playground/Contents.swift:95-109 | in a ring, `a * zero == zero == zero * a` |
| `Rings.ZeroHasNoInverse` | src/swift/group_ring_field.playground/Contents.swift:95-109 | in a ring with `zero != identity`, no `x` has `zero * x == identity` or `x * zero == identity` |
| `Rings.TrivialRing` | src/swift/group_ring_field.playground/Contents.swift:107-119 | in a ring whose derived zero and identity coincide, every element is zero |
| `Fields.GroupIdentityUnique` | src/swift/group_ring_field.playground/Contents.swift:116-132 | in a field, any identity passing the group identity check on every sample equals the ring's derived identity `init(1)` |
| `Fields.DeclaredFieldIsTrivial` | src/swift/group_ring_field.playground/Contents.swift:132 | a type that conforms to the whole group contract and the ring contract with all checks passing has only one element |
| `Fields.ZeroFailsInverseCheck` | src/swift/group_ring_field.playground/Contents.swift:127-132 | in a field, whose nonzero elements form a group, the inverse check fails at zero, so a field never meets the declared laws |
| `Fields.DivMulCancel` | src/swift/group_ring_field.playground/Contents.swift:133-135 | for `b != 0`, `(a / b) * b == a` |
| `Fields.MulDivCancel` | src/swift/group_ring_field.playground/Contents.swift:133-135 | for `b != 0`, `(a * b) / b == a` |
| `Fields.DivUnique` | src/swift/group_ring_field.playground/Contents.swift:133-135 | for `b != 0`, `x * b == a` holds exactly when `x == a / b` |
| `Fields.DivSelfAndOne` | src/swift/group_ring_field.playground/Contents.swift:133-135 | for `b != 0`, `b / b == 1`, and `a / 1 == a` |
| `Fields.DivZero` | src/swift/group_ring_field.playground/Contents.swift:133-135 | for `b != 0`, `a / b == 0` holds exactly when `a == 0` |
| `Integers.GrZChecksPass` | src/swift/group_ring_field.playground/Contents.swift:56-78 | for `Int` with `+`, prefix `-` and zero 0, the three additive checks return true on every sample |
| `Integers.GrZIsAdditiveGroup` | src/swift/group_ring_field.playground/Contents.swift:73-78 | `GrZ` meets the additive group laws for all integers, not only at sampled points |
| `Integers.GrZSubIsIntSub` | src/swift/group_ring_field.playground/Contents.swift:51-53 | `GrZ`'s derived `a - b` is integer subtraction |
| `Integers.GrZSamples` | src/swift/group_ring_field.playground/Contents.swift:56-70 | the sample checks at (2, 3, 4), 7 and 5 return true |
| `Integers.SubtractionFailsAssociativity` | src/swift/group_ring_field.playground/Contents.swift:58-60 | integer subtraction offered as `+` fails the associativity check at (1, 1, 1), with an ordinary false result |
| `Integers.RiZZeroAndOne` | src/swift/group_ring_field.playground/Contents.swift:111-123 | `RiZ`'s derived zero is 0 and its identity is 1, and its additive structure is `GrZ`'s |
| `Integers.RiZChecksPass` | src/swift/group_ring_field.playground/Contents.swift:95-123 | for `Int`, the additive checks, the monoid checks with identity 1 and both distributive laws hold on every sample |
| `Integers.RiZIsRing` | src/swift/group_ring_field.playground/Contents.swift:121-123 | `RiZ` meets the ring laws for all integers |
| `Integers.DocumentedLeftLawFails` | src/swift/group_ring_field.playground/Contents.swift:103 | the left distributive law as documented, `a * (a + b) == a * b + a * c`, is false for the integers at (1, 1, 2) |
| `Reals.Reciprocal` | src/swift/group_ring_field.playground/Contents.swift:141-143 | the reciprocal of a nonzero `a` satisfies `a * r == 1`, and the reciprocal of zero is fixed at 0 |
| `Reals.RealFieldIsField` | src/swift/group_ring_field.playground/Contents.swift:138-144 | the exact reals with reciprocal as inverse meet the field laws, so the corrected field contract can be met |
| `Reals.RealDivIsDivision` | src/swift/group_ring_field.playground/Contents.swift:133-144 | for a nonzero divisor, the derived division is real division, so `4.0 / 2.0 == 2.0` |
| `Reals.ZeroNotInvertible` | src/swift/group_ring_field.playground/Contents.swift:141-143 | the inverse check fails for the reals at 0 |

## Findings

| source | as written | input that shows it | evidently intended | confidence | as-written member | corrected member |
|---|---|---|---|---|---|---|
| src/swift/group_ring_field.playground/Contents.swift:132 | `Field` conforms to the whole `Group` contract, so `testInverse` must pass for every element, zero included | `a = 0`: `0 * x == 0 != 1` for every `x` in any ring where `0 != 1` | as the comment at line 129 says, only the nonzero elements form a group under `*` | not executed | `Fields.IsFieldAsDeclared`, `Fields.DeclaredFieldIsTrivial` | `Fields.IsField`, `Fields.ZeroFailsInverseCheck`, `Reals.RealFieldIsField` |
| src/swift/group_ring_field.playground/Contents.swift:103 | left distributive law documented as `a * (a + b) = a * b + a * c` | integers `a = 1, b = 1, c = 2`: `2 != 3` | `a * (b + c) = a * b + a * c` | not executed | `Rings.TestLeftDistributivityAsDocumented`, `Integers.DocumentedLeftLawFails` | `Rings.TestLeftDistributivity`, `Integers.RiZIsRing` |

## Left out

- The `Double` field instance (Contents.swift:138-144) is not modelled as floating point. Rounding, which breaks exact `a * (1 / a) == 1`, and the infinity returned for `1 / 0` are absent. `Reals.RealField` uses exact reals, with the reciprocal of 0 fixed at 0.
- `GrZ` and `RiZ` use unbounded integers. The platform integer is 64 bits wide and traps on overflow, so on samples near its limits the checks stop the program rather than return.
- Swift mechanics are replaced by plain datatypes and functions: operator overloading, the `Equatable` requirement (a `T(==)` type parameter), typealiases and retroactive conformance of built-in types.
- Commutativity of `+`, mentioned in comments at lines 38 and 98, has no check in the source and none in the model. `Rings.AddCommutes` proves it follows from the ring laws.
- Rings.Zero, Rings.One: a conforming type may supply its own `zero` or `identity` in place of the derived defaults, as `GrZ` does for `zero` (Contents.swift:77); `Rings.Ring` has no field for such an override. `Rings.ZeroUnique` and `Rings.OneUnique` show that any own zero or identity that passes the identity check on every sample equals the derived one, so the override changes nothing for a lawful type.
- The playground context has no behaviour of its own and is not modelled.
