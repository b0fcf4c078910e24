# Vector3: a verified model of `vec::Vector3`

This project models the generic value type `vec::Vector3<T>` from
`vectors.hpp`, instantiated with an unbounded integer element type. A vector
has three components, `x`, `y` and `z`, and an orientation flag, `row`: true
means a row vector and false means a column vector.

The model is functional. `Vector3(x, y, z, row)` is an immutable datatype.
Each C++ operator is a pure function:

- an out-of-place operator returns the new vector;
- an in-place operator (`=`, `+=`, `-=`, `*=`, `/=`) maps the receiver's old
  value to its new value. The functions of `Vectors` take the argument by
  value, as a value distinct from the receiver. The C++ operators take it by
  reference and re-read it before storing each component. So when the
  argument is the receiver or one of its components, a later store can see
  an earlier one. Module `Aliasing` models that case;
- the `std::invalid_argument("Vectors are not of the same shape.")` that a
  vector operator throws becomes `Err(NotSameShape)` in a
  `Result<Vector3, VectorError>`.

Modules:

- `Wrappers` (`wrappers.dfy`): `Result` and `Option`.
- `Arith` (`arith.dfy`): C++ integer division, which truncates toward zero.
- `Vectors` (`vectors.dfy`): the datatype, the constructors, `transpose`,
  `isrow`, the scalar and vector operators, dot product and `==`. It also
  holds two reference definitions used as partners: `CrossComponent`, the
  right-handed cross product with indices taken modulo 3, and `Inner`, a sum
  of componentwise products.
- `VectorAlgebra` (`vector_algebra.dfy`): the algebraic and orientation
  properties.
- `Aliasing` (`aliasing.dfy`): the in-place scalar operators as a sequence of
  three stores. Each store re-reads the argument, which may be one of the
  receiver's own components (`v += v.x`). It also covers the vector
  operators with the receiver as their argument (`v += v`).
- `Render` (`render.dfy`): the stream rendering `[x y z]`, with a trailing
  `'` on column vectors. A parser for that format serves as the partner, and
  the round-trip lemma shows that the rendering loses nothing.

The source has one orientation quirk, and the model keeps it. Every
out-of-place operator (`+`, `-`, `*` with a scalar or a vector) builds its
result with the three-argument constructor, and that constructor always sets
`row = false`. So the result is a column vector even when both operands are
row vectors. In-place operators never touch the flag. As a consequence,
`(v + w) - w` throws for row vectors `v` and `w`, while `v += w; v -= w`
restores `v` (see `RowSumThenDifferenceThrows` and `AddSubInPlaceRoundTrip`).
In the same way, `a & (a * b)` throws for a row vector `a`
(`DotWithRowCrossThrows`).

`transpose` leaves its receiver unchanged. In this model that is automatic,
because vectors are values.

## Model

| member | source | states |
|---|---|---|
| Vectors.Zero | vectors.hpp:26-32 | the default vector has all components 0 and is a column vector |
| Vectors.Uniform | vectors.hpp:33-39 | the one-value constructor sets every component to that value and makes a column vector |
| Vectors.Make | vectors.hpp:40-46 | the three-argument constructor stores x, y, z in order and always makes a column vector |
| Vectors.Transpose | vectors.hpp:62-67 | transposition keeps every component and inverts the orientation |
| VectorAlgebra.TransposeInvolutive | vectors.hpp:62-67 | transposing twice gives back the original vector, flag included |
| VectorAlgebra.TransposeChangesEquality | vectors.hpp:62-67 | a vector is never `==` to its transpose |
| Vectors.AssignScalar | vectors.hpp:85-91 | `v = val` makes every component `val` and keeps the receiver's orientation |
| Vectors.AddScalarInPlace | vectors.hpp:92-98 | `v += val` adds `val` to each component and keeps the orientation |
| Vectors.SubScalarInPlace | vectors.hpp:99-105 | `v -= val` subtracts `val` from each component and keeps the orientation |
| Vectors.MulScalarInPlace | vectors.hpp:106-112 | `v *= val` multiplies each component by `val` and keeps the orientation |
| Vectors.DivScalarInPlace | vectors.hpp:113-119 | `v /= val` divides each component with C++ truncation: the remainder is smaller than `val` and the quotient does not overshoot; the orientation is kept |
| Vectors.AddScalar | vectors.hpp:121-125 | `v + val` adds `val` to each component and yields a column vector |
| Vectors.SubScalar | vectors.hpp:126-130 | `v - val` subtracts `val` from each component and yields a column vector |
| Vectors.MulScalar | vectors.hpp:131-135 | `v * val` scales each component and yields a column vector |
| Vectors.DivScalar | vectors.hpp:136-140 | `v / val` divides each component with truncation toward zero and yields a column vector |
| Arith.TruncDiv | vectors.hpp:116-118 | integer `/` truncates toward zero: the remainder is below the divisor in magnitude, has the dividend's sign, and the quotient times the divisor does not exceed the dividend in magnitude |
| Arith.TruncDivOfProduct | vectors.hpp:136-140 | dividing a multiple of `val` by `val` is exact |
| VectorAlgebra.AssignScalarIsUniform | vectors.hpp:85-91 | `v = val` equals the uniform vector `Vector3(val)` in the receiver's orientation |
| VectorAlgebra.ScalarInPlaceMatchesOutOfPlace | vectors.hpp:92-140 | each in-place scalar operator computes the same components as its out-of-place form and differs only in keeping the receiver's orientation |
| VectorAlgebra.AddSubScalarInPlaceRoundTrip | vectors.hpp:92-105 | `v += val` then `v -= val` restores `v` |
| VectorAlgebra.MulDivScalarInPlaceRoundTrip | vectors.hpp:106-119 | `v *= val` then `v /= val` restores `v` for non-zero `val` |
| VectorAlgebra.MulDivScalarRoundTrip | vectors.hpp:131-140 | `(v * val) / val` has `v`'s components but is a column vector |
| Vectors.AddInPlace | vectors.hpp:142-150 | `v += w` throws exactly when the orientations differ; otherwise it adds componentwise and keeps the receiver's orientation |
| Vectors.SubInPlace | vectors.hpp:151-159 | `v -= w` throws exactly when the orientations differ; otherwise it subtracts componentwise and keeps the receiver's orientation |
| Vectors.CrossInPlace | vectors.hpp:160-172 | `v *= w` throws exactly when the orientations differ; otherwise every component is the right-handed cross product component and the orientation is kept |
| Vectors.Add | vectors.hpp:174-180 | `v + w` throws exactly when the orientations differ; otherwise it adds componentwise and yields a column vector |
| Vectors.Sub | vectors.hpp:181-187 | `v - w` throws exactly when the orientations differ; otherwise it subtracts componentwise and yields a column vector |
| Vectors.Cross | vectors.hpp:188-198 | `v * w` throws exactly when the orientations differ; otherwise it yields the right-handed cross product as a column vector |
| VectorAlgebra.VectorInPlaceMatchesOutOfPlace | vectors.hpp:142-198 | `+=`, `-=` and `*=` fail on the same inputs as `+`, `-` and `*` and compute the same components; only the result's orientation differs |
| VectorAlgebra.AddSubInPlaceRoundTrip | vectors.hpp:142-159 | for equal orientations, `v += w` then `v -= w` restores `v` |
| VectorAlgebra.RowSumThenDifferenceThrows | vectors.hpp:174-187 | for two row vectors `v + w` succeeds, but `(v + w) - w` throws because the sum is a column vector |
| VectorAlgebra.ColumnSumThenDifference | vectors.hpp:174-187 | for two column vectors, `(v + w) - w` gives back `v` |
| VectorAlgebra.AddCommutative | vectors.hpp:174-180 | `v + w` and `w + v` agree, error included |
| VectorAlgebra.CrossFormula | vectors.hpp:188-198 | `a * b` is the column vector (y·b.z − z·b.y, z·b.x − x·b.z, x·b.y − y·b.x) |
| VectorAlgebra.CrossSelfIsZero | vectors.hpp:188-198 | `a * a` is the zero vector |
| VectorAlgebra.CrossAntiCommutative | vectors.hpp:188-198 | `a * b` is `(b * a) * -1` |
| VectorAlgebra.CrossOrthogonal | vectors.hpp:188-198 | the cross product's inner product with each operand is zero |
| VectorAlgebra.DotWithRowCrossThrows | vectors.hpp:188-206 | for row vectors, `a & (a * b)` throws because the cross product is a column vector |
| Vectors.InnerExpanded | vectors.hpp:204 | the reference sum of componentwise products is x·b.x + y·b.y + z·b.z |
| Vectors.Dot | vectors.hpp:199-206 | `v & w` throws exactly when the orientations differ; otherwise it returns the sum of componentwise products |
| VectorAlgebra.DotCommutative | vectors.hpp:199-206 | `a & b` and `b & a` agree, error included |
| VectorAlgebra.DotSelf | vectors.hpp:199-206 | `a & a` never throws, is never negative, and is zero exactly for the zero vector |
| Vectors.Equals | vectors.hpp:207-211 | `v == w` holds exactly when all three components and the orientations agree; it never throws |
| VectorAlgebra.EqualsIsValueEquality | vectors.hpp:207-211 | `==` coincides with equality of vectors, so it is reflexive and symmetric |
| Render.NatToString | vectors.hpp:221 | a non-negative component is written as decimal digits with no leading zero |
| Render.IntToString | vectors.hpp:221 | a component is written with numeral characters and starts with `-` exactly when negative |
| Render.RenderVector | vectors.hpp:218-225 | the rendering starts with `[` and ends with `]'` for a column vector and `]` for a row vector |
| Render.ParseNatToString | vectors.hpp:221 | reading back the digits of a non-negative component gives that component |
| Render.ParseIntToString | vectors.hpp:221 | reading back a rendered component gives that component |
| Render.ParseRenderRoundTrip | vectors.hpp:218-225 | parsing a vector's rendering gives back the vector, orientation included |
| Render.RenderInjective | vectors.hpp:218-225 | two vectors render identically exactly when they are equal |
| Aliasing.Store | vectors.hpp:95-97 | storing one component changes only that component and keeps the orientation |
| Aliasing.InPlaceScalar | vectors.hpp:85-119 | `v op= arg` stores x, y, z in turn and keeps the orientation. A by-value argument acts on every component alike. With `arg` one of the receiver's components, the components up to and including it use its old value, and the later ones use its new value. `v /= v.c` sets that component to 1 |
| Aliasing.InPlaceScalarByValue | vectors.hpp:85-119 | with a by-value argument, the store sequence is `AssignScalar`, `AddScalarInPlace`, `SubScalarInPlace`, `MulScalarInPlace` or `DivScalarInPlace` |
| Aliasing.AssignOwnComponentIsByValue | vectors.hpp:85-91 | `v = v.c` gives the same result as assigning the value of that component |
| Aliasing.LastComponentIsByValue | vectors.hpp:92-119 | `v op= v.z` gives the same result as the by-value operator with the original z, because z is stored last |
| Aliasing.AddOwnFirstComponent | vectors.hpp:92-98 | `v += v.x` on (1,1,1) gives (2,3,3), where `v += 1` gives (2,2,2) |
| Aliasing.DivOwnFirstComponent | vectors.hpp:113-119 | `v /= v.x` on (2,4,6) gives (1,4,6), where `v /= 2` gives (1,2,3) |
| Aliasing.AddSubOwnComponentLosesRoundTrip | vectors.hpp:92-105 | `v += v.x; v -= v.x` on (1,1,1) ends at (0,3,3) |
| Aliasing.MulDivOwnComponentLosesRoundTrip | vectors.hpp:106-119 | `v *= v.x; v /= v.x` on (2,1,1) passes through (4,4,4) and ends at (1,4,4) |
| Aliasing.VectorInPlaceSelfAlias | vectors.hpp:142-172 | `v += v` doubles `v`, while `v -= v` and `v *= v` give zero, and all three keep the orientation |
| Aliasing.AddSubSelfIsZero | vectors.hpp:142-159 | `v += v; v -= v` gives zero, not `v` |

## Left out

- `norm` and `normalize` (vectors.hpp:57-60, 69-77) are left out. They use `sqrt` and `double`, and floating point is not modelled.
- Mixed element types (`Vector3<T>` op `U`) and the C-style `(T)val` casts are left out. One integer element type is modelled, without C++ conversion, truncation to a fixed width, or overflow.
- `Vectors.Dot`: it returns an unbounded integer. The source converts the sum to `double`, and that conversion is not modelled.
- The copy constructor (vectors.hpp:47-53) has no member of its own. It copies every field, which is value semantics, and so is the identity in this model.
- `isrow` is the field `row`, through `Vectors.IsRow`. It has no contract and no row in the table.
- The `std::ostream` plumbing is left out. Rendering is a pure function that produces the text the stream receives.
- Scalar divided by vector and `^` appear in test.cpp but are not defined in `vectors.hpp`, so they are not modelled. `Matrix33`, determinant, inversion and quaternion conversion are left out for the same reason: no source for them is part of this model.
- The `Test` and `Test2` classes in main.cpp are left out. They are scratch code and unrelated to `Vector3`.
- `Vectors.DivScalar`, `Vectors.DivScalarInPlace`: the divisor must be non-zero. Integer division by zero is undefined behaviour in C++, so the model does not give it a meaning.
- AddScalarInPlace: takes its argument by value. `v += v.x` re-reads the updated x in C++; that case is modelled by `Aliasing.InPlaceScalar`.
- SubScalarInPlace: takes its argument by value. `v -= v.x` re-reads the updated x in C++; that case is modelled by `Aliasing.InPlaceScalar`.
- MulScalarInPlace: takes its argument by value. `v *= v.x` re-reads the updated x in C++; that case is modelled by `Aliasing.InPlaceScalar`.
- DivScalarInPlace: takes its argument by value. `v /= v.x` re-reads the updated x in C++; that case is modelled by `Aliasing.InPlaceScalar`.
- ScalarInPlaceMatchesOutOfPlace: holds for an argument distinct from the receiver. It fails for `v += v.x`, because the in-place form re-reads the updated x (`Aliasing.AddOwnFirstComponent`).
- AddSubScalarInPlaceRoundTrip: holds for an argument distinct from the receiver. With `v.x` as the argument, the round trip fails (`Aliasing.AddSubOwnComponentLosesRoundTrip`).
- MulDivScalarInPlaceRoundTrip: holds for an argument distinct from the receiver. With `v.x` as the argument, the round trip fails (`Aliasing.MulDivOwnComponentLosesRoundTrip`).
- AddSubInPlaceRoundTrip: holds when `w` is not the receiver itself. `v += v; v -= v` gives zero (`Aliasing.AddSubSelfIsZero`).
