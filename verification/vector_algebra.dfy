/** Algebraic and orientation properties of `Vectors`: how the operations
    relate to each other, to their inverses and to the reference
    definitions `CrossComponent` and `Inner`. */
module VectorAlgebra {
  import opened Wrappers
  import opened Vectors

  // Transposition

  /** Transposing twice gives back the vector, orientation included. */
  lemma TransposeInvolutive(v: Vector3)
    ensures Transpose(Transpose(v)) == v
  {
  }

  /** Transposition always changes the vector as `==` sees it. */
  lemma TransposeChangesEquality(v: Vector3)
    ensures !Equals(v, Transpose(v))
  {
  }

  // Equality

  /** `==` coincides with equality of values, so it is an equivalence. */
  lemma EqualsIsValueEquality(a: Vector3, b: Vector3)
    ensures Equals(a, b) <==> a == b
    ensures Equals(a, a)
    ensures Equals(a, b) == Equals(b, a)
  {
  }

  // In-place against out-of-place

  /** The in-place scalar operators compute the same components as the
      out-of-place ones; only the orientation of the result differs. */
  lemma ScalarInPlaceMatchesOutOfPlace(v: Vector3, val: int)
    ensures AddScalarInPlace(v, val) == AddScalar(v, val).(row := v.row)
    ensures SubScalarInPlace(v, val) == SubScalar(v, val).(row := v.row)
    ensures MulScalarInPlace(v, val) == MulScalar(v, val).(row := v.row)
    ensures val != 0 ==> DivScalarInPlace(v, val) == DivScalar(v, val).(row := v.row)
  {
  }

  /** `v += w`, `v -= w` and `v *= w` compute the same components as
      `v + w`, `v - w` and `v * w`, fail on the same inputs, and keep the
      receiver's orientation where the out-of-place forms yield a column. */
  lemma VectorInPlaceMatchesOutOfPlace(v: Vector3, w: Vector3)
    ensures AddInPlace(v, w).Ok? == Add(v, w).Ok?
    ensures SubInPlace(v, w).Ok? == Sub(v, w).Ok?
    ensures CrossInPlace(v, w).Ok? == Cross(v, w).Ok?
    ensures Add(v, w).Ok? ==> AddInPlace(v, w).value == Add(v, w).value.(row := v.row)
    ensures Sub(v, w).Ok? ==> SubInPlace(v, w).value == Sub(v, w).value.(row := v.row)
    ensures Cross(v, w).Ok? ==> CrossInPlace(v, w).value == Cross(v, w).value.(row := v.row)
  {
  }

  // Inverses

  /** `v += val` followed by `v -= val` restores `v`. */
  lemma AddSubScalarInPlaceRoundTrip(v: Vector3, val: int)
    ensures SubScalarInPlace(AddScalarInPlace(v, val), val) == v
  {
  }

  /** `v *= val` followed by `v /= val` restores `v`: truncating division
      is exact on multiples. */
  lemma MulDivScalarInPlaceRoundTrip(v: Vector3, val: int)
    requires val != 0
    ensures DivScalarInPlace(MulScalarInPlace(v, val), val) == v
  {
    Arith.TruncDivOfProduct(v.x, val);
    Arith.TruncDivOfProduct(v.y, val);
    Arith.TruncDivOfProduct(v.z, val);
  }

  /** `(v * val) / val` has the components of `v` but is a column vector. */
  lemma MulDivScalarRoundTrip(v: Vector3, val: int)
    requires val != 0
    ensures DivScalar(MulScalar(v, val), val) == v.(row := false)
  {
    Arith.TruncDivOfProduct(v.x, val);
    Arith.TruncDivOfProduct(v.y, val);
    Arith.TruncDivOfProduct(v.z, val);
  }

  /** `v = val` gives the uniform vector in the receiver's orientation. */
  lemma AssignScalarIsUniform(v: Vector3, val: int)
    ensures AssignScalar(v, val) == Uniform(val).(row := v.row)
  {
  }

  /** `v += w` followed by `v -= w` restores `v` whenever the shapes agree. */
  lemma AddSubInPlaceRoundTrip(v: Vector3, w: Vector3)
    requires v.row == w.row
    ensures AddInPlace(v, w).Ok?
    ensures SubInPlace(AddInPlace(v, w).value, w) == Ok(v)
  {
  }

  /** The out-of-place forms lose a row orientation: `(v + w) - w` throws
      when both operands are row vectors, because `v + w` is a column. */
  lemma RowSumThenDifferenceThrows(v: Vector3, w: Vector3)
    requires v.row && w.row
    ensures Add(v, w).Ok?
    ensures Sub(Add(v, w).value, w) == Err(NotSameShape)
  {
  }

  /** For column vectors the out-of-place round trip succeeds. */
  lemma ColumnSumThenDifference(v: Vector3, w: Vector3)
    requires !v.row && !w.row
    ensures Add(v, w).Ok?
    ensures Sub(Add(v, w).value, w) == Ok(v)
  {
  }

  /** Vector addition is commutative, errors included. */
  lemma AddCommutative(v: Vector3, w: Vector3)
    ensures Add(v, w) == Add(w, v)
  {
  }

  // Cross product

  /** The cross product written out with named components. */
  lemma CrossFormula(a: Vector3, b: Vector3)
    requires a.row == b.row
    ensures Cross(a, b) == Ok(Make(a.y * b.z - a.z * b.y, a.z * b.x - a.x * b.z, a.x * b.y - a.y * b.x))
  {
  }

  /** `a * a` is the zero vector. */
  lemma CrossSelfIsZero(a: Vector3)
    ensures Cross(a, a) == Ok(Zero())
  {
  }

  /** `a * b` is `(b * a) * -1`, component by component. */
  lemma CrossAntiCommutative(a: Vector3, b: Vector3)
    requires a.row == b.row
    ensures Cross(a, b) == Ok(MulScalar(Cross(b, a).value, -1))
  {
    CrossFormula(a, b);
    CrossFormula(b, a);
    var d := Cross(b, a).value;
    assert MulScalar(d, -1) == Make(-d.x, -d.y, -d.z);
  }

  /** The cross product is orthogonal to both operands. */
  lemma CrossOrthogonal(a: Vector3, b: Vector3)
    requires a.row == b.row
    ensures Inner(a, Cross(a, b).value) == 0
    ensures Inner(b, Cross(a, b).value) == 0
  {
    var c := Cross(a, b).value;
    InnerExpanded(a, c);
    InnerExpanded(b, c);
    TripleProductVanishes(a.x, a.y, a.z, b.x, b.y, b.z);
    TripleProductVanishes(b.x, b.y, b.z, a.x, a.y, a.z);
  }

  /** The scalar triple product u · (u × w) is zero, written on components. */
  lemma TripleProductVanishes(ux: int, uy: int, uz: int, wx: int, wy: int, wz: int)
    ensures ux * (uy * wz - uz * wy) + uy * (uz * wx - ux * wz) + uz * (ux * wy - uy * wx) == 0
  {
    assert ux * (uy * wz - uz * wy) == ux * uy * wz - ux * uz * wy;
    assert uy * (uz * wx - ux * wz) == uy * uz * wx - ux * uy * wz;
    assert uz * (ux * wy - uy * wx) == ux * uz * wy - uy * uz * wx;
  }

  /** Because `a * b` is a column vector, `a & (a * b)` throws for a row
      vector `a` although the inner product is zero. */
  lemma DotWithRowCrossThrows(a: Vector3, b: Vector3)
    requires a.row && b.row
    ensures Cross(a, b).Ok?
    ensures Dot(a, Cross(a, b).value) == Err(NotSameShape)
  {
  }

  // Dot product

  /** `a & b` and `b & a` agree: both throw or both return the same value. */
  lemma DotCommutative(a: Vector3, b: Vector3)
    ensures Dot(a, b) == Dot(b, a)
  {
  }

  /** `a & a` never throws, is never negative, and is zero exactly for the
      zero vector. */
  lemma DotSelf(a: Vector3)
    ensures Dot(a, a).Ok?
    ensures Dot(a, a).value >= 0
    ensures Dot(a, a).value == 0 <==> SameComponents(a, Zero())
  {
    InnerExpanded(a, a);
    SquareNonNegative(a.x);
    SquareNonNegative(a.y);
    SquareNonNegative(a.z);
    if SameComponents(a, Zero()) {
      assert Component(a, 0) == 0 && Component(a, 1) == 0 && Component(a, 2) == 0;
    } else {
      if a.x != 0 { SquarePositive(a.x); }
      else if a.y != 0 { SquarePositive(a.y); }
      else {
        assert Component(a, 2) != 0;
        SquarePositive(a.z);
      }
    }
  }

  lemma SquareNonNegative(n: int)
    ensures n * n >= 0
  {
  }

  lemma SquarePositive(n: int)
    requires n != 0
    ensures n * n > 0
  {
  }
}
