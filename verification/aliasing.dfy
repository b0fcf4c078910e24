/** In-place operators whose argument aliases the receiver. The C++
    operators take their argument by reference and store x, then y, then z,
    re-reading the argument before each store. When the argument is one of
    the receiver's own components (`v += v.x`), a later store sees the
    updated value. `InPlaceScalar` models that sequence of stores; with an
    argument passed by value it coincides with the functions of `Vectors`. */
module Aliasing {
  import opened Wrappers
  import opened Arith
  import opened Vectors

  /** A component index: 0 for x, 1 for y, 2 for z. */
  type Axis = i: nat | i < 3

  /** The in-place scalar operators `=`, `+=`, `-=`, `*=` and `/=`. */
  datatype ScalarOp = AssignOp | AddOp | SubOp | MulOp | DivOp

  /** The argument of an in-place scalar operator: a value independent of
      the receiver, or a reference to one of the receiver's components. */
  datatype Arg = Value(n: int) | OwnComponent(k: Axis)

  /** One component store: the new value of component `c` for argument `val`. */
  function Apply(op: ScalarOp, c: int, val: int): int
    requires op.DivOp? ==> val != 0
  {
    match op
    case AssignOp => val
    case AddOp => c + val
    case SubOp => c - val
    case MulOp => c * val
    case DivOp => TruncDiv(c, val)
  }

  /** The argument's value as read from the receiver's current storage. */
  function Read(v: Vector3, arg: Arg): int {
    match arg
    case Value(n) => n
    case OwnComponent(k) => Component(v, k)
  }

  /** `v` with component `i` overwritten by `c`. */
  function Store(v: Vector3, i: Axis, c: int): (r: Vector3)
    ensures Component(r, i) == c
    ensures forall j :: 0 <= j < 3 && j != i ==> Component(r, j) == Component(v, j)
    ensures r.row == v.row
  {
    if i == 0 then v.(x := c) else if i == 1 then v.(y := c) else v.(z := c)
  }

  /** `v op= arg`, storing x, then y, then z, each time re-reading `arg`.
      Components up to and including the referenced one see its original
      value; those stored after it see its new value. */
  function InPlaceScalar(op: ScalarOp, v: Vector3, arg: Arg): (r: Vector3)
    requires op.DivOp? ==> Read(v, arg) != 0
    ensures r.row == v.row
    ensures op.DivOp? && arg.OwnComponent? ==> Component(r, arg.k) == 1
    ensures arg.Value? ==>
      forall j :: 0 <= j < 3 ==> Component(r, j) == Apply(op, Component(v, j), arg.n)
    ensures arg.OwnComponent? ==>
      forall j :: 0 <= j <= arg.k ==> Component(r, j) == Apply(op, Component(v, j), Component(v, arg.k))
    ensures arg.OwnComponent? ==>
      forall j :: arg.k < j < 3 ==> Component(r, j) == Apply(op, Component(v, j), Component(r, arg.k))
  {
    DividedByItself(Read(v, arg));
    var v1 := Store(v, 0, Apply(op, v.x, Read(v, arg)));
    var v2 := Store(v1, 1, Apply(op, v1.y, Read(v1, arg)));
    Store(v2, 2, Apply(op, v2.z, Read(v2, arg)))
  }

  /** A non-zero value divided by itself is one. */
  lemma TruncDivSelf(a: int)
    requires a != 0
    ensures TruncDiv(a, a) == 1
  {
    assert 1 * a == a;
    TruncDivOfProduct(1, a);
  }

  lemma DividedByItself(a: int)
    ensures a != 0 ==> TruncDiv(a, a) == 1
  {
    if a != 0 { TruncDivSelf(a); }
  }

  /** With an argument passed by value, the store sequence is the operator
      as `Vectors` models it. */
  lemma InPlaceScalarByValue(op: ScalarOp, v: Vector3, n: int)
    requires op.DivOp? ==> n != 0
    ensures op.AssignOp? ==> InPlaceScalar(op, v, Value(n)) == AssignScalar(v, n)
    ensures op.AddOp? ==> InPlaceScalar(op, v, Value(n)) == AddScalarInPlace(v, n)
    ensures op.SubOp? ==> InPlaceScalar(op, v, Value(n)) == SubScalarInPlace(v, n)
    ensures op.MulOp? ==> InPlaceScalar(op, v, Value(n)) == MulScalarInPlace(v, n)
    ensures op.DivOp? ==> InPlaceScalar(op, v, Value(n)) == DivScalarInPlace(v, n)
  {
  }

  /** `v = v.c` is aliasing-safe: every store writes the original value. */
  lemma AssignOwnComponentIsByValue(v: Vector3, k: Axis)
    ensures InPlaceScalar(AssignOp, v, OwnComponent(k)) == AssignScalar(v, Component(v, k))
  {
  }

  /** z is stored last, so `v op= v.z` reads the original z throughout. */
  lemma LastComponentIsByValue(op: ScalarOp, v: Vector3)
    requires op.DivOp? ==> v.z != 0
    ensures InPlaceScalar(op, v, OwnComponent(2)) == InPlaceScalar(op, v, Value(v.z))
  {
  }

  /** `v += v.x` on (1,1,1) gives (2,3,3), not the (2,2,2) of `v += 1`. */
  lemma AddOwnFirstComponent()
    ensures InPlaceScalar(AddOp, Vector3(1, 1, 1, false), OwnComponent(0)) == Vector3(2, 3, 3, false)
    ensures AddScalarInPlace(Vector3(1, 1, 1, false), 1) == Vector3(2, 2, 2, false)
  {
  }

  /** `v /= v.x` on (2,4,6) gives (1,4,6), not the (1,2,3) of `v /= 2`. */
  lemma DivOwnFirstComponent()
    ensures InPlaceScalar(DivOp, Vector3(2, 4, 6, false), OwnComponent(0)) == Vector3(1, 4, 6, false)
    ensures DivScalarInPlace(Vector3(2, 4, 6, false), 2) == Vector3(1, 2, 3, false)
  {
    TruncDivSelf(2);
    assert TruncDiv(4, 1) == 4 && TruncDiv(6, 1) == 6 by {
      TruncDivOfProduct(4, 1);
      TruncDivOfProduct(6, 1);
    }
    assert TruncDiv(4, 2) == 2 && TruncDiv(6, 2) == 3 by {
      TruncDivOfProduct(2, 2);
      TruncDivOfProduct(3, 2);
    }
  }

  /** `v += v.x; v -= v.x` on (1,1,1) ends at (0,3,3): the by-value round
      trip `AddSubScalarInPlaceRoundTrip` does not survive aliasing. */
  lemma AddSubOwnComponentLosesRoundTrip()
    ensures InPlaceScalar(SubOp, InPlaceScalar(AddOp, Vector3(1, 1, 1, false), OwnComponent(0)), OwnComponent(0))
      == Vector3(0, 3, 3, false)
  {
  }

  /** `v *= v.x; v /= v.x` on (2,1,1) ends at (1,4,4): the by-value round
      trip `MulDivScalarInPlaceRoundTrip` does not survive aliasing. */
  lemma MulDivOwnComponentLosesRoundTrip()
    ensures InPlaceScalar(MulOp, Vector3(2, 1, 1, false), OwnComponent(0)) == Vector3(4, 4, 4, false)
    ensures InPlaceScalar(DivOp, Vector3(4, 4, 4, false), OwnComponent(0)) == Vector3(1, 4, 4, false)
  {
    TruncDivSelf(4);
    assert TruncDiv(4, 1) == 4 by { TruncDivOfProduct(4, 1); }
  }

  /** The vector operators with the receiver as argument: each component
      reads its own counterpart before storing it, and `*=` computes into
      temporaries, so `v += v`, `v -= v` and `v *= v` are the by-value
      operators applied to `v` and `v`. */
  lemma VectorInPlaceSelfAlias(v: Vector3)
    ensures AddInPlace(v, v) == Ok(MulScalarInPlace(v, 2))
    ensures SubInPlace(v, v) == Ok(AssignScalar(v, 0))
    ensures CrossInPlace(v, v) == Ok(AssignScalar(v, 0))
  {
  }

  /** `v += v; v -= v`: the second operator sees the doubled receiver as
      its argument, so the result is zero rather than `v`. */
  lemma AddSubSelfIsZero(v: Vector3)
    ensures AddInPlace(v, v).Ok?
    ensures SubInPlace(AddInPlace(v, v).value, AddInPlace(v, v).value) == Ok(AssignScalar(v, 0))
  {
  }
}
