/** The value type `vec::Vector3<T>` with an integer element type: three
    components and an orientation flag, `row` (true for a row vector, false
    for a column vector). The C++ operators that need equal orientation
    throw `std::invalid_argument`; here they return `Err`. In-place
    operators are functions from the receiver's old value to its new value,
    with the argument passed by value; module `Aliasing` covers an argument
    that is one of the receiver's own components. */
module Vectors {
  import opened Wrappers
  import opened Arith

  datatype Vector3 = Vector3(x: int, y: int, z: int, row: bool)

  /** The exception a shape check throws. */
  datatype VectorError = InvalidArgument(message: string)

  const NotSameShape := InvalidArgument("Vectors are not of the same shape.")

  /** Component `i` of `v`, counting x, y, z from 0. */
  function Component(v: Vector3, i: nat): int
    requires i < 3
  {
    if i == 0 then v.x else if i == 1 then v.y else v.z
  }

  /** `a` and `b` agree in every component. */
  ghost predicate SameComponents(a: Vector3, b: Vector3) {
    forall i :: 0 <= i < 3 ==> Component(a, i) == Component(b, i)
  }

  // Constructors

  /** `Vector3()`: the zero column vector. */
  function Zero(): (r: Vector3)
    ensures forall i :: 0 <= i < 3 ==> Component(r, i) == 0
    ensures !r.row
  {
    Vector3(0, 0, 0, false)
  }

  /** `Vector3(const T xyz)`: every component `xyz`, column orientation. */
  function Uniform(xyz: int): (r: Vector3)
    ensures forall i :: 0 <= i < 3 ==> Component(r, i) == xyz
    ensures !r.row
  {
    Vector3(xyz, xyz, xyz, false)
  }

  /** `Vector3(T x, T y, T z)`: the given components, column orientation.
      Every out-of-place operator builds its result through this. */
  function Make(x: int, y: int, z: int): (r: Vector3)
    ensures Component(r, 0) == x && Component(r, 1) == y && Component(r, 2) == z
    ensures !r.row
  {
    Vector3(x, y, z, false)
  }

  // Self operations

  /** `transpose()`: same components, the opposite orientation. */
  function Transpose(v: Vector3): (r: Vector3)
    ensures SameComponents(r, v)
    ensures r.row == !v.row
  {
    var tmp := Make(v.x, v.y, v.z);
    tmp.(row := !v.row)
  }

  /** `isrow()`. */
  function IsRow(v: Vector3): bool {
    v.row
  }

  // In-place scalar operations: the receiver keeps its orientation.

  /** `v = val`: every component becomes `val`. */
  function AssignScalar(v: Vector3, val: int): (r: Vector3)
    ensures forall i :: 0 <= i < 3 ==> Component(r, i) == val
    ensures r.row == v.row
  {
    v.(x := val, y := val, z := val)
  }

  /** `v += val`. */
  function AddScalarInPlace(v: Vector3, val: int): (r: Vector3)
    ensures forall i :: 0 <= i < 3 ==> Component(r, i) == Component(v, i) + val
    ensures r.row == v.row
  {
    v.(x := v.x + val, y := v.y + val, z := v.z + val)
  }

  /** `v -= val`. */
  function SubScalarInPlace(v: Vector3, val: int): (r: Vector3)
    ensures forall i :: 0 <= i < 3 ==> Component(r, i) == Component(v, i) - val
    ensures r.row == v.row
  {
    v.(x := v.x - val, y := v.y - val, z := v.z - val)
  }

  /** `v *= val`. */
  function MulScalarInPlace(v: Vector3, val: int): (r: Vector3)
    ensures forall i :: 0 <= i < 3 ==> Component(r, i) == Component(v, i) * val
    ensures r.row == v.row
  {
    v.(x := v.x * val, y := v.y * val, z := v.z * val)
  }

  /** `v /= val`: C++ integer division truncates toward zero. */
  function DivScalarInPlace(v: Vector3, val: int): (r: Vector3)
    requires val != 0
    ensures forall i :: 0 <= i < 3 ==> Abs(Component(v, i) - Component(r, i) * val) < Abs(val)
    ensures forall i :: 0 <= i < 3 ==> Abs(Component(r, i) * val) <= Abs(Component(v, i))
    ensures r.row == v.row
  {
    v.(x := TruncDiv(v.x, val), y := TruncDiv(v.y, val), z := TruncDiv(v.z, val))
  }

  // Out-of-place scalar operations: the result is always a column vector.

  /** `v + val`. */
  function AddScalar(v: Vector3, val: int): (r: Vector3)
    ensures forall i :: 0 <= i < 3 ==> Component(r, i) == Component(v, i) + val
    ensures !r.row
  {
    Make(v.x + val, v.y + val, v.z + val)
  }

  /** `v - val`. */
  function SubScalar(v: Vector3, val: int): (r: Vector3)
    ensures forall i :: 0 <= i < 3 ==> Component(r, i) == Component(v, i) - val
    ensures !r.row
  {
    Make(v.x - val, v.y - val, v.z - val)
  }

  /** `v * val`. */
  function MulScalar(v: Vector3, val: int): (r: Vector3)
    ensures forall i :: 0 <= i < 3 ==> Component(r, i) == Component(v, i) * val
    ensures !r.row
  {
    Make(v.x * val, v.y * val, v.z * val)
  }

  /** `v / val`, truncating toward zero. */
  function DivScalar(v: Vector3, val: int): (r: Vector3)
    requires val != 0
    ensures forall i :: 0 <= i < 3 ==> Abs(Component(v, i) - Component(r, i) * val) < Abs(val)
    ensures forall i :: 0 <= i < 3 ==> Abs(Component(r, i) * val) <= Abs(Component(v, i))
    ensures !r.row
  {
    Make(TruncDiv(v.x, val), TruncDiv(v.y, val), TruncDiv(v.z, val))
  }

  // Vector operations. Each throws unless both operands have the same
  // orientation.

  /** The standard right-handed cross product, component `i`, written with
      indices modulo 3: an independent reference for `Cross`. */
  function CrossComponent(a: Vector3, b: Vector3, i: nat): int
    requires i < 3
  {
    Component(a, (i + 1) % 3) * Component(b, (i + 2) % 3)
      - Component(a, (i + 2) % 3) * Component(b, (i + 1) % 3)
  }

  /** `v += w`. */
  function AddInPlace(v: Vector3, w: Vector3): (r: Result<Vector3, VectorError>)
    ensures r.Err? <==> v.row != w.row
    ensures r.Err? ==> r.error == NotSameShape
    ensures r.Ok? ==> r.value.row == v.row
    ensures r.Ok? ==> forall i :: 0 <= i < 3 ==> Component(r.value, i) == Component(v, i) + Component(w, i)
  {
    if v.row != w.row then Err(NotSameShape)
    else Ok(v.(x := v.x + w.x, y := v.y + w.y, z := v.z + w.z))
  }

  /** `v -= w`. */
  function SubInPlace(v: Vector3, w: Vector3): (r: Result<Vector3, VectorError>)
    ensures r.Err? <==> v.row != w.row
    ensures r.Err? ==> r.error == NotSameShape
    ensures r.Ok? ==> r.value.row == v.row
    ensures r.Ok? ==> forall i :: 0 <= i < 3 ==> Component(r.value, i) == Component(v, i) - Component(w, i)
  {
    if v.row != w.row then Err(NotSameShape)
    else Ok(v.(x := v.x - w.x, y := v.y - w.y, z := v.z - w.z))
  }

  /** `v *= w`: the cross product in place. The C++ operator computes the
      z component first, into temporaries, then stores all three. */
  function CrossInPlace(v: Vector3, w: Vector3): (r: Result<Vector3, VectorError>)
    ensures r.Err? <==> v.row != w.row
    ensures r.Err? ==> r.error == NotSameShape
    ensures r.Ok? ==> r.value.row == v.row
    ensures r.Ok? ==> forall i :: 0 <= i < 3 ==> Component(r.value, i) == CrossComponent(v, w, i)
  {
    if v.row != w.row then Err(NotSameShape)
    else
      var zz := v.x * w.y - v.y * w.x;
      var xx := v.y * w.z - v.z * w.y;
      var yy := v.z * w.x - v.x * w.z;
      Ok(v.(x := xx, y := yy, z := zz))
  }

  /** `v + w`: a column vector whatever the operands' orientation. */
  function Add(v: Vector3, w: Vector3): (r: Result<Vector3, VectorError>)
    ensures r.Err? <==> v.row != w.row
    ensures r.Err? ==> r.error == NotSameShape
    ensures r.Ok? ==> !r.value.row
    ensures r.Ok? ==> forall i :: 0 <= i < 3 ==> Component(r.value, i) == Component(v, i) + Component(w, i)
  {
    if v.row != w.row then Err(NotSameShape)
    else Ok(Make(v.x + w.x, v.y + w.y, v.z + w.z))
  }

  /** `v - w`: a column vector whatever the operands' orientation. */
  function Sub(v: Vector3, w: Vector3): (r: Result<Vector3, VectorError>)
    ensures r.Err? <==> v.row != w.row
    ensures r.Err? ==> r.error == NotSameShape
    ensures r.Ok? ==> !r.value.row
    ensures r.Ok? ==> forall i :: 0 <= i < 3 ==> Component(r.value, i) == Component(v, i) - Component(w, i)
  {
    if v.row != w.row then Err(NotSameShape)
    else Ok(Make(v.x - w.x, v.y - w.y, v.z - w.z))
  }

  /** `v * w`: the cross product, a column vector whatever the operands'
      orientation. */
  function Cross(v: Vector3, w: Vector3): (r: Result<Vector3, VectorError>)
    ensures r.Err? <==> v.row != w.row
    ensures r.Err? ==> r.error == NotSameShape
    ensures r.Ok? ==> !r.value.row
    ensures r.Ok? ==> forall i :: 0 <= i < 3 ==> Component(r.value, i) == CrossComponent(v, w, i)
  {
    if v.row != w.row then Err(NotSameShape)
    else
      var zz := v.x * w.y - v.y * w.x;
      var xx := v.y * w.z - v.z * w.y;
      var yy := v.z * w.x - v.x * w.z;
      Ok(Make(xx, yy, zz))
  }

  /** The sum of the first `n` componentwise products: an independent
      reference for `Dot`. */
  function SumOfProducts(a: Vector3, b: Vector3, n: nat): int
    requires n <= 3
  {
    if n == 0 then 0
    else SumOfProducts(a, b, n - 1) + Component(a, n - 1) * Component(b, n - 1)
  }

  /** The inner product of the components, orientation ignored. */
  function Inner(a: Vector3, b: Vector3): int {
    SumOfProducts(a, b, 3)
  }

  /** The reference sum, written out. */
  lemma InnerExpanded(a: Vector3, b: Vector3)
    ensures Inner(a, b) == a.x * b.x + a.y * b.y + a.z * b.z
  {
    calc {
      Inner(a, b);
      SumOfProducts(a, b, 2) + a.z * b.z;
      SumOfProducts(a, b, 1) + a.y * b.y + a.z * b.z;
      SumOfProducts(a, b, 0) + a.x * b.x + a.y * b.y + a.z * b.z;
    }
  }

  /** `v & w`: the dot product. */
  function Dot(v: Vector3, w: Vector3): (r: Result<int, VectorError>)
    ensures r.Err? <==> v.row != w.row
    ensures r.Err? ==> r.error == NotSameShape
    ensures r.Ok? ==> r.value == Inner(v, w)
  {
    if v.row != w.row then Err(NotSameShape)
    else
      InnerExpanded(v, w);
      Ok(v.x * w.x + v.y * w.y + v.z * w.z)
  }

  /** `v == w`: never throws; orientation takes part in the comparison. */
  function Equals(v: Vector3, w: Vector3): (r: bool)
    ensures r <==> SameComponents(v, w) && v.row == w.row
  {
    assert Component(v, 0) == v.x && Component(v, 1) == v.y && Component(v, 2) == v.z;
    assert Component(w, 0) == w.x && Component(w, 1) == w.y && Component(w, 2) == w.z;
    (v.x == w.x) && (v.y == w.y) && (v.z == w.z) && (v.row == IsRow(w))
  }
}
