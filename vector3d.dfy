/** `Vector3D`: a three-component vector of `float`, modelled over `real`.
    It is a value held by value inside other structs, so the operators that
    change a vector in place are functions from the old target to the new one. */
module Vector3Ds {
  import opened Wrappers

  datatype Vector3D = Vector3D(x: real, y: real, z: real)

  const ZERO := Vector3D(0.0, 0.0, 0.0)
  const OUT_OF_RANGE := "Vector3 indexing out of range"

  /** `operator[]` for reading: components 0, 1, 2; any other index throws. */
  function Index(v: Vector3D, i: int): (r: Result<real, string>)
    ensures r.Failure? <==> i < 0 || i > 2
    ensures r.Failure? ==> r.error == OUT_OF_RANGE
    ensures i == 0 ==> r == Success(v.x)
    ensures i == 1 ==> r == Success(v.y)
    ensures i == 2 ==> r == Success(v.z)
  {
    if i < 0 || i > 2 then Failure(OUT_OF_RANGE)
    else if i == 0 then Success(v.x)
    else if i == 1 then Success(v.y)
    else Success(v.z)
  }

  /** A write through the reference `operator[]` returns. */
  function SetIndex(v: Vector3D, i: int, value: real): (r: Result<Vector3D, string>)
    ensures r.Failure? <==> i < 0 || i > 2
    ensures r.Failure? ==> r.error == OUT_OF_RANGE
  {
    if i < 0 || i > 2 then Failure(OUT_OF_RANGE)
    else if i == 0 then Success(v.(x := value))
    else if i == 1 then Success(v.(y := value))
    else Success(v.(z := value))
  }

  /** Writing a component and reading it back gives the value written; the
      other two components keep theirs. */
  lemma SetThenIndex(v: Vector3D, i: int, value: real, j: int)
    requires 0 <= i <= 2 && 0 <= j <= 2
    ensures SetIndex(v, i, value).Success?
    ensures Index(SetIndex(v, i, value).value, j) == if j == i then Success(value) else Index(v, j)
  {
  }

  /** The copy constructor as written: `x` and `y` are copied and `z` is left
      uninitialised, stood for here by `indeterminate`. */
  function CopyAsWritten(rhs: Vector3D, indeterminate: real): (r: Vector3D)
    ensures r.x == rhs.x && r.y == rhs.y && r.z == indeterminate
  {
    Vector3D(rhs.x, rhs.y, indeterminate)
  }

  /** `operator=` as written: `x` and `y` come from `rhs`, the target keeps its `z`. */
  function AssignAsWritten(target: Vector3D, rhs: Vector3D): (r: Vector3D)
    ensures r.x == rhs.x && r.y == rhs.y && r.z == target.z
  {
    target.(x := rhs.x, y := rhs.y)
  }

  /** Assigning as written yields the source vector only when the target
      already had its `z`. */
  lemma AssignAsWrittenCopiesOnlyMatchingZ(target: Vector3D, rhs: Vector3D)
    ensures AssignAsWritten(target, rhs) == rhs <==> target.z == rhs.z
  {
  }

  /** The counterexample: assigning (1, 2, 3) to the zero vector gives (1, 2, 0). */
  lemma AssignAsWrittenDropsZ()
    ensures AssignAsWritten(ZERO, Vector3D(1.0, 2.0, 3.0)) == Vector3D(1.0, 2.0, 0.0)
    ensures !Eq(AssignAsWritten(ZERO, Vector3D(1.0, 2.0, 3.0)), Vector3D(1.0, 2.0, 3.0))
  {
  }

  /** The intended copy and assignment: the target becomes an exact copy. */
  function Assign(target: Vector3D, rhs: Vector3D): (r: Vector3D)
    ensures Eq(r, rhs)
    ensures forall i :: Index(r, i) == Index(rhs, i)
  {
    rhs
  }

  /** Assignment is idempotent and forgets the target. */
  lemma AssignForgetsTarget(a: Vector3D, b: Vector3D, rhs: Vector3D)
    ensures Assign(a, rhs) == Assign(b, rhs)
    ensures Assign(Assign(a, rhs), rhs) == Assign(a, rhs)
  {
  }

  function Add(a: Vector3D, b: Vector3D): (r: Vector3D)
    ensures forall i :: 0 <= i <= 2 ==> Index(r, i).value == Index(a, i).value + Index(b, i).value
  {
    Vector3D(a.x + b.x, a.y + b.y, a.z + b.z)
  }

  function Sub(a: Vector3D, b: Vector3D): (r: Vector3D)
    ensures forall i :: 0 <= i <= 2 ==> Index(r, i).value == Index(a, i).value - Index(b, i).value
  {
    Vector3D(a.x - b.x, a.y - b.y, a.z - b.z)
  }

  /** Componentwise product. */
  function Mul(a: Vector3D, b: Vector3D): (r: Vector3D)
    ensures forall i :: 0 <= i <= 2 ==> Index(r, i).value == Index(a, i).value * Index(b, i).value
  {
    Vector3D(a.x * b.x, a.y * b.y, a.z * b.z)
  }

  /** `scalar * v`: the same vector as `v * scalar`, each component scaled. */
  function ScaleLeft(s: real, v: Vector3D): (r: Vector3D)
    ensures r == Mul(Vector3D(s, s, s), v)
  {
    Scale(v, s)
  }

  /** Componentwise quotient; a zero divisor component is outside the model. */
  function Div(a: Vector3D, b: Vector3D): (r: Vector3D)
    requires b.x != 0.0 && b.y != 0.0 && b.z != 0.0
    ensures Mul(r, b) == a
  {
    Vector3D(a.x / b.x, a.y / b.y, a.z / b.z)
  }

  function Scale(a: Vector3D, s: real): (r: Vector3D)
    ensures r == Mul(a, Vector3D(s, s, s))
  {
    Vector3D(a.x * s, a.y * s, a.z * s)
  }

  function DivScalar(a: Vector3D, s: real): (r: Vector3D)
    requires s != 0.0
    ensures Scale(r, s) == a
  {
    Vector3D(a.x / s, a.y / s, a.z / s)
  }

  /** Unary minus. */
  function Negate(a: Vector3D): (r: Vector3D)
    ensures Add(a, r) == ZERO
  {
    Vector3D(-a.x, -a.y, -a.z)
  }

  /** Subtraction undoes addition. */
  lemma SubUndoesAdd(a: Vector3D, b: Vector3D)
    ensures Sub(Add(a, b), b) == a
    ensures Add(Sub(a, b), b) == a
  {
  }

  /** The compound operators change all three components of the target. */
  function AddAssign(target: Vector3D, rhs: Vector3D): (r: Vector3D)
    ensures r == Add(target, rhs)
  {
    target.(x := target.x + rhs.x, y := target.y + rhs.y, z := target.z + rhs.z)
  }

  function SubAssign(target: Vector3D, rhs: Vector3D): (r: Vector3D)
    ensures r == Sub(target, rhs)
  {
    target.(x := target.x - rhs.x, y := target.y - rhs.y, z := target.z - rhs.z)
  }

  function MulAssign(target: Vector3D, rhs: Vector3D): (r: Vector3D)
    ensures r == Mul(target, rhs)
  {
    target.(x := target.x * rhs.x, y := target.y * rhs.y, z := target.z * rhs.z)
  }

  function DivAssign(target: Vector3D, rhs: Vector3D): (r: Vector3D)
    requires rhs.x != 0.0 && rhs.y != 0.0 && rhs.z != 0.0
    ensures r == Div(target, rhs)
  {
    target.(x := target.x / rhs.x, y := target.y / rhs.y, z := target.z / rhs.z)
  }

  function ScaleAssign(target: Vector3D, s: real): (r: Vector3D)
    ensures r == Scale(target, s)
  {
    target.(x := target.x * s, y := target.y * s, z := target.z * s)
  }

  function DivScalarAssign(target: Vector3D, s: real): (r: Vector3D)
    requires s != 0.0
    ensures r == DivScalar(target, s)
  {
    target.(x := target.x / s, y := target.y / s, z := target.z / s)
  }

  /** `==`: exact equality on all three components. */
  function Eq(a: Vector3D, b: Vector3D): (r: bool)
    ensures r <==> a == b
    ensures r <==> forall i :: Index(a, i) == Index(b, i)
  {
    assert !(a.x == b.x && a.y == b.y && a.z == b.z) ==> Index(a, 0) != Index(b, 0) || Index(a, 1) != Index(b, 1) || Index(a, 2) != Index(b, 2);
    a.x == b.x && a.y == b.y && a.z == b.z
  }

  /** `!=`: the negation of `==`. */
  function Neq(a: Vector3D, b: Vector3D): (r: bool)
    ensures r <==> a != b
  {
    !Eq(a, b)
  }

  /** `dot`: a vector's product with itself, its squared length, is never
      negative. */
  function Dot(a: Vector3D, b: Vector3D): (r: real)
    ensures a == b ==> r >= 0.0
  {
    a.x * b.x + a.y * b.y + a.z * b.z
  }

  /** `cross`: orthogonal to both factors, and zero for a vector with itself. */
  function Cross(a: Vector3D, b: Vector3D): (r: Vector3D)
    ensures Dot(a, r) == 0.0 && Dot(b, r) == 0.0
    ensures a == b ==> r == Vector3D(0.0, 0.0, 0.0)
  {
    var c := Vector3D(a.y * b.z - a.z * b.y, b.x * a.z - a.x * b.z, a.x * b.y - a.y * b.x);
    assert Dot(a, c) == 0.0 by {
      calc {
        Dot(a, c);
        a.x * (a.y * b.z - a.z * b.y) + a.y * (b.x * a.z - a.x * b.z) + a.z * (a.x * b.y - a.y * b.x);
        (a.x * a.y * b.z - a.y * a.x * b.z) + (a.y * b.x * a.z - a.z * a.y * b.x) + (a.z * a.x * b.y - a.x * a.z * b.y);
        0.0;
      }
    }
    assert Dot(b, c) == 0.0 by {
      calc {
        Dot(b, c);
        b.x * (a.y * b.z - a.z * b.y) + b.y * (b.x * a.z - a.x * b.z) + b.z * (a.x * b.y - a.y * b.x);
        (b.x * a.y * b.z - b.z * a.y * b.x) + (b.y * b.x * a.z - b.x * a.z * b.y) + (b.z * a.x * b.y - b.y * a.x * b.z);
        0.0;
      }
    }
    c
  }

  /** The dot product is symmetric and the cross product anti-symmetric. */
  lemma ProductSymmetries(a: Vector3D, b: Vector3D)
    ensures Dot(a, b) == Dot(b, a)
    ensures Cross(b, a) == Negate(Cross(a, b))
  {
  }

  /** `length_sq`: never negative, and zero for the zero vector. Over `float`
      a tiny non-zero vector can also underflow to zero, so nothing stronger
      is relied on below. */
  function LengthSq(a: Vector3D): (r: real)
    ensures r >= 0.0
    ensures a == ZERO ==> r == 0.0
  {
    SquareNonNegative(a.x);
    SquareNonNegative(a.y);
    SquareNonNegative(a.z);
    a.x * a.x + a.y * a.y + a.z * a.z
  }

  lemma SquareNonNegative(r: real)
    ensures r * r >= 0.0
  {
    if r < 0.0 {
      assert r * r == (-r) * (-r);
    }
  }

  /** `normalized`, given the value `length()` computes (the square root of
      `length_sq`, which is not part of this model): the vector divided by
      its length when that is positive, and the zero vector otherwise. */
  function Normalized(a: Vector3D, len: real): (r: Vector3D)
    ensures len > 0.0 ==> Scale(r, len) == a
    ensures len <= 0.0 ==> r == ZERO
  {
    if len > 0.0 then DivScalar(a, len) else ZERO
  }

  /** `normalize`, in place: divides by a positive length and otherwise
      leaves the target as it was. */
  function Normalize(target: Vector3D, len: real): (r: Vector3D)
    ensures len > 0.0 ==> Scale(r, len) == target
    ensures len <= 0.0 ==> r == target
  {
    if len > 0.0 then DivScalarAssign(target, len) else target
  }

  /** The two forms agree except on a non-zero vector whose length is not
      positive, which over the reals only a wrong length can give. */
  lemma NormalizeMatchesNormalized(a: Vector3D, len: real)
    ensures len > 0.0 || a == ZERO ==> Normalize(a, len) == Normalized(a, len)
    ensures len <= 0.0 && a != ZERO ==> Normalize(a, len) != Normalized(a, len)
  {
  }

  /** `project_onto`: the component of `a` along `n`, zero when `n`'s squared
      length is not positive. */
  function ProjectOnto(a: Vector3D, n: Vector3D): (r: Vector3D)
    ensures LengthSq(n) <= 0.0 ==> r == ZERO
    ensures n == ZERO ==> r == ZERO
  {
    var d := LengthSq(n);
    if d <= 0.0 then ZERO else Scale(n, Dot(a, n) / d)
  }

  /** Projecting a multiple of `n` onto `n` gives it back. */
  lemma ProjectOntoKeepsMultiples(n: Vector3D, k: real)
    requires LengthSq(n) > 0.0
    ensures ProjectOnto(Scale(n, k), n) == Scale(n, k)
  {
    var d := LengthSq(n);
    assert Dot(Scale(n, k), n) == k * d;
    assert k * d / d == k;
  }

  /** `reflect` about a unit normal. */
  function Reflect(a: Vector3D, normal: Vector3D): (r: Vector3D)
    ensures Add(r, Scale(normal, 2.0 * Dot(a, normal))) == a
  {
    Sub(a, Scale(normal, 2.0 * Dot(a, normal)))
  }

  /** `Lerp`: `a` at `t = 0`, `b` at `t = 1`. */
  function Lerp(a: Vector3D, b: Vector3D, t: real): (r: Vector3D)
    ensures t == 0.0 ==> r == a
    ensures t == 1.0 ==> r == b
  {
    Add(a, Scale(Sub(b, a), t))
  }
}
