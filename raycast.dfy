/** `RaycastUtil`: picking entities in the editor. A ray is tested against an
    axis-aligned box built from each entity's transform matrix (the slab
    test), the scene scan keeps the closest hit, and the transform matrix is
    handed to and taken back from the gizmo in column-major order. Arithmetic
    is over `real`; `sqrt` is a parameter. */
module Raycast {
  import opened Wrappers
  import opened Glm
  import opened EcsTypes
  import Vector3Ds
  import opened TransformSystems
  import opened EcsManagers
  import opened EditorStates

  /** The sixteen entries of an engine `Matrix4x4`. */
  type Entries = s: seq<real> | |s| == 16
    witness [0.0, 0.0, 0.0, 0.0, 0.0, 0.0, 0.0, 0.0, 0.0, 0.0, 0.0, 0.0, 0.0, 0.0, 0.0, 0.0]

  /** `Matrix4x4`, row-major: `m[r][c]` is entry `4 * r + c`. */
  datatype Matrix4x4 = Matrix4x4(m: Entries)

  function At(a: Matrix4x4, r: nat, c: nat): real
    requires r < 4 && c < 4
  {
    a.m[4 * r + c]
  }

  /** The readable type name under which the editor looks transforms up. */
  const TRANSFORM: string := "Transform"

  /** `RaycastScene` tests the entity IDs 0 to 50, both included. */
  const LAST_SCANNED: nat := 50

  /** `std::numeric_limits<float>::max()`. */
  const FLT_MAX: real := 340282346638528859811704183484516925440.0

  /** The size `CreateAABBFromTransform` assumes by default: a unit cube. */
  const UNIT_SIZE: Vec3 := Vec3(1.0, 1.0, 1.0)

  /** A ray; its constructor normalises the direction, which the model takes
      as given. */
  datatype Ray = Ray(origin: Vec3, direction: Vec3)

  datatype AABB = AABB(min: Vec3, max: Vec3)

  /** `RaycastHit`; a default one has no entity, the largest float as its
      distance and no hit. */
  datatype RaycastHit = RaycastHit(entity: nat, distance: real, point: Vec3, hit: bool)

  const NO_HIT: RaycastHit := RaycastHit(INVALID_ENTITY, FLT_MAX, Vec3(0.0, 0.0, 0.0), false)

  // ---------------------------------------------------------------------------
  // The slab test

  function Min(a: real, b: real): real { if a <= b then a else b }
  function Max(a: real, b: real): real { if a <= b then b else a }

  /** The slab test divides by every component of the direction. */
  predicate NonZeroDirection(d: Vec3)
  {
    d.x != 0.0 && d.y != 0.0 && d.z != 0.0
  }

  /** The ray parameter at which one coordinate reaches `bound`. */
  function Crossing(origin: real, direction: real, bound: real): real
    requires direction != 0.0
  {
    (bound - origin) * (1.0 / direction)
  }

  /** `tMin` on one axis: the smaller of the two crossings. */
  function SlabLow(o: real, d: real, lo: real, hi: real): real
    requires d != 0.0
  {
    Min(Crossing(o, d, lo), Crossing(o, d, hi))
  }

  /** `tMax` on one axis: the larger of the two crossings. */
  function SlabHigh(o: real, d: real, lo: real, hi: real): real
    requires d != 0.0
  {
    Max(Crossing(o, d, lo), Crossing(o, d, hi))
  }

  /** `tNear`: the largest of the three entering parameters. */
  function Near(ray: Ray, box: AABB): real
    requires NonZeroDirection(ray.direction)
  {
    var o, d := ray.origin, ray.direction;
    Max(Max(SlabLow(o.x, d.x, box.min.x, box.max.x), SlabLow(o.y, d.y, box.min.y, box.max.y)),
        SlabLow(o.z, d.z, box.min.z, box.max.z))
  }

  /** `tFar`: the smallest of the three leaving parameters. */
  function Far(ray: Ray, box: AABB): real
    requires NonZeroDirection(ray.direction)
  {
    var o, d := ray.origin, ray.direction;
    Min(Min(SlabHigh(o.x, d.x, box.min.x, box.max.x), SlabHigh(o.y, d.y, box.min.y, box.max.y)),
        SlabHigh(o.z, d.z, box.min.z, box.max.z))
  }

  /** `RayAABBIntersection`: a miss when the ray leaves before it enters or
      everything is behind it; otherwise the entering distance, or the
      leaving one when the entering one is behind the origin. */
  function RayAABBIntersection(ray: Ray, box: AABB): (r: Option<real>)
    requires NonZeroDirection(ray.direction)
    ensures r.None? <==> Near(ray, box) > Far(ray, box) || Far(ray, box) < 0.0
    ensures r.Some? ==> 0.0 <= r.value && (r.value == Near(ray, box) || r.value == Far(ray, box))
  {
    var tNear, tFar := Near(ray, box), Far(ray, box);
    if tNear > tFar || tFar < 0.0 then None
    else Some(if tNear >= 0.0 then tNear else tFar)
  }

  /** `ray.origin + ray.direction * t`. */
  function PointAt(ray: Ray, t: real): Vec3
  {
    Add(ray.origin, Scale(ray.direction, t))
  }

  /** A box whose minimum corner is below its maximum corner. */
  predicate Proper(box: AABB)
  {
    box.min.x <= box.max.x && box.min.y <= box.max.y && box.min.z <= box.max.z
  }

  /** A coordinate moving along a line, at parameter `t`, is within `[lo, hi]`. */
  predicate InSlab(o: real, d: real, lo: real, hi: real, t: real)
  {
    lo <= o + d * t <= hi
  }

  /** The closed box. */
  predicate InBox(p: Vec3, box: AABB)
  {
    box.min.x <= p.x <= box.max.x && box.min.y <= p.y <= box.max.y && box.min.z <= p.z <= box.max.z
  }

  /** The sign of a product with a non-zero factor. */
  lemma ProductSign(a: real, d: real)
    requires d != 0.0
    ensures d > 0.0 ==> (a * d >= 0.0 <==> a >= 0.0) && (a * d <= 0.0 <==> a <= 0.0)
    ensures d < 0.0 ==> (a * d >= 0.0 <==> a <= 0.0) && (a * d <= 0.0 <==> a >= 0.0)
  {
  }

  /** How far a coordinate is past `bound` at parameter `t`, in terms of the
      crossing parameter. */
  lemma CrossingOffset(o: real, d: real, bound: real, t: real)
    requires d != 0.0
    ensures (t - Crossing(o, d, bound)) * d == o + t * d - bound
  {
    var inv := 1.0 / d;
    assert inv * d == 1.0;
    calc {
      (t - Crossing(o, d, bound)) * d;
      t * d - ((bound - o) * inv) * d;
      { assert ((bound - o) * inv) * d == (bound - o) * (inv * d); }
      t * d - (bound - o);
    }
  }

  /** One axis: a coordinate moving along a line is within `[lo, hi]` exactly
      between the two crossing parameters. */
  lemma SlabInterval(o: real, d: real, lo: real, hi: real, t: real)
    requires d != 0.0 && lo <= hi
    ensures InSlab(o, d, lo, hi, t) <==> SlabLow(o, d, lo, hi) <= t <= SlabHigh(o, d, lo, hi)
  {
    var t1, t2 := Crossing(o, d, lo), Crossing(o, d, hi);
    CrossingOffset(o, d, lo, t);
    CrossingOffset(o, d, hi, t);
    CrossingOffset(o, d, hi, t1);
    ProductSign(t - t1, d);
    ProductSign(t - t2, d);
    ProductSign(t1 - t2, d);
  }

  /** Being inside three intervals is being between the largest lower and
      the smallest upper bound. */
  lemma BetweenAll(inX: bool, inY: bool, inZ: bool,
                   a1: real, b1: real, a2: real, b2: real, a3: real, b3: real, t: real)
    requires inX <==> a1 <= t <= b1
    requires inY <==> a2 <= t <= b2
    requires inZ <==> a3 <= t <= b3
    ensures (inX && inY && inZ) <==> Max(Max(a1, a2), a3) <= t <= Min(Min(b1, b2), b3)
  {
  }

  /** Membership of a ray point, coordinate by coordinate. */
  lemma InBoxCoordinates(ray: Ray, box: AABB, t: real)
    ensures var o, d := ray.origin, ray.direction;
      InBox(PointAt(ray, t), box) <==>
        InSlab(o.x, d.x, box.min.x, box.max.x, t) &&
        InSlab(o.y, d.y, box.min.y, box.max.y, t) &&
        InSlab(o.z, d.z, box.min.z, box.max.z, t)
  {
  }

  /** A point of the ray is in a proper box exactly when its parameter lies
      between `tNear` and `tFar`. */
  lemma InBoxBetween(ray: Ray, box: AABB, t: real)
    requires NonZeroDirection(ray.direction) && Proper(box)
    ensures InBox(PointAt(ray, t), box) <==> Near(ray, box) <= t <= Far(ray, box)
  {
    var o, d := ray.origin, ray.direction;
    InBoxCoordinates(ray, box, t);
    SlabInterval(o.x, d.x, box.min.x, box.max.x, t);
    SlabInterval(o.y, d.y, box.min.y, box.max.y, t);
    SlabInterval(o.z, d.z, box.min.z, box.max.z, t);
    BetweenAll(InSlab(o.x, d.x, box.min.x, box.max.x, t),
               InSlab(o.y, d.y, box.min.y, box.max.y, t),
               InSlab(o.z, d.z, box.min.z, box.max.z, t),
               SlabLow(o.x, d.x, box.min.x, box.max.x), SlabHigh(o.x, d.x, box.min.x, box.max.x),
               SlabLow(o.y, d.y, box.min.y, box.max.y), SlabHigh(o.y, d.y, box.min.y, box.max.y),
               SlabLow(o.z, d.z, box.min.z, box.max.z), SlabHigh(o.z, d.z, box.min.z, box.max.z), t);
  }

  /** The slab test is exact for a proper box: it reports a hit exactly when
      some point of the ray at or ahead of its origin is in the box; the
      point at the reported distance is in the box; from outside the box
      that distance is where the ray enters it, and from inside (a positive
      distance) where the ray leaves it. */
  lemma IntersectionIsContact(ray: Ray, box: AABB)
    requires NonZeroDirection(ray.direction) && Proper(box)
    ensures RayAABBIntersection(ray, box).Some? <==> exists t :: 0.0 <= t && InBox(PointAt(ray, t), box)
    ensures var r := RayAABBIntersection(ray, box);
      r.Some? ==> InBox(PointAt(ray, r.value), box)
    ensures var r := RayAABBIntersection(ray, box);
      r.Some? && !InBox(ray.origin, box) ==> forall t :: 0.0 <= t && InBox(PointAt(ray, t), box) ==> r.value <= t
    ensures var r := RayAABBIntersection(ray, box);
      r.Some? && InBox(ray.origin, box) && r.value > 0.0 ==>
        forall t :: 0.0 <= t && InBox(PointAt(ray, t), box) ==> t <= r.value
  {
    var r := RayAABBIntersection(ray, box);
    var tNear, tFar := Near(ray, box), Far(ray, box);
    forall t | true
      ensures InBox(PointAt(ray, t), box) <==> tNear <= t <= tFar
    {
      InBoxBetween(ray, box, t);
    }
    assert PointAt(ray, 0.0) == ray.origin;
    if r.Some? {
      assert InBox(PointAt(ray, r.value), box);
    }
  }

  // ---------------------------------------------------------------------------
  // The box of an entity

  /** The translation: the last column's first three rows. */
  function TranslationOf(a: Matrix4x4): Vec3
  {
    Vec3(At(a, 0, 3), At(a, 1, 3), At(a, 2, 3))
  }

  /** The scale: the lengths of the first three columns. */
  function ScaleOf(a: Matrix4x4, sqrt: real -> real): Vec3
  {
    Vec3(sqrt(At(a, 0, 0) * At(a, 0, 0) + At(a, 1, 0) * At(a, 1, 0) + At(a, 2, 0) * At(a, 2, 0)),
         sqrt(At(a, 0, 1) * At(a, 0, 1) + At(a, 1, 1) * At(a, 1, 1) + At(a, 2, 1) * At(a, 2, 1)),
         sqrt(At(a, 0, 2) * At(a, 0, 2) + At(a, 1, 2) * At(a, 1, 2) + At(a, 2, 2) * At(a, 2, 2)))
  }

  /** `CreateAABBFromTransform`: the box centred on the translation whose
      extent is the model size times the scale. */
  function CreateAABBFromTransform(transform: Matrix4x4, modelSize: Vec3, sqrt: real -> real): (box: AABB)
    ensures Add(box.min, box.max) == Scale(TranslationOf(transform), 2.0)
    ensures Sub(box.max, box.min) == Mul(modelSize, ScaleOf(transform, sqrt))
  {
    var translation := TranslationOf(transform);
    var halfSize := Scale(Mul(modelSize, ScaleOf(transform, sqrt)), 0.5);
    AABB(Sub(translation, halfSize), Add(translation, halfSize))
  }

  /** With a non-negative size and a square root that is non-negative, the
      box is proper and holds the entity's position. */
  lemma BoxHoldsPosition(transform: Matrix4x4, modelSize: Vec3, sqrt: real -> real)
    requires modelSize.x >= 0.0 && modelSize.y >= 0.0 && modelSize.z >= 0.0
    requires forall x :: 0.0 <= x ==> 0.0 <= sqrt(x)
    ensures Proper(CreateAABBFromTransform(transform, modelSize, sqrt))
    ensures InBox(TranslationOf(transform), CreateAABBFromTransform(transform, modelSize, sqrt))
  {
    var a := transform;
    var s := ScaleOf(a, sqrt);
    SquaresNonNegative(At(a, 0, 0), At(a, 1, 0), At(a, 2, 0));
    SquaresNonNegative(At(a, 0, 1), At(a, 1, 1), At(a, 2, 1));
    SquaresNonNegative(At(a, 0, 2), At(a, 1, 2), At(a, 2, 2));
    assert s.x >= 0.0 && s.y >= 0.0 && s.z >= 0.0;
    assert modelSize.x * s.x >= 0.0 && modelSize.y * s.y >= 0.0 && modelSize.z * s.z >= 0.0;
  }

  lemma SquaresNonNegative(a: real, b: real, c: real)
    ensures a * a + b * b + c * c >= 0.0
  {
    Vector3Ds.SquareNonNegative(a);
    Vector3Ds.SquareNonNegative(b);
    Vector3Ds.SquareNonNegative(c);
  }

  // ---------------------------------------------------------------------------
  // The scene scan

  /** What the slab test reports for one entity: nothing without a
      transform, else the test against its unit box. */
  function EntityHit<V>(ray: Ray, transforms: map<Entity, V>, modelOf: V -> Matrix4x4, sqrt: real -> real,
                        e: Entity): (r: Option<real>)
    requires NonZeroDirection(ray.direction)
    ensures e !in transforms ==> r.None?
    ensures r.Some? ==> r.value >= 0.0
  {
    if e in transforms then RayAABBIntersection(ray, CreateAABBFromTransform(modelOf(transforms[e]), UNIT_SIZE, sqrt))
    else None
  }

  /** `EntityHit` for every ID of one world and ray. */
  function HitsOf<V>(ray: Ray, transforms: map<Entity, V>, modelOf: V -> Matrix4x4, sqrt: real -> real)
    : (hitAt: Entity -> Option<real>)
    requires NonZeroDirection(ray.direction)
    ensures forall e: Entity :: hitAt(e) == EntityHit(ray, transforms, modelOf, sqrt, e)
  {
    (e: Entity) => EntityHit(ray, transforms, modelOf, sqrt, e)
  }

  /** The closest hit after testing the IDs below `n` in ascending order,
      `hitAt` giving each ID's distance if it is hit: a hit replaces the best
      so far only when nothing was hit yet or it is strictly closer. */
  function ScannedBelow(ray: Ray, hitAt: Entity -> Option<real>, n: nat): RaycastHit
  {
    if n == 0 then NO_HIT
    else
      var best := ScannedBelow(ray, hitAt, n - 1);
      var d := hitAt(n - 1);
      if d.Some? && (!best.hit || d.value < best.distance)
      then RaycastHit(n - 1, d.value, PointAt(ray, d.value), true)
      else best
  }

  /** After the IDs below `n`: a hit exactly when one of them is hit; the hit
      is the closest one, the lowest ID among equally close ones, and its
      point is on the ray at its distance; with no hit the result is the
      default. */
  lemma {:induction false} ScanFindsClosest(ray: Ray, hitAt: Entity -> Option<real>, n: nat)
    ensures var r := ScannedBelow(ray, hitAt, n);
      r.hit <==> exists e :: 0 <= e < n && hitAt(e).Some?
    ensures var r := ScannedBelow(ray, hitAt, n);
      !r.hit ==> r == NO_HIT
    ensures var r := ScannedBelow(ray, hitAt, n);
      r.hit ==> r.entity < n && hitAt(r.entity) == Some(r.distance) && r.point == PointAt(ray, r.distance)
    ensures var r := ScannedBelow(ray, hitAt, n);
      r.hit ==>
        forall e :: 0 <= e < n && hitAt(e).Some? ==>
          r.distance <= hitAt(e).value && (hitAt(e).value == r.distance ==> r.entity <= e)
  {
    if n > 0 {
      ScanFindsClosest(ray, hitAt, n - 1);
    }
  }

  /** `RaycastScene`, run on the active world, which must have `Transform`
      registered. */
  method RaycastScene<V>(ray: Ray, ecs: ECSManager<V>, modelOf: V -> Matrix4x4, sqrt: real -> real)
    returns (closest: RaycastHit)
    requires NonZeroDirection(ray.direction)
    requires ecs.Valid() && TRANSFORM in ecs.componentManager.components
    ensures closest == ScannedBelow(ray, HitsOf(ray, ecs.componentManager.Components(TRANSFORM), modelOf, sqrt), LAST_SCANNED + 1)
  {
    ghost var transforms := ecs.componentManager.Components(TRANSFORM);
    ghost var hitAt := HitsOf(ray, transforms, modelOf, sqrt);
    closest := NO_HIT;
    for entity := 0 to LAST_SCANNED + 1
      invariant closest == ScannedBelow(ray, hitAt, entity)
    {
      var distance := None;
      if ecs.HasComponent(TRANSFORM, entity) {
        var transform := ecs.GetComponent(TRANSFORM, entity);
        var entityBox := CreateAABBFromTransform(modelOf(transform), UNIT_SIZE, sqrt);
        distance := RayAABBIntersection(ray, entityBox);
      }
      assert distance == hitAt(entity);
      if distance.Some? && (!closest.hit || distance.value < closest.distance) {
        closest := RaycastHit(entity, distance.value, PointAt(ray, distance.value), true);
      }
    }
  }

  // ---------------------------------------------------------------------------
  // The gizmo's matrix

  /** The gizmo's column-major layout: entry `4 * c + r` is row `r` of
      column `c`. */
  function ToColumnMajor(a: Matrix4x4): (out: Entries)
    ensures forall r, c :: 0 <= r < 4 && 0 <= c < 4 ==> out[4 * c + r] == At(a, r, c)
  {
    [a.m[0], a.m[4], a.m[8], a.m[12],
     a.m[1], a.m[5], a.m[9], a.m[13],
     a.m[2], a.m[6], a.m[10], a.m[14],
     a.m[3], a.m[7], a.m[11], a.m[15]]
  }

  function FromColumnMajor(values: Entries): (a: Matrix4x4)
    ensures forall r, c :: 0 <= r < 4 && 0 <= c < 4 ==> At(a, r, c) == values[4 * c + r]
  {
    Matrix4x4([values[0], values[4], values[8], values[12],
               values[1], values[5], values[9], values[13],
               values[2], values[6], values[10], values[14],
               values[3], values[7], values[11], values[15]])
  }

  /** The two layouts are inverse to each other. */
  lemma LayoutRoundTrip(a: Matrix4x4, values: Entries)
    ensures FromColumnMajor(ToColumnMajor(a)) == a
    ensures ToColumnMajor(FromColumnMajor(values)) == values
  {
  }

  /** `GetEntityTransform`: with a transform, its matrix in column-major
      order; without one, `out` is untouched. */
  method GetEntityTransform<V>(ecs: ECSManager<V>, entity: Entity, modelOf: V -> Matrix4x4, out: array<real>)
    returns (ok: bool)
    requires ecs.Valid() && TRANSFORM in ecs.componentManager.components
    requires out.Length == 16
    modifies out
    ensures ok <==> entity in ecs.componentManager.Components(TRANSFORM)
    ensures ok ==> out[..] == ToColumnMajor(modelOf(ecs.componentManager.Components(TRANSFORM)[entity]))
    ensures !ok ==> out[..] == old(out[..])
  {
    if !ecs.HasComponent(TRANSFORM, entity) {
      return false;
    }
    var values := ToColumnMajor(modelOf(ecs.GetComponent(TRANSFORM, entity)));
    forall k | 0 <= k < 16 {
      out[k] := values[k];
    }
    assert out[..] == values;
    return true;
  }

  function ToVector3D(v: Vec3): Vector3Ds.Vector3D
  {
    Vector3Ds.Vector3D(v.x, v.y, v.z)
  }

  /** `SetEntityTransform` on the entity's transform, if it has one: the
      matrix is taken back from column-major order and position and scale are
      read off it. They, and the last* values meant to stop `TransformSystem`
      from rebuilding the matrix, are stored through `Vector3D::operator=`,
      which copies `x` and `y` only, so each keeps its own `z`; the rotation
      is left. */
  function SetEntityTransform(found: Option<Transform<Matrix4x4>>, matrix: Entries, sqrt: real -> real)
    : (r: Option<Transform<Matrix4x4>>)
    ensures r.None? <==> found.None?
    ensures r.Some? ==>
      var t, old_t := r.value, found.value;
      var p, s := TranslationOf(t.model), ScaleOf(t.model, sqrt);
      t.model == FromColumnMajor(matrix) &&
      t.position == Vector3Ds.Vector3D(p.x, p.y, old_t.position.z) &&
      t.lastPosition == Vector3Ds.Vector3D(p.x, p.y, old_t.lastPosition.z) &&
      t.scale == Vector3Ds.Vector3D(s.x, s.y, old_t.scale.z) &&
      t.lastScale == Vector3Ds.Vector3D(s.x, s.y, old_t.lastScale.z) &&
      t.rotation == old_t.rotation && t.lastRotation == old_t.lastRotation
  {
    match found
    case None => None
    case Some(transform) =>
      var newMatrix := FromColumnMajor(matrix);
      var newPosition := ToVector3D(TranslationOf(newMatrix));
      var newScale := ToVector3D(ScaleOf(newMatrix, sqrt));
      Some(transform.(position := Vector3Ds.AssignAsWritten(transform.position, newPosition),
                      scale := Vector3Ds.AssignAsWritten(transform.scale, newScale),
                      model := newMatrix,
                      lastPosition := Vector3Ds.AssignAsWritten(transform.lastPosition, newPosition),
                      lastScale := Vector3Ds.AssignAsWritten(transform.lastScale, newScale)))
  }

  /** Setting then getting gives back the same sixteen values. The next
      `TransformSystem` frame rebuilds the matrix exactly when the rotation
      was already out of step or the old position or scale had a `z` other
      than its last* value's, the two that the assignments leave alone. */
  lemma SetThenGet(t: Transform<Matrix4x4>, matrix: Entries, sqrt: real -> real)
    ensures var r := SetEntityTransform(Some(t), matrix, sqrt);
      r.Some? && ToColumnMajor(r.value.model) == matrix
    ensures var r := SetEntityTransform(Some(t), matrix, sqrt);
      r.Some? && (NeedsRecompute(r.value) <==>
        t.rotation != t.lastRotation || t.position.z != t.lastPosition.z || t.scale.z != t.lastScale.z)
  {
    LayoutRoundTrip(FromColumnMajor(matrix), matrix);
  }

  /** With the intended assignment, the stored position and scale are the
      matrix's own and the next frame rebuilds only for a rotation out of step. */
  function SetEntityTransformCorrected(found: Option<Transform<Matrix4x4>>, matrix: Entries, sqrt: real -> real)
    : (r: Option<Transform<Matrix4x4>>)
    ensures r.None? <==> found.None?
    ensures r.Some? ==>
      var t := r.value;
      t.model == FromColumnMajor(matrix) &&
      t.position == ToVector3D(TranslationOf(t.model)) && t.lastPosition == t.position &&
      t.scale == ToVector3D(ScaleOf(t.model, sqrt)) && t.lastScale == t.scale &&
      t.rotation == found.value.rotation && t.lastRotation == found.value.lastRotation
    ensures r.Some? ==> (NeedsRecompute(r.value) <==> found.value.rotation != found.value.lastRotation)
  {
    match found
    case None => None
    case Some(transform) =>
      var newMatrix := FromColumnMajor(matrix);
      var newPosition := ToVector3D(TranslationOf(newMatrix));
      var newScale := ToVector3D(ScaleOf(newMatrix, sqrt));
      Some(transform.(position := Vector3Ds.Assign(transform.position, newPosition),
                      scale := Vector3Ds.Assign(transform.scale, newScale),
                      model := newMatrix,
                      lastPosition := Vector3Ds.Assign(transform.lastPosition, newPosition),
                      lastScale := Vector3Ds.Assign(transform.lastScale, newScale)))
  }
}
