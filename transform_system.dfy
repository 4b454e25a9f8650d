/** `TransformSystem`: keeps each entity's model matrix in step with its
    position, scale and rotation, recomputing it only when one of them
    changed since the last frame. `calculateModelMatrix` (translate, rotate
    by Z·Y·X in degrees, scale) is a function-typed constant here, so the
    matrix type `M` is left abstract. */
module TransformSystems {
  import opened EcsTypes
  import opened Vector3Ds

  /** `Transform`: the current values, the values seen at the last frame, and the model matrix. */
  datatype Transform<M> = Transform(
    position: Vector3D, scale: Vector3D, rotation: Vector3D,
    lastPosition: Vector3D, lastScale: Vector3D, lastRotation: Vector3D,
    model: M)

  /** What the setters store in the matching last* field. */
  const SENTINEL := Vector3D(-99999.0, -99999.0, -99999.0)

  /** The default `Transform`: at the origin, unit scale, no rotation, all
      last* values zero; `model` is the matrix's default value. */
  function DefaultTransform<M>(model: M): (t: Transform<M>)
    ensures t.position == ZERO && t.scale == Vector3D(1.0, 1.0, 1.0) && t.rotation == ZERO
    ensures t.lastPosition == ZERO && t.lastScale == ZERO && t.lastRotation == ZERO
  {
    Transform(ZERO, Vector3D(1.0, 1.0, 1.0), ZERO, ZERO, ZERO, ZERO, model)
  }

  /** The dirty check of `update`. */
  predicate NeedsRecompute<M>(t: Transform<M>): (b: bool)
    ensures b <==> t.position != t.lastPosition || t.scale != t.lastScale || t.rotation != t.lastRotation
  {
    Neq(t.position, t.lastPosition) || Neq(t.scale, t.lastScale) || Neq(t.rotation, t.lastRotation)
  }

  /** The model matrix matches the current values. */
  ghost predicate Current<M>(t: Transform<M>, matrixOf: (Vector3D, Vector3D, Vector3D) -> M)
  {
    t.model == matrixOf(t.position, t.scale, t.rotation)
  }

  /** The model matrix matches the values seen at the last frame. */
  ghost predicate Synced<M>(t: Transform<M>, matrixOf: (Vector3D, Vector3D, Vector3D) -> M)
  {
    t.model == matrixOf(t.lastPosition, t.lastScale, t.lastRotation)
  }

  /** The three last* values hold the `z` of their current values: the one
      component `Vector3D`'s assignment does not copy. */
  predicate ZInStep<M>(t: Transform<M>)
  {
    t.lastPosition.z == t.position.z && t.lastScale.z == t.scale.z && t.lastRotation.z == t.rotation.z
  }

  /** One entity's step of `Initialise`: recompute, then remember the current
      values through `Vector3D::operator=`, which copies `x` and `y` only, so
      each last* value keeps its own `z`. The result is clean exactly when the
      `z` components were already in step. */
  function Initialised<M>(t: Transform<M>, matrixOf: (Vector3D, Vector3D, Vector3D) -> M): (r: Transform<M>)
    ensures Current(r, matrixOf)
    ensures r.position == t.position && r.scale == t.scale && r.rotation == t.rotation
    ensures r.lastPosition == Vector3D(t.position.x, t.position.y, t.lastPosition.z)
    ensures r.lastScale == Vector3D(t.scale.x, t.scale.y, t.lastScale.z)
    ensures r.lastRotation == Vector3D(t.rotation.x, t.rotation.y, t.lastRotation.z)
    ensures !NeedsRecompute(r) <==> ZInStep(t)
  {
    t.(model := matrixOf(t.position, t.scale, t.rotation),
       lastPosition := AssignAsWritten(t.lastPosition, t.position),
       lastRotation := AssignAsWritten(t.lastRotation, t.rotation),
       lastScale := AssignAsWritten(t.lastScale, t.scale))
  }

  /** One entity's step of `update`: recompute only when dirty, then remember
      the current values through the same two-component assignment. The
      next frame is clean exactly when the `z` components were in step. */
  function Stepped<M>(t: Transform<M>, matrixOf: (Vector3D, Vector3D, Vector3D) -> M): (r: Transform<M>)
    ensures r.position == t.position && r.scale == t.scale && r.rotation == t.rotation
    ensures NeedsRecompute(t) ==> r.model == matrixOf(t.position, t.scale, t.rotation)
    ensures !NeedsRecompute(t) ==> r.model == t.model
    ensures r.lastPosition == Vector3D(t.position.x, t.position.y, t.lastPosition.z)
    ensures r.lastScale == Vector3D(t.scale.x, t.scale.y, t.lastScale.z)
    ensures r.lastRotation == Vector3D(t.rotation.x, t.rotation.y, t.lastRotation.z)
    ensures !NeedsRecompute(r) <==> ZInStep(t)
    ensures ZInStep(r) <==> ZInStep(t)
  {
    var model := if NeedsRecompute(t) then matrixOf(t.position, t.scale, t.rotation) else t.model;
    t.(model := model,
       lastPosition := AssignAsWritten(t.lastPosition, t.position),
       lastRotation := AssignAsWritten(t.lastRotation, t.rotation),
       lastScale := AssignAsWritten(t.lastScale, t.scale))
  }

  /** As written, a frame leaves the matrix current whenever it was current or
      in step with the last values before; the matrix then stays put only
      for a transform whose `z` components are in step. */
  lemma SteppedSettlesOnlyInStep<M>(t: Transform<M>, matrixOf: (Vector3D, Vector3D, Vector3D) -> M)
    requires Current(t, matrixOf) || Synced(t, matrixOf)
    ensures Current(Stepped(t, matrixOf), matrixOf)
    ensures ZInStep(t) ==> Stepped(Stepped(t, matrixOf), matrixOf) == Stepped(t, matrixOf)
    ensures !ZInStep(t) ==> NeedsRecompute(Stepped(Stepped(t, matrixOf), matrixOf))
  {
    if !NeedsRecompute(t) {
      assert t.position == t.lastPosition && t.scale == t.lastScale && t.rotation == t.lastRotation;
    }
    if ZInStep(t) {
      var r := Stepped(t, matrixOf);
      assert r.lastPosition == r.position && r.lastScale == r.scale && r.lastRotation == r.rotation;
    }
  }

  /** As written, a default transform never settles: its unit scale's `z` is
      never copied into `lastScale`, so every frame after `Initialise` recomputes. */
  lemma DefaultNeverSettles<M>(model: M, matrixOf: (Vector3D, Vector3D, Vector3D) -> M)
    ensures NeedsRecompute(Initialised(DefaultTransform(model), matrixOf))
    ensures NeedsRecompute(Stepped(Initialised(DefaultTransform(model), matrixOf), matrixOf))
    ensures NeedsRecompute(Stepped(Stepped(Initialised(DefaultTransform(model), matrixOf), matrixOf), matrixOf))
  {
    var t1 := Initialised(DefaultTransform(model), matrixOf);
    assert t1.lastScale.z == 0.0;
    var t2 := Stepped(t1, matrixOf);
    assert t2.lastScale.z == 0.0;
    var t3 := Stepped(t2, matrixOf);
    assert t3.lastScale.z == 0.0;
  }

  /** `SetPosition`: the value, taken by value through the copy constructor
      (whose indeterminate `z` is never read), is assigned with `x` and `y`
      only; the matrix is recomputed at once; `lastPosition` receives the
      sentinel's `x` and `y` and keeps its own `z`. */
  function SetPosition<M>(t: Transform<M>, position: Vector3D, matrixOf: (Vector3D, Vector3D, Vector3D) -> M): (r: Transform<M>)
    ensures r.position == Vector3D(position.x, position.y, t.position.z) && Current(r, matrixOf)
    ensures r.lastPosition == Vector3D(SENTINEL.x, SENTINEL.y, t.lastPosition.z)
    ensures r.scale == t.scale && r.rotation == t.rotation
    ensures r.lastScale == t.lastScale && r.lastRotation == t.lastRotation
  {
    var moved := t.(position := AssignAsWritten(t.position, position));
    moved.(model := matrixOf(moved.position, moved.scale, moved.rotation),
           lastPosition := AssignAsWritten(moved.lastPosition, SENTINEL))
  }

  /** `SetRotation`, with the same two-component assignments. */
  function SetRotation<M>(t: Transform<M>, rotation: Vector3D, matrixOf: (Vector3D, Vector3D, Vector3D) -> M): (r: Transform<M>)
    ensures r.rotation == Vector3D(rotation.x, rotation.y, t.rotation.z) && Current(r, matrixOf)
    ensures r.lastRotation == Vector3D(SENTINEL.x, SENTINEL.y, t.lastRotation.z)
    ensures r.position == t.position && r.scale == t.scale
    ensures r.lastPosition == t.lastPosition && r.lastScale == t.lastScale
  {
    var turned := t.(rotation := AssignAsWritten(t.rotation, rotation));
    turned.(model := matrixOf(turned.position, turned.scale, turned.rotation),
            lastRotation := AssignAsWritten(turned.lastRotation, SENTINEL))
  }

  /** `SetScale`, with the same two-component assignments. */
  function SetScale<M>(t: Transform<M>, scale: Vector3D, matrixOf: (Vector3D, Vector3D, Vector3D) -> M): (r: Transform<M>)
    ensures r.scale == Vector3D(scale.x, scale.y, t.scale.z) && Current(r, matrixOf)
    ensures r.lastScale == Vector3D(SENTINEL.x, SENTINEL.y, t.lastScale.z)
    ensures r.position == t.position && r.rotation == t.rotation
    ensures r.lastPosition == t.lastPosition && r.lastRotation == t.lastRotation
  {
    var scaled := t.(scale := AssignAsWritten(t.scale, scale));
    scaled.(model := matrixOf(scaled.position, scaled.scale, scaled.rotation),
            lastScale := AssignAsWritten(scaled.lastScale, SENTINEL))
  }

  /** After a setter given a value whose `x` or `y` differs from the
      sentinel's, the next frame is dirty, and the matrix it leaves is current. */
  lemma SetterForcesRecompute<M>(t: Transform<M>, v: Vector3D, matrixOf: (Vector3D, Vector3D, Vector3D) -> M)
    requires v.x != SENTINEL.x || v.y != SENTINEL.y
    ensures NeedsRecompute(SetPosition(t, v, matrixOf)) && Current(Stepped(SetPosition(t, v, matrixOf), matrixOf), matrixOf)
    ensures NeedsRecompute(SetRotation(t, v, matrixOf)) && Current(Stepped(SetRotation(t, v, matrixOf), matrixOf), matrixOf)
    ensures NeedsRecompute(SetScale(t, v, matrixOf)) && Current(Stepped(SetScale(t, v, matrixOf), matrixOf), matrixOf)
  {
  }

  /** The sentinel forces nothing for a value that shares its `x` and `y`: on
      a settled transform such a position leaves the next frame clean, and
      its `z` is lost. */
  lemma SentinelLikePositionNotForced<M>(model: M, matrixOf: (Vector3D, Vector3D, Vector3D) -> M)
    ensures var t := Transform(ZERO, Vector3D(1.0, 1.0, 1.0), ZERO, ZERO, Vector3D(1.0, 1.0, 1.0), ZERO, model);
      var r := SetPosition(t, Vector3D(-99999.0, -99999.0, 5.0), matrixOf);
      !NeedsRecompute(r) && r.position.z == 0.0
  {
    var t := Transform(ZERO, Vector3D(1.0, 1.0, 1.0), ZERO, ZERO, Vector3D(1.0, 1.0, 1.0), ZERO, model);
    var r := SetPosition(t, Vector3D(-99999.0, -99999.0, 5.0), matrixOf);
    assert r.position == r.lastPosition;
  }

  /** `Initialise` with the intended three-component assignment. */
  function InitialisedCorrected<M>(t: Transform<M>, matrixOf: (Vector3D, Vector3D, Vector3D) -> M): (r: Transform<M>)
    ensures Current(r, matrixOf) && Synced(r, matrixOf) && !NeedsRecompute(r)
    ensures r.position == t.position && r.scale == t.scale && r.rotation == t.rotation
  {
    t.(model := matrixOf(t.position, t.scale, t.rotation),
       lastPosition := Assign(t.lastPosition, t.position),
       lastRotation := Assign(t.lastRotation, t.rotation),
       lastScale := Assign(t.lastScale, t.scale))
  }

  /** `update` with the intended three-component assignment: nothing is
      dirty afterwards. */
  function SteppedCorrected<M>(t: Transform<M>, matrixOf: (Vector3D, Vector3D, Vector3D) -> M): (r: Transform<M>)
    ensures !NeedsRecompute(r)
    ensures r.position == t.position && r.scale == t.scale && r.rotation == t.rotation
    ensures NeedsRecompute(t) ==> r.model == matrixOf(t.position, t.scale, t.rotation)
    ensures !NeedsRecompute(t) ==> r.model == t.model
  {
    var model := if NeedsRecompute(t) then matrixOf(t.position, t.scale, t.rotation) else t.model;
    t.(model := model,
       lastPosition := Assign(t.lastPosition, t.position),
       lastRotation := Assign(t.lastRotation, t.rotation),
       lastScale := Assign(t.lastScale, t.scale))
  }

  /** With the intended assignment, a frame leaves the matrix current whenever
      it was current or in step with the last values before, and a second
      frame with no edits recomputes nothing. */
  lemma UpdateSettles<M>(t: Transform<M>, matrixOf: (Vector3D, Vector3D, Vector3D) -> M)
    requires Current(t, matrixOf) || Synced(t, matrixOf)
    ensures Current(SteppedCorrected(t, matrixOf), matrixOf) && Synced(SteppedCorrected(t, matrixOf), matrixOf)
    ensures !NeedsRecompute(SteppedCorrected(t, matrixOf))
    ensures SteppedCorrected(SteppedCorrected(t, matrixOf), matrixOf) == SteppedCorrected(t, matrixOf)
  {
    if !NeedsRecompute(t) {
      assert t.position == t.lastPosition && t.scale == t.lastScale && t.rotation == t.lastRotation;
    }
  }

  /** From a default transform, the intended `Initialise` settles at once. */
  lemma DefaultSettlesCorrected<M>(model: M, matrixOf: (Vector3D, Vector3D, Vector3D) -> M)
    ensures !NeedsRecompute(InitialisedCorrected(DefaultTransform(model), matrixOf))
    ensures SteppedCorrected(InitialisedCorrected(DefaultTransform(model), matrixOf), matrixOf)
      == InitialisedCorrected(DefaultTransform(model), matrixOf)
  {
  }

  /** `TransformSystem`: its `entities` set and the `Transform` components of
      the active world that `GetComponent<Transform>` hands it by reference. */
  class TransformSystem<M> {
    var entities: set<Entity>
    var transforms: map<Entity, Transform<M>>
    const calculateModelMatrix: (Vector3D, Vector3D, Vector3D) -> M

    constructor (calculateModelMatrix: (Vector3D, Vector3D, Vector3D) -> M)
      ensures entities == {} && transforms == map[]
      ensures this.calculateModelMatrix == calculateModelMatrix
    {
      entities := {};
      transforms := map[];
      this.calculateModelMatrix := calculateModelMatrix;
    }

    /** Recomputes every member's matrix and remembers its current values. */
    method Initialise()
      requires entities <= transforms.Keys
      modifies this
      ensures entities == old(entities) && transforms.Keys == old(transforms).Keys
      ensures forall e :: e in transforms && e in entities ==> transforms[e] == Initialised(old(transforms)[e], calculateModelMatrix)
      ensures forall e :: e in transforms && e !in entities ==> transforms[e] == old(transforms)[e]
    {
      var updated := transforms;
      var remaining := entities;
      while remaining != {}
        invariant remaining <= entities && updated.Keys == transforms.Keys
        invariant forall e :: e in updated && (e !in entities || e in remaining) ==> updated[e] == transforms[e]
        invariant forall e :: e in updated && e in entities && e !in remaining ==>
          updated[e] == Initialised(transforms[e], calculateModelMatrix)
        decreases remaining
      {
        var entity :| entity in remaining;
        updated := updated[entity := Initialised(updated[entity], calculateModelMatrix)];
        remaining := remaining - {entity};
      }
      transforms := updated;
    }

    /** One frame: each member is recomputed only when dirty, and its last*
        values are refreshed either way. */
    method Update()
      requires entities <= transforms.Keys
      modifies this
      ensures entities == old(entities) && transforms.Keys == old(transforms).Keys
      ensures forall e :: e in transforms && e in entities ==> transforms[e] == Stepped(old(transforms)[e], calculateModelMatrix)
      ensures forall e :: e in transforms && e !in entities ==> transforms[e] == old(transforms)[e]
    {
      var updated := transforms;
      var remaining := entities;
      while remaining != {}
        invariant remaining <= entities && updated.Keys == transforms.Keys
        invariant forall e :: e in updated && (e !in entities || e in remaining) ==> updated[e] == transforms[e]
        invariant forall e :: e in updated && e in entities && e !in remaining ==>
          updated[e] == Stepped(transforms[e], calculateModelMatrix)
        decreases remaining
      {
        var entity :| entity in remaining;
        updated := updated[entity := Stepped(updated[entity], calculateModelMatrix)];
        remaining := remaining - {entity};
      }
      transforms := updated;
    }
  }
}
