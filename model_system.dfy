/** `ModelSystem`: each frame, the model of every entity it tracks that is
    visible and has both a model and a shader goes to the graphics manager's
    render queue, in ascending entity order. */
module ModelSystems {
  import opened EcsTypes
  import opened RenderComponents
  import opened GraphicsManagers
  import opened SystemIteration

  /** The condition `Update` checks before submitting. */
  predicate Submits(c: ModelRenderComponent)
  {
    c.isVisible && c.model.Some? && c.shader.Some?
  }

  /** The item `SubmitModel` queues for a component. */
  function ItemOf(c: ModelRenderComponent): RenderItem
  {
    ModelItem(c.model, c.shader, c.transform, true)
  }

  /** Each qualifying entity is submitted once, no other entity is, and the
      items come in ascending entity order. */
  lemma UpdateSubmitsEachOnce(entities: set<Entity>, components: map<Entity, ModelRenderComponent>)
    requires entities <= components.Keys
    ensures var order := Ascending(entities);
      (forall i :: 0 <= i < |order| ==> order[i] in components) &&
      var q := Qualifying(order, components, Submits);
      (forall e :: e in q <==> e in entities && Submits(components[e])) && StrictlyAscending(q) &&
      SubmittedInOrder(entities, components, Submits, ItemOf) == Submitted(order, components, Submits, ItemOf) &&
      |Submitted(order, components, Submits, ItemOf)| == |q| &&
      forall i :: 0 <= i < |q| ==> Submitted(order, components, Submits, ItemOf)[i] == ItemOf(components[q[i]])
  {
    EachQualifyingOnce(entities, components, Submits);
  }

  /** Every submitted item passes `Submit`'s visibility check and is drawn
      by `Render`. */
  lemma SubmittedItemsDrawn(c: ModelRenderComponent)
    requires Submits(c)
    ensures IsVisible(ItemOf(c)) && Draws(ItemOf(c))
  {
  }

  class ModelSystem {
    var entities: set<Entity>

    constructor()
      ensures entities == {}
    {
      entities := {};
    }

    /** `Initialise` only reports success. */
    method Initialise() returns (ok: bool)
      ensures ok
    {
      return true;
    }

    /** `Update`: `components` is the active ECS manager's
        `ModelRenderComponent` storage, only read; every tracked entity has
        one, as the ECS guarantees. */
    method Update(components: map<Entity, ModelRenderComponent>, gfx: GraphicsManager)
      requires entities <= components.Keys
      modifies gfx
      ensures gfx.renderQueue == old(gfx.renderQueue) + SubmittedInOrder(entities, components, Submits, ItemOf)
      ensures gfx.currentCamera == old(gfx.currentCamera)
    {
      var remaining := entities;
      ghost var done: seq<Entity> := [];
      ghost var q0 := gfx.renderQueue;
      AscendingMembers(entities);
      while remaining != {}
        invariant remaining <= entities
        invariant forall i :: 0 <= i < |done| ==> done[i] in components
        invariant Ascending(entities) == done + Ascending(remaining)
        invariant gfx.renderQueue == q0 + Submitted(done, components, Submits, ItemOf)
        invariant gfx.currentCamera == old(gfx.currentCamera)
        decreases |remaining|
      {
        ghost var least := Least(remaining);
        var entity :| entity in remaining && forall x :: x in remaining ==> entity <= x;
        UpdateLoopStep(entities, done, remaining, entity, components, Submits, ItemOf, q0, gfx.renderQueue);
        SubmitIfDrawable(components[entity], gfx);
        done := done + [entity];
        remaining := remaining - {entity};
      }
      assert Ascending(remaining) == [];
      assert done == Ascending(entities);
    }

    /** The body of `Update`'s loop for one component. */
    static method SubmitIfDrawable(c: ModelRenderComponent, gfx: GraphicsManager)
      modifies gfx
      ensures gfx.renderQueue == old(gfx.renderQueue) + (if Submits(c) then [ItemOf(c)] else [])
      ensures gfx.currentCamera == old(gfx.currentCamera)
    {
      if c.isVisible && c.model.Some? && c.shader.Some? {
        gfx.SubmitModel(c.model, c.shader, c.transform);
      }
    }
  }
}
