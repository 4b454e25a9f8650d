/** `TextRenderingSystem`: each frame, a copy of the text component of every
    entity it tracks that is visible and valid goes to the graphics
    manager's render queue, in ascending entity order. */
module TextRenderingSystems {
  import opened Wrappers
  import opened EcsTypes
  import opened RenderComponents
  import opened TextUtils
  import opened GraphicsManagers
  import opened SystemIteration

  /** The condition `Update` checks before submitting. */
  predicate Submits(c: TextRenderComponent)
  {
    c.isVisible && IsValid(c)
  }

  /** The copy `Update` hands to `Submit`. */
  function ItemOf(c: TextRenderComponent): RenderItem
  {
    TextItem(c)
  }

  /** Each visible, valid text entity is submitted once, no other entity is,
      the items come in ascending entity order and each is a copy of its
      entity's component. */
  lemma UpdateSubmitsEachOnce(entities: set<Entity>, components: map<Entity, TextRenderComponent>)
    requires entities <= components.Keys
    ensures var order := Ascending(entities);
      (forall i :: 0 <= i < |order| ==> order[i] in components) &&
      var q := Qualifying(order, components, Submits);
      (forall e :: e in q <==> e in entities && components[e].isVisible && IsValid(components[e])) &&
      StrictlyAscending(q) &&
      SubmittedInOrder(entities, components, Submits, ItemOf) == Submitted(order, components, Submits, ItemOf) &&
      |Submitted(order, components, Submits, ItemOf)| == |q| &&
      forall i :: 0 <= i < |q| ==> Submitted(order, components, Submits, ItemOf)[i] == TextItem(components[q[i]])
  {
    EachQualifyingOnce(entities, components, Submits);
  }

  /** A submitted copy passes `Submit`'s visibility check but is never drawn
      by `Render`, whose drawing step handles model items only. */
  lemma SubmittedTextNotDrawn(c: TextRenderComponent)
    requires Submits(c)
    ensures IsVisible(ItemOf(c)) && !Draws(ItemOf(c))
    ensures RenderOrder(ItemOf(c)) == c.renderOrder
  {
  }

  class TextRenderingSystem {
    var entities: set<Entity>

    constructor()
      ensures entities == {}
    {
      entities := {};
    }

    /** `Initialise` only reports success. */
    method Initialise() returns (ok: bool)
      ensures ok
    {
      return true;
    }

    /** `Update`: `components` is the active ECS manager's
        `TextRenderComponent` storage, only read; every tracked entity has
        one, as the ECS guarantees. */
    method Update(components: map<Entity, TextRenderComponent>, gfx: GraphicsManager)
      requires entities <= components.Keys
      modifies gfx
      ensures gfx.renderQueue == old(gfx.renderQueue) + SubmittedInOrder(entities, components, Submits, ItemOf)
      ensures gfx.currentCamera == old(gfx.currentCamera)
    {
      var remaining := entities;
      ghost var done: seq<Entity> := [];
      ghost var q0 := gfx.renderQueue;
      AscendingMembers(entities);
      while remaining != {}
        invariant remaining <= entities
        invariant forall i :: 0 <= i < |done| ==> done[i] in components
        invariant Ascending(entities) == done + Ascending(remaining)
        invariant gfx.renderQueue == q0 + Submitted(done, components, Submits, ItemOf)
        invariant gfx.currentCamera == old(gfx.currentCamera)
        decreases |remaining|
      {
        ghost var least := Least(remaining);
        var entity :| entity in remaining && forall x :: x in remaining ==> entity <= x;
        UpdateLoopStep(entities, done, remaining, entity, components, Submits, ItemOf, q0, gfx.renderQueue);
        SubmitIfDrawable(components[entity], gfx);
        done := done + [entity];
        remaining := remaining - {entity};
      }
      assert Ascending(remaining) == [];
      assert done == Ascending(entities);
    }

    /** The body of `Update`'s loop for one component. */
    static method SubmitIfDrawable(c: TextRenderComponent, gfx: GraphicsManager)
      modifies gfx
      ensures gfx.renderQueue == old(gfx.renderQueue) + (if Submits(c) then [ItemOf(c)] else [])
      ensures gfx.currentCamera == old(gfx.currentCamera)
    {
      if c.isVisible && IsValid(c) {
        gfx.Submit(Some(TextItem(c)));
      }
    }
  }
}
