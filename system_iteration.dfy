/** What a render system's `Update` hands on: walking its entities in a
    given order, the entities whose component passes a filter, and the item
    made from each of their components. */
module SystemIteration {
  import opened EcsTypes

  /** The entities of `order`, in that order, whose component qualifies. */
  function Qualifying<C>(order: seq<Entity>, components: map<Entity, C>, qualifies: C -> bool): (r: seq<Entity>)
    requires forall i :: 0 <= i < |order| ==> order[i] in components
    ensures |r| <= |order|
    ensures forall i :: 0 <= i < |r| ==> r[i] in components && qualifies(components[r[i]])
  {
    if order == [] then []
    else
      var last := order[|order| - 1];
      Qualifying(order[..|order| - 1], components, qualifies) + (if qualifies(components[last]) then [last] else [])
  }

  /** The items submitted for `order`: one per qualifying entity, built
      from its component, in order. */
  function Submitted<C, T>(order: seq<Entity>, components: map<Entity, C>, qualifies: C -> bool, item: C -> T): (r: seq<T>)
    requires forall i :: 0 <= i < |order| ==> order[i] in components
    ensures |r| == |Qualifying(order, components, qualifies)|
    ensures forall i :: 0 <= i < |r| ==> r[i] == item(components[Qualifying(order, components, qualifies)[i]])
  {
    if order == [] then []
    else
      var last := order[|order| - 1];
      var front := order[..|order| - 1];
      var r := Submitted(front, components, qualifies, item) + (if qualifies(components[last]) then [item(components[last])] else []);
      assert Qualifying(order, components, qualifies) ==
             Qualifying(front, components, qualifies) + (if qualifies(components[last]) then [last] else []);
      r
  }

  /** An entity is listed iff it is in the order and its component
      qualifies. */
  lemma {:induction false} QualifyingMembers<C>(order: seq<Entity>, components: map<Entity, C>, qualifies: C -> bool)
    requires forall i :: 0 <= i < |order| ==> order[i] in components
    ensures forall e :: e in Qualifying(order, components, qualifies) <==> e in order && qualifies(components[e])
  {
    if order != [] {
      var front := order[..|order| - 1];
      var last := order[|order| - 1];
      QualifyingMembers(front, components, qualifies);
      assert order == front + [last];
      forall e
        ensures e in Qualifying(order, components, qualifies) <==> e in order && qualifies(components[e])
      {
        assert e in order <==> e in front || e == last;
      }
    }
  }

  /** Filtering a strictly ascending order keeps it strictly ascending, so
      no entity is listed twice. */
  lemma {:induction false} QualifyingAscending<C>(order: seq<Entity>, components: map<Entity, C>, qualifies: C -> bool)
    requires forall i :: 0 <= i < |order| ==> order[i] in components
    requires StrictlyAscending(order)
    ensures StrictlyAscending(Qualifying(order, components, qualifies))
  {
    if order != [] {
      var front := order[..|order| - 1];
      var last := order[|order| - 1];
      QualifyingAscending(front, components, qualifies);
      QualifyingMembers(front, components, qualifies);
      var q := Qualifying(front, components, qualifies);
      forall k | 0 <= k < |q|
        ensures q[k] < last
      {
        assert q[k] in front;
        var m :| 0 <= m < |front| && front[m] == q[k];
        assert front[m] == order[m];
      }
      var all := Qualifying(order, components, qualifies);
      assert all == q + (if qualifies(components[last]) then [last] else []);
      forall i, j | 0 <= i < j < |all|
        ensures all[i] < all[j]
      {
        if j < |q| {
          assert all[i] == q[i] && all[j] == q[j];
        } else {
          assert all[i] == q[i] && all[j] == last;
        }
      }
    }
  }

  /** Walking a set in ascending order: every entity whose component
      qualifies is listed exactly once, in ascending order, and no other. */
  lemma EachQualifyingOnce<C>(entities: set<Entity>, components: map<Entity, C>, qualifies: C -> bool)
    requires entities <= components.Keys
    ensures var order := Ascending(entities);
      (forall i :: 0 <= i < |order| ==> order[i] in components) &&
      var q := Qualifying(order, components, qualifies);
      (forall e :: e in q <==> e in entities && qualifies(components[e])) &&
      StrictlyAscending(q)
  {
    AscendingMembers(entities);
    AscendingSorted(entities);
    var order := Ascending(entities);
    QualifyingMembers(order, components, qualifies);
    QualifyingAscending(order, components, qualifies);
  }

  /** One step of an `Update` loop: an entity appended to the walk adds its
      item exactly when its component qualifies. */
  lemma SubmittedStep<C, T>(done: seq<Entity>, e: Entity, components: map<Entity, C>, qualifies: C -> bool, item: C -> T)
    requires forall i :: 0 <= i < |done| ==> done[i] in components
    requires e in components
    ensures forall i :: 0 <= i < |done + [e]| ==> (done + [e])[i] in components
    ensures Submitted(done + [e], components, qualifies, item) ==
            Submitted(done, components, qualifies, item) + (if qualifies(components[e]) then [item(components[e])] else [])
  {
    assert (done + [e])[..|done|] == done;
  }

  /** One iteration of an `Update` loop over a set: taking its least
      entity out of the entities still to visit extends the ascending walk
      by that entity and the submitted items by that entity's step. */
  lemma UpdateLoopStep<C, T>(entities: set<Entity>, done: seq<Entity>, remaining: set<Entity>, e: Entity,
                             components: map<Entity, C>, qualifies: C -> bool, item: C -> T,
                             q0: seq<T>, queue: seq<T>)
    requires forall i :: 0 <= i < |done| ==> done[i] in components
    requires e in remaining && e in components
    requires forall x :: x in remaining ==> e <= x
    requires Ascending(entities) == done + Ascending(remaining)
    requires queue == q0 + Submitted(done, components, qualifies, item)
    ensures forall i :: 0 <= i < |done + [e]| ==> (done + [e])[i] in components
    ensures Ascending(entities) == (done + [e]) + Ascending(remaining - {e})
    ensures queue + (if qualifies(components[e]) then [item(components[e])] else []) ==
            q0 + Submitted(done + [e], components, qualifies, item)
  {
    AscendingStep(remaining, e);
    AppendAssociative(done, [e], Ascending(remaining - {e}));
    SubmittedStep(done, e, components, qualifies, item);
    AppendAssociative(q0, Submitted(done, components, qualifies, item),
                      if qualifies(components[e]) then [item(components[e])] else []);
  }

  /** What an `Update` over the entity set `entities` submits: `Submitted`
      over the set's ascending order. */
  ghost function SubmittedInOrder<C, T>(entities: set<Entity>, components: map<Entity, C>, qualifies: C -> bool, item: C -> T): seq<T>
    requires entities <= components.Keys
  {
    AscendingMembers(entities);
    Submitted(Ascending(entities), components, qualifies, item)
  }
}
