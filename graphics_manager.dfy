/** `GraphicsManager`: a per-frame render queue and the current camera.
    `Render` sorts the queue by render order and draws the model items in
    it; what drawing does to the GPU is not modelled, so `Render` reports
    the items it would draw, in order. */
module GraphicsManagers {
  import opened Wrappers
  import opened Glm
  import opened RenderComponents

  /** A queued item: a `ModelRenderItem` (`SubmitModel`'s wrapper, visible
      by default) or a copy of a text or debug-draw component. */
  datatype RenderItem =
    | ModelItem(model: Ptr, shader: Ptr, transform: Mat4, isVisible: bool)
    | TextItem(text: TextRenderComponent)
    | DebugItem(debug: DebugDrawComponent)

  /** `ModelRenderItem::GetRenderOrder` is the constant 100; a component
      copy has its own `renderOrder`. */
  function RenderOrder(item: RenderItem): int
  {
    match item
    case ModelItem(_, _, _, _) => DEFAULT_RENDER_ORDER
    case TextItem(c) => c.renderOrder
    case DebugItem(c) => c.renderOrder
  }

  /** `IsVisible`: a model item needs its flag and both pointers; a
      component copy has its `isVisible` flag. */
  predicate IsVisible(item: RenderItem)
  {
    match item
    case ModelItem(model, shader, _, visible) => visible && model.Some? && shader.Some?
    case TextItem(c) => c.isVisible
    case DebugItem(c) => c.isVisible
  }

  /** The guard at the top of `RenderModel`, reached only by model items. */
  predicate Draws(item: RenderItem)
  {
    item.ModelItem? && item.isVisible && item.model.Some? && item.shader.Some?
  }

  ghost predicate SortedByOrder(q: seq<RenderItem>)
  {
    forall i, j :: 0 <= i < j < |q| ==> RenderOrder(q[i]) <= RenderOrder(q[j])
  }

  /** The items `Render` draws from a queue in that order. */
  function Drawn(q: seq<RenderItem>): (d: seq<RenderItem>)
    ensures |d| <= |q|
    ensures forall i :: 0 <= i < |d| ==> Draws(d[i])
  {
    if q == [] then []
    else
      var last := q[|q| - 1];
      Drawn(q[..|q| - 1]) + (if Draws(last) then [last] else [])
  }

  lemma {:induction false} DrawnConcat(a: seq<RenderItem>, b: seq<RenderItem>)
    ensures Drawn(a + b) == Drawn(a) + Drawn(b)
    decreases |b|
  {
    if b == [] {
      assert a + b == a;
    } else {
      var last := b[|b| - 1];
      assert (a + b)[..|a + b| - 1] == a + b[..|b| - 1];
      DrawnConcat(a, b[..|b| - 1]);
    }
  }

  /** A queue is its part before `k`, item `k` and its part after `k`. */
  lemma SplitAt(q: seq<RenderItem>, k: nat)
    requires k < |q|
    ensures q == q[..k] + [q[k]] + q[k + 1..]
    ensures multiset(q[..k] + q[k + 1..]) == multiset(q) - multiset{q[k]}
  {
    assert q[k..] == [q[k]] + q[k + 1..];
    assert q == q[..k] + q[k..];
  }

  /** Taking item `k` out of a queue takes it out of what is drawn. */
  lemma DrawnWithout(q: seq<RenderItem>, k: nat)
    requires k < |q|
    ensures multiset(Drawn(q)) == multiset(Drawn(q[..k] + q[k + 1..])) + multiset(Drawn([q[k]]))
  {
    var before, x, after := q[..k], q[k], q[k + 1..];
    SplitAt(q, k);
    DrawnConcat(before + [x], after);
    DrawnConcat(before, [x]);
    DrawnConcat(before, after);
    var db, dx, da := Drawn(before), Drawn([x]), Drawn(after);
    assert multiset(db + dx + da) == multiset(db) + multiset(dx) + multiset(da);
  }

  /** Which items get drawn does not depend on the queue's order: any
      permutation draws the same items, each as often. */
  lemma {:induction false} DrawnPermutation(q1: seq<RenderItem>, q2: seq<RenderItem>)
    requires multiset(q1) == multiset(q2)
    ensures multiset(Drawn(q1)) == multiset(Drawn(q2))
    decreases |q1|
  {
    if q1 != [] {
      var front := q1[..|q1| - 1];
      var x := q1[|q1| - 1];
      assert q1 == front + [x];
      assert x in multiset(q2);
      var k :| 0 <= k < |q2| && q2[k] == x;
      var rest := q2[..k] + q2[k + 1..];
      SameWithoutOne(q1, q2, k);
      DrawnPermutation(front, rest);
      DrawnWithout(q2, k);
      DrawnConcat(front, [x]);
      assert multiset(Drawn(q1)) == multiset(Drawn(front)) + multiset(Drawn([x]));
    }
  }

  /** Taking the last item out of one queue and an equal item out of a
      permutation of it leaves permutations of each other. */
  lemma SameWithoutOne(q1: seq<RenderItem>, q2: seq<RenderItem>, k: nat)
    requires q1 != [] && multiset(q1) == multiset(q2)
    requires k < |q2| && q2[k] == q1[|q1| - 1]
    ensures multiset(q2[..k] + q2[k + 1..]) == multiset(q1[..|q1| - 1])
  {
    var front, x := q1[..|q1| - 1], q1[|q1| - 1];
    assert q1 == front + [x];
    assert multiset(q1) == multiset(front) + multiset{x};
    SplitAt(q2, k);
  }

  /** One insertion step of the sort: `x` goes before the first item of a
      higher render order. */
  function Insert(x: RenderItem, q: seq<RenderItem>): (r: seq<RenderItem>)
    ensures multiset(r) == multiset(q) + multiset{x}
    ensures |r| == |q| + 1 && r[0] == (if q == [] || RenderOrder(x) <= RenderOrder(q[0]) then x else q[0])
  {
    if q == [] || RenderOrder(x) <= RenderOrder(q[0]) then [x] + q
    else
      assert q == [q[0]] + q[1..];
      [q[0]] + Insert(x, q[1..])
  }

  /** Inserting into a sorted queue keeps it sorted. */
  lemma {:induction false} InsertSorted(x: RenderItem, q: seq<RenderItem>)
    requires SortedByOrder(q)
    ensures SortedByOrder(Insert(x, q))
  {
    if q != [] && RenderOrder(x) > RenderOrder(q[0]) {
      var tail := q[1..];
      assert SortedByOrder(tail);
      InsertSorted(x, tail);
      var r := Insert(x, q);
      var inserted := Insert(x, tail);
      assert r == [q[0]] + inserted;
      assert RenderOrder(q[0]) <= RenderOrder(inserted[0]);
    }
  }

  /** Every item of the queue is visible: `Submit` is the only way in. */
  ghost predicate AllVisible(q: seq<RenderItem>)
  {
    forall i :: 0 <= i < |q| ==> IsVisible(q[i])
  }

  class GraphicsManager {
    var renderQueue: seq<RenderItem>
    var currentCamera: Ptr

    constructor()
      ensures renderQueue == [] && currentCamera == None
    {
      renderQueue := [];
      currentCamera := None;
    }

    /** `Initialize` does nothing and reports failure. */
    method Initialize(width: int, height: int) returns (ok: bool)
      ensures !ok
    {
      return false;
    }

    method Shutdown()
      modifies this
      ensures renderQueue == [] && currentCamera == None
    {
      renderQueue := [];
      currentCamera := None;
    }

    method BeginFrame()
      modifies this
      ensures renderQueue == [] && currentCamera == old(currentCamera)
    {
      renderQueue := [];
    }

    method SetCamera(camera: Ptr)
      modifies this
      ensures currentCamera == camera && renderQueue == old(renderQueue)
    {
      currentCamera := camera;
    }

    /** `Submit`: a non-null, visible item is appended; anything else is
        dropped. */
    method Submit(item: Option<RenderItem>)
      modifies this
      ensures item.Some? && IsVisible(item.value) ==> renderQueue == old(renderQueue) + [item.value]
      ensures !(item.Some? && IsVisible(item.value)) ==> renderQueue == old(renderQueue)
      ensures currentCamera == old(currentCamera)
      ensures old(AllVisible(renderQueue)) ==> AllVisible(renderQueue)
    {
      if item.Some? && IsVisible(item.value) {
        renderQueue := renderQueue + [item.value];
      }
    }

    /** `SubmitModel`: only with both a model and a shader. */
    method SubmitModel(model: Ptr, shader: Ptr, transform: Mat4)
      modifies this
      ensures model.Some? && shader.Some? ==> renderQueue == old(renderQueue) + [ModelItem(model, shader, transform, true)]
      ensures !(model.Some? && shader.Some?) ==> renderQueue == old(renderQueue)
      ensures currentCamera == old(currentCamera)
      ensures old(AllVisible(renderQueue)) ==> AllVisible(renderQueue)
    {
      if model.Some? && shader.Some? {
        Submit(Some(ModelItem(model, shader, transform, true)));
      }
    }

    /** `Render`: nothing without a camera; otherwise the queue is sorted in
        place by ascending render order (a permutation; the order of equal
        orders is unspecified) and kept, and the model items that pass the
        guard are drawn in the sorted order. */
    method Render() returns (drawn: seq<RenderItem>)
      modifies this
      ensures currentCamera == old(currentCamera)
      ensures old(currentCamera).None? ==> renderQueue == old(renderQueue) && drawn == []
      ensures old(currentCamera).Some? ==>
        SortedByOrder(renderQueue) && multiset(renderQueue) == multiset(old(renderQueue)) &&
        drawn == Drawn(renderQueue)
      ensures multiset(drawn) <= multiset(Drawn(old(renderQueue)))
    {
      if currentCamera.None? {
        return [];
      }
      var sorted := SortByOrder(renderQueue);
      DrawnPermutation(sorted, renderQueue);
      renderQueue := sorted;
      drawn := DrawAll(sorted);
    }

    /** The sort, as repeated insertion. */
    static method SortByOrder(q: seq<RenderItem>) returns (r: seq<RenderItem>)
      ensures SortedByOrder(r) && multiset(r) == multiset(q)
    {
      r := [];
      for i := 0 to |q|
        invariant SortedByOrder(r) && multiset(r) == multiset(q[..i])
      {
        assert q[..i + 1] == q[..i] + [q[i]];
        InsertSorted(q[i], r);
        r := Insert(q[i], r);
      }
      assert q[..|q|] == q;
    }

    /** The drawing loop: each item that is a model item passing the guard. */
    static method DrawAll(q: seq<RenderItem>) returns (drawn: seq<RenderItem>)
      ensures drawn == Drawn(q)
    {
      drawn := [];
      for i := 0 to |q|
        invariant drawn == Drawn(q[..i])
      {
        assert q[..i + 1][..i] == q[..i];
        if Draws(q[i]) {
          drawn := drawn + [q[i]];
        }
      }
      assert q[..|q|] == q;
    }
  }
}
