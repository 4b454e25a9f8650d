/** `DebugDrawSystem`: the shared wireframe geometry (a cube, a sphere and a
    line) it builds once, and each frame the debug-draw components of its
    entities, which it fills in with that geometry on first use, submits to
    the graphics manager, and then ages, dropping timed commands that
    expire. The GPU objects are handles and what they upload is the data
    kept with them; the sphere's points on the unit sphere are a parameter,
    as the trigonometry is floating point. */
module DebugDrawSystems {
  import opened Wrappers
  import opened Glm
  import opened EcsTypes
  import opened RenderComponents
  import opened GraphicsManagers
  import opened SystemIteration

  /** One primitive: its vertex array, the vertices its vertex buffer holds,
      the indices its element buffer holds (none for the line, which has no
      element buffer) and the index count it records. */
  datatype GeometryData = GeometryData(vao: Ptr, vertices: seq<Vec3>, indices: seq<nat>, indexCount: nat)

  /** A `GeometryData` before anything is created. */
  const NO_GEOMETRY := GeometryData(None, [], [], 0)

  /** The fixed time step `Update` ages commands by. */
  const FRAME_TIME: real := 0.016

  // ---------------------------------------------------------------- cube

  /** The cube's corners: the bottom face, then the top face. */
  const CUBE_VERTICES: seq<Vec3> := [
    Vec3(-0.5, -0.5, -0.5), Vec3(0.5, -0.5, -0.5), Vec3(0.5, -0.5, 0.5), Vec3(-0.5, -0.5, 0.5),
    Vec3(-0.5, 0.5, -0.5), Vec3(0.5, 0.5, -0.5), Vec3(0.5, 0.5, 0.5), Vec3(-0.5, 0.5, 0.5)]

  /** Line pairs: the bottom face, the top face, the vertical edges. */
  const CUBE_INDICES: seq<nat> := [
    0, 1, 1, 2, 2, 3, 3, 0,
    4, 5, 5, 6, 6, 7, 7, 4,
    0, 4, 1, 5, 2, 6, 3, 7]

  /** Two corners of the unit cube are joined by an edge exactly when they
      differ in one coordinate. */
  predicate CubeEdge(a: Vec3, b: Vec3)
  {
    (if a.x == b.x then 0 else 1) + (if a.y == b.y then 0 else 1) + (if a.z == b.z then 0 else 1) == 1
  }

  /** The cube's indices are twelve line pairs over its eight corners, each
      pair an edge of the cube. */
  lemma CubeEdges()
    ensures |CUBE_VERTICES| == 8 && |CUBE_INDICES| == 24
    ensures forall i :: 0 <= i < |CUBE_INDICES| ==> CUBE_INDICES[i] < |CUBE_VERTICES|
    ensures forall k :: 0 <= k < 12 ==> CubeEdge(CUBE_VERTICES[CUBE_INDICES[2 * k]], CUBE_VERTICES[CUBE_INDICES[2 * k + 1]])
  {
    forall k | 0 <= k < 12
      ensures CubeEdge(CUBE_VERTICES[CUBE_INDICES[2 * k]], CUBE_VERTICES[CUBE_INDICES[2 * k + 1]])
    {
      assert k == 0 || k == 1 || k == 2 || k == 3 || k == 4 || k == 5 ||
             k == 6 || k == 7 || k == 8 || k == 9 || k == 10 || k == 11;
    }
  }

  /** Every corner of the cube ends one of its lines. */
  lemma CubeCorners()
    ensures forall v :: 0 <= v < |CUBE_VERTICES| ==> v in CUBE_INDICES
  {
    forall v | 0 <= v < |CUBE_VERTICES|
      ensures v in CUBE_INDICES
    {
      assert v == 0 || v == 1 || v == 2 || v == 3 || v == 4 || v == 5 || v == 6 || v == 7;
      assert CUBE_INDICES[16 + 2 * (v % 4) + v / 4] == v;
    }
  }

  /** What `CreateCubeGeometry` leaves behind, given the vertex array it
      allocates. */
  function CubeGeometry(vao: Handle): (g: GeometryData)
    ensures g.vao == Some(vao) && g.indexCount == |g.indices| == 24
    ensures g.vertices == CUBE_VERTICES && g.indices == CUBE_INDICES
  {
    GeometryData(Some(vao), CUBE_VERTICES, CUBE_INDICES, |CUBE_INDICES|)
  }

  // -------------------------------------------------------------- sphere

  const SEGMENTS: nat := 16
  const RINGS: nat := 8
  /** Vertices per ring: a segment boundary at both 0 and 2 pi. */
  const ROW: nat := SEGMENTS + 1

  /** Vertex `ring * ROW + segment` of the sphere: the point at those
      angles, from `pointOn`, at radius 0.5. */
  ghost predicate SphereVerticesOf(vertices: seq<Vec3>, pointOn: (nat, nat) -> Vec3)
  {
    |vertices| == (RINGS + 1) * ROW &&
    forall k :: 0 <= k < |vertices| ==> vertices[k] == Scale(pointOn(k / ROW, k % ROW), 0.5)
  }

  /** The number of indices a cell of the grid adds: its horizontal line,
      and its vertical line unless it is on the last ring. */
  function CellLength(ring: nat): nat
  {
    if ring < RINGS - 1 then 4 else 2
  }

  /** Where the indices of ring `ring` start (for `ring == RINGS`, the end
      of the list). */
  function RingStart(ring: nat): nat
  {
    if ring < RINGS then 64 * ring else 480
  }

  /** Where the indices of a cell start: the loops visit the cells ring by
      ring and segment by segment. */
  function CellStart(ring: nat, segment: nat): nat
  {
    if ring < RINGS - 1 then 64 * ring + 4 * segment else 448 + 2 * segment
  }

  /** Index `slot` of a cell: the horizontal line is `current, current + 1`,
      the vertical line `current, next`, where `current = ring * ROW + segment`
      and `next = current + SEGMENTS + 1`. */
  function CellIndex(ring: nat, segment: nat, slot: nat): nat
  {
    var current := ring * 17 + segment;
    if slot == 1 then current + 1 else if slot == 3 then current + 17 else current
  }

  /** The list holds the indices of cell `(ring, segment)` in their place. */
  ghost predicate CellOk(s: seq<nat>, ring: nat, segment: nat)
  {
    CellStart(ring, segment) + CellLength(ring) <= |s| &&
    forall slot :: 0 <= slot < CellLength(ring) ==> s[CellStart(ring, segment) + slot] == CellIndex(ring, segment, slot)
  }

  /** The complete index list of the sphere: every cell in its place. */
  ghost predicate SphereIndicesOf(s: seq<nat>)
  {
    |s| == 480 && forall ring, segment :: 0 <= ring < RINGS && 0 <= segment < SEGMENTS ==> CellOk(s, ring, segment)
  }

  /** A cell in place stays in place when the list grows. */
  lemma CellOkExtended(s: seq<nat>, t: seq<nat>, ring: nat, segment: nat)
    requires CellOk(s, ring, segment) && |s| <= |t| && t[..|s|] == s
    ensures CellOk(t, ring, segment)
  {
    forall slot | 0 <= slot < CellLength(ring)
      ensures t[CellStart(ring, segment) + slot] == CellIndex(ring, segment, slot)
    {
      assert t[CellStart(ring, segment) + slot] == t[..|s|][CellStart(ring, segment) + slot];
    }
  }

  /** Every position of the list lies in exactly the cell the loops were
      at when they pushed it. */
  lemma CellOf(p: nat) returns (ring: nat, segment: nat, slot: nat)
    requires p < 480
    ensures ring < RINGS && segment < SEGMENTS && slot < CellLength(ring)
    ensures p == CellStart(ring, segment) + slot
  {
    if p < 448 {
      ring, segment, slot := p / 64, (p % 64) / 4, p % 4;
    } else {
      ring, segment, slot := 7, (p - 448) / 2, (p - 448) % 2;
    }
  }

  /** A horizontal line to the next vertex of the same ring, or a vertical
      line to the same segment of the next ring. */
  predicate SphereEdge(a: nat, b: nat)
  {
    (b == a + 1 && a % ROW < SEGMENTS) || b == a + ROW
  }

  /** A flat index list read as line pairs, each a sphere edge. */
  predicate SphereEdges(s: seq<nat>)
  {
    |s| % 2 == 0 && forall k :: 0 <= k < |s| / 2 ==> SphereEdge(s[2 * k], s[2 * k + 1])
  }

  predicate AllBelow(s: seq<nat>, n: nat)
  {
    forall i :: 0 <= i < |s| ==> s[i] < n
  }

  /** The sphere's 480 indices are line pairs along its grid, horizontal
      within a ring or vertical to the next ring. Every index is below
      `RINGS * ROW`, so it names one of the `(RINGS + 1) * ROW` vertices,
      and none names a vertex of the last ring (the south pole): no
      vertical line runs from the last ring but one to it. */
  lemma SphereIsWireframe(s: seq<nat>)
    requires SphereIndicesOf(s)
    ensures SphereEdges(s)
    ensures AllBelow(s, RINGS * ROW) && RINGS * ROW < (RINGS + 1) * ROW
  {
    forall k | 0 <= k < |s| / 2
      ensures SphereEdge(s[2 * k], s[2 * k + 1])
    {
      var ring, segment, slot := CellOf(2 * k);
      assert CellOk(s, ring, segment);
      assert slot == 0 || slot == 2;
      assert s[2 * k] == CellIndex(ring, segment, slot) && s[2 * k + 1] == CellIndex(ring, segment, slot + 1);
      var current := ring * 17 + segment;
      assert current % ROW == segment;
    }
    forall p | 0 <= p < |s|
      ensures s[p] < RINGS * ROW
    {
      var ring, segment, slot := CellOf(p);
      assert CellOk(s, ring, segment);
      assert s[p] == CellIndex(ring, segment, slot);
    }
  }

  /** The vertex loops of `CreateSphereGeometry`. */
  method SphereVertices(pointOn: (nat, nat) -> Vec3) returns (vertices: seq<Vec3>)
    ensures SphereVerticesOf(vertices, pointOn)
  {
    vertices := [];
    for ring := 0 to RINGS + 1
      invariant |vertices| == ring * ROW
      invariant forall k :: 0 <= k < |vertices| ==> vertices[k] == Scale(pointOn(k / ROW, k % ROW), 0.5)
    {
      for segment := 0 to SEGMENTS + 1
        invariant |vertices| == ring * ROW + segment
        invariant forall k :: 0 <= k < |vertices| ==> vertices[k] == Scale(pointOn(k / ROW, k % ROW), 0.5)
      {
        ghost var k := |vertices|;
        assert k / ROW == ring && k % ROW == segment;
        vertices := vertices + [Scale(pointOn(ring, segment), 0.5)];
      }
    }
  }

  /** The index loops of `CreateSphereGeometry`. */
  method SphereIndexList() returns (indices: seq<nat>)
    ensures SphereIndicesOf(indices)
  {
    indices := [];
    for ring := 0 to RINGS
      invariant |indices| == RingStart(ring)
      invariant forall r, g :: 0 <= r < ring && 0 <= g < SEGMENTS ==> CellOk(indices, r, g)
    {
      for segment := 0 to SEGMENTS
        invariant |indices| == CellStart(ring, segment)
        invariant forall r, g :: 0 <= r < RINGS && 0 <= g < SEGMENTS && (r < ring || (r == ring && g < segment)) ==>
                    CellOk(indices, r, g)
      {
        var current := ring * (SEGMENTS + 1) + segment;
        var next := current + SEGMENTS + 1;
        var before := indices;
        indices := indices + [current, current + 1];
        if ring < RINGS - 1 {
          indices := indices + [current, next];
        }
        forall r, g | 0 <= r < RINGS && 0 <= g < SEGMENTS && (r < ring || (r == ring && g < segment))
          ensures CellOk(indices, r, g)
        {
          CellOkExtended(before, indices, r, g);
        }
      }
    }
  }

  // ---------------------------------------------------------------- line

  /** What `CreateLineGeometry` leaves behind: the unit segment along x,
      with no element buffer and the fixed index count 2. */
  function LineGeometry(vao: Handle): (g: GeometryData)
    ensures g.vao == Some(vao) && g.indexCount == |g.vertices| == 2 && g.indices == []
    ensures g.vertices[0] == Vec3(0.0, 0.0, 0.0) && g.vertices[1] == Vec3(1.0, 0.0, 0.0)
  {
    GeometryData(Some(vao), [Vec3(0.0, 0.0, 0.0), Vec3(1.0, 0.0, 0.0)], [], 2)
  }

  // ------------------------------------------------------- per-frame work

  /** The check at the top of `Update`'s loop: a component is handled only
      when visible and with commands. */
  predicate Visited(c: DebugDrawComponent)
  {
    c.isVisible && HasCommands(c)
  }

  /** Setting up the shared geometry: only a component with no cube vertex
      array yet takes the system's shader, vertex arrays and index counts. */
  function Prepared(c: DebugDrawComponent, shader: Ptr, cube: GeometryData, sphere: GeometryData,
                    line: GeometryData): (r: DebugDrawComponent)
    ensures c.cubeVAO.Some? ==> r == c
    ensures c.cubeVAO.None? ==>
      r.shader == shader && r.cubeVAO == cube.vao && r.sphereVAO == sphere.vao && r.lineVAO == line.vao &&
      r.cubeIndexCount == cube.indexCount && r.sphereIndexCount == sphere.indexCount
    ensures r.isVisible == c.isVisible && r.renderOrder == c.renderOrder && r.drawCommands == c.drawCommands
  {
    if c.cubeVAO.None? then
      c.(shader := shader, cubeVAO := cube.vao, sphereVAO := sphere.vao, lineVAO := line.vao,
         cubeIndexCount := cube.indexCount, sphereIndexCount := sphere.indexCount)
    else c
  }

  /** Setting up twice is setting up once, whether or not the system has
      created its geometry. */
  lemma PreparedIdempotent(c: DebugDrawComponent, shader: Ptr, cube: GeometryData, sphere: GeometryData, line: GeometryData)
    ensures Prepared(Prepared(c, shader, cube, sphere, line), shader, cube, sphere, line) == Prepared(c, shader, cube, sphere, line)
  {
  }

  /** The copy `Update` submits of a component, as stored. */
  function CopyOf(c: DebugDrawComponent): RenderItem
  {
    DebugItem(c)
  }

  /** The component storage after `Update`'s loop: each visited entity's
      component set up, every other component as it was. */
  function PreparedAll(components: map<Entity, DebugDrawComponent>, entities: set<Entity>, shader: Ptr,
                       cube: GeometryData, sphere: GeometryData, line: GeometryData): (r: map<Entity, DebugDrawComponent>)
    ensures r.Keys == components.Keys
  {
    map e | e in components ::
      if e in entities && Visited(components[e]) then Prepared(components[e], shader, cube, sphere, line) else components[e]
  }

  /** The `remove_if` predicate of `UpdateTimedCommands` for one command,
      with its side effect: a timed command (positive duration) loses `dt`
      and is removed once its duration is no longer positive; a permanent
      command is kept as it is. */
  function AgedCommand(cmd: DebugDrawData, dt: real): (r: Option<DebugDrawData>)
    ensures r.None? <==> 0.0 < cmd.duration && cmd.duration - dt <= 0.0
    ensures r.Some? ==> r.value.(duration := cmd.duration) == cmd
    ensures r.Some? && cmd.duration <= 0.0 ==> r.value == cmd
    ensures r.Some? && cmd.duration > 0.0 ==> r.value.duration == cmd.duration - dt > 0.0
  {
    if cmd.duration > 0.0 then
      var aged := cmd.(duration := cmd.duration - dt);
      if aged.duration <= 0.0 then None else Some(aged)
    else Some(cmd)
  }

  /** `erase(remove_if(...))`: the survivors, aged, in their old order. */
  function Aged(cmds: seq<DebugDrawData>, dt: real): (r: seq<DebugDrawData>)
    ensures |r| <= |cmds|
  {
    if cmds == [] then []
    else
      var last := AgedCommand(cmds[|cmds| - 1], dt);
      Aged(cmds[..|cmds| - 1], dt) + (if last.Some? then [last.value] else [])
  }

  /** The permanent commands of a list, in order. */
  function Permanent(cmds: seq<DebugDrawData>): (r: seq<DebugDrawData>)
    ensures |r| <= |cmds|
    ensures forall i :: 0 <= i < |r| ==> r[i].duration <= 0.0
  {
    if cmds == [] then []
    else
      var last := cmds[|cmds| - 1];
      Permanent(cmds[..|cmds| - 1]) + (if last.duration <= 0.0 then [last] else [])
  }

  /** Aging drops no permanent command and changes none, keeps their order,
      and turns no timed command into a permanent one. */
  lemma {:induction false} AgedKeepsPermanent(cmds: seq<DebugDrawData>, dt: real)
    ensures Permanent(Aged(cmds, dt)) == Permanent(cmds)
  {
    if cmds != [] {
      var front := cmds[..|cmds| - 1];
      var last := AgedCommand(cmds[|cmds| - 1], dt);
      var tail := if last.Some? then [last.value] else [];
      AgedKeepsPermanent(front, dt);
      PermanentConcat(Aged(front, dt), tail);
    }
  }

  lemma {:induction false} PermanentConcat(a: seq<DebugDrawData>, b: seq<DebugDrawData>)
    ensures Permanent(a + b) == Permanent(a) + Permanent(b)
    decreases |b|
  {
    if b == [] {
      assert a + b == a;
    } else {
      assert (a + b)[..|a + b| - 1] == a + b[..|b| - 1];
      PermanentConcat(a, b[..|b| - 1]);
    }
  }

  /** A step at least as long as every timed command leaves only the
      permanent ones. */
  lemma {:induction false} AgedPastEveryTimer(cmds: seq<DebugDrawData>, dt: real)
    requires forall i :: 0 <= i < |cmds| ==> cmds[i].duration <= dt
    ensures Aged(cmds, dt) == Permanent(cmds)
  {
    if cmds != [] {
      AgedPastEveryTimer(cmds[..|cmds| - 1], dt);
    }
  }

  /** A timed command with more than `dt` left survives one step, `dt`
      shorter. */
  lemma AgedTimedSurvives(cmds: seq<DebugDrawData>, dt: real, i: nat)
    requires i < |cmds| && cmds[i].duration > dt && cmds[i].duration > 0.0
    ensures cmds[i].(duration := cmds[i].duration - dt) in Aged(cmds, dt)
  {
    AgedContents(cmds, dt);
    assert AgedCommand(cmds[i], dt) == Some(cmds[i].(duration := cmds[i].duration - dt));
  }

  /** Every command of `Aged(cmds, dt)` is the aged form of one of `cmds`,
      and every surviving command's aged form is in it. */
  lemma {:induction false} AgedContents(cmds: seq<DebugDrawData>, dt: real)
    ensures forall d :: d in Aged(cmds, dt) <==> exists j :: 0 <= j < |cmds| && AgedCommand(cmds[j], dt) == Some(d)
  {
    if cmds != [] {
      var front := cmds[..|cmds| - 1];
      AgedContents(front, dt);
      forall d
        ensures d in Aged(cmds, dt) <==> exists j :: 0 <= j < |cmds| && AgedCommand(cmds[j], dt) == Some(d)
      {
        if d in Aged(cmds, dt) && d !in Aged(front, dt) {
          assert AgedCommand(cmds[|cmds| - 1], dt) == Some(d);
        }
        if exists j :: 0 <= j < |cmds| && AgedCommand(cmds[j], dt) == Some(d) {
          var j :| 0 <= j < |cmds| && AgedCommand(cmds[j], dt) == Some(d);
          if j < |front| {
            assert front[j] == cmds[j];
          }
        }
        if d in Aged(front, dt) {
          var j :| 0 <= j < |front| && AgedCommand(front[j], dt) == Some(d);
          assert cmds[j] == front[j];
        }
      }
    }
  }

  /** A component after `UpdateTimedCommands(dt)`. */
  function AgedComponent(c: DebugDrawComponent, dt: real): (r: DebugDrawComponent)
    ensures r.drawCommands == Aged(c.drawCommands, dt) && r.(drawCommands := c.drawCommands) == c
  {
    c.(drawCommands := Aged(c.drawCommands, dt))
  }

  /** The component storage after `UpdateTimedCommands(dt)`: the components
      of the system's entities aged, every other one as it was. */
  function AgedAll(components: map<Entity, DebugDrawComponent>, entities: set<Entity>, dt: real): (r: map<Entity, DebugDrawComponent>)
    ensures r.Keys == components.Keys
    ensures forall e :: e in components && e !in entities ==> r[e] == components[e]
    ensures forall e :: e in components && e in entities ==> r[e] == AgedComponent(components[e], dt)
  {
    map e | e in components :: if e in entities then AgedComponent(components[e], dt) else components[e]
  }

  /** In the storage after `Update`'s loop, a visited entity's component is
      set up and every other component is as it was. */
  lemma PreparedAllAt(components: map<Entity, DebugDrawComponent>, entities: set<Entity>, shader: Ptr,
                      cube: GeometryData, sphere: GeometryData, line: GeometryData, e: Entity)
    requires e in components
    ensures var r := PreparedAll(components, entities, shader, cube, sphere, line);
      (e in entities && Visited(components[e]) ==> r[e] == Prepared(components[e], shader, cube, sphere, line)) &&
      (!(e in entities && Visited(components[e])) ==> r[e] == components[e]) &&
      Visited(r[e]) == Visited(components[e])
  {
  }

  /** The storage as `Update`'s loop leaves it after walking `order`: each
      walked entity's component, as stored when it is reached, set up if
      visited. */
  function PreparedAlong(components: map<Entity, DebugDrawComponent>, order: seq<Entity>, shader: Ptr,
                         cube: GeometryData, sphere: GeometryData, line: GeometryData): (r: map<Entity, DebugDrawComponent>)
    ensures r.Keys == components.Keys
  {
    if order == [] then components
    else
      var m := PreparedAlong(components, order[..|order| - 1], shader, cube, sphere, line);
      var e := order[|order| - 1];
      if e in m && Visited(m[e]) then m[e := Prepared(m[e], shader, cube, sphere, line)] else m
  }

  /** Walking an entity sets up its component once, however often it is
      walked: the walked storage agrees with `PreparedAll` at every entity. */
  lemma {:induction false} PreparedAlongAt(components: map<Entity, DebugDrawComponent>, order: seq<Entity>, shader: Ptr,
                                           cube: GeometryData, sphere: GeometryData, line: GeometryData, e: Entity)
    requires e in components
    ensures PreparedAlong(components, order, shader, cube, sphere, line)[e] ==
      if e in order && Visited(components[e]) then Prepared(components[e], shader, cube, sphere, line) else components[e]
  {
    if order != [] {
      var front := order[..|order| - 1];
      PreparedAlongAt(components, front, shader, cube, sphere, line, e);
      assert e in order <==> e in front || e == order[|order| - 1] by {
        assert order == front + [order[|order| - 1]];
      }
      PreparedIdempotent(components[e], shader, cube, sphere, line);
      PreparedKeepsVisited(components[e], shader, cube, sphere, line);
      var last := order[|order| - 1];
      if last != e && last in components {
        var m := PreparedAlong(components, front, shader, cube, sphere, line);
        assert PreparedAlong(components, order, shader, cube, sphere, line)[e] == m[e];
      }
    }
  }

  /** Walking the entity set in any order leaves the storage `PreparedAll`
      describes. */
  lemma PreparedAlongIsPreparedAll(components: map<Entity, DebugDrawComponent>, order: seq<Entity>, entities: set<Entity>,
                                   shader: Ptr, cube: GeometryData, sphere: GeometryData, line: GeometryData)
    requires forall x :: x in order <==> x in entities
    ensures PreparedAlong(components, order, shader, cube, sphere, line) == PreparedAll(components, entities, shader, cube, sphere, line)
  {
    var a := PreparedAlong(components, order, shader, cube, sphere, line);
    var b := PreparedAll(components, entities, shader, cube, sphere, line);
    forall e | e in components
      ensures a[e] == b[e]
    {
      PreparedAlongAt(components, order, shader, cube, sphere, line, e);
      PreparedAllAt(components, entities, shader, cube, sphere, line, e);
    }
  }

  /** One more step of the walk. */
  lemma PreparedAlongStep(components: map<Entity, DebugDrawComponent>, order: seq<Entity>, e: Entity, shader: Ptr,
                          cube: GeometryData, sphere: GeometryData, line: GeometryData)
    requires e in components
    ensures var m := PreparedAlong(components, order, shader, cube, sphere, line);
      PreparedAlong(components, order + [e], shader, cube, sphere, line) ==
      if Visited(m[e]) then m[e := Prepared(m[e], shader, cube, sphere, line)] else m
  {
    assert (order + [e])[..|order|] == order;
  }

  /** Each visible entity with commands is submitted once, as stored after
      set-up, and no other entity is; the copies come in ascending entity
      order, and `Render` draws none of them (its drawing step handles
      model items only). */
  lemma UpdateSubmitsEachOnce(entities: set<Entity>, components: map<Entity, DebugDrawComponent>, shader: Ptr,
                              cube: GeometryData, sphere: GeometryData, line: GeometryData)
    requires entities <= components.Keys
    ensures var order := Ascending(entities);
      var stored := PreparedAll(components, entities, shader, cube, sphere, line);
      (forall i :: 0 <= i < |order| ==> order[i] in stored) &&
      var q := Qualifying(order, stored, Visited);
      (forall e :: e in q <==> e in entities && components[e].isVisible && |components[e].drawCommands| > 0) &&
      StrictlyAscending(q) &&
      SubmittedInOrder(entities, stored, Visited, CopyOf) == Submitted(order, stored, Visited, CopyOf) &&
      |Submitted(order, stored, Visited, CopyOf)| == |q| &&
      forall i :: 0 <= i < |q| ==>
        var s := Submitted(order, stored, Visited, CopyOf)[i];
        s == DebugItem(Prepared(components[q[i]], shader, cube, sphere, line)) && IsVisible(s) && !Draws(s)
  {
    var stored := PreparedAll(components, entities, shader, cube, sphere, line);
    forall e | e in entities
      ensures Visited(stored[e]) == Visited(components[e])
      ensures Visited(components[e]) ==> stored[e] == Prepared(components[e], shader, cube, sphere, line)
    {
      PreparedAllAt(components, entities, shader, cube, sphere, line, e);
    }
    SubmitsEachOnceFrom(entities, components, stored, shader, cube, sphere, line);
  }

  /** `UpdateSubmitsEachOnce` for any storage that agrees with the set-up
      components on the entities walked. */
  lemma SubmitsEachOnceFrom(entities: set<Entity>, components: map<Entity, DebugDrawComponent>,
                            stored: map<Entity, DebugDrawComponent>, shader: Ptr,
                            cube: GeometryData, sphere: GeometryData, line: GeometryData)
    requires entities <= components.Keys && stored.Keys == components.Keys
    requires forall e :: e in entities ==> Visited(stored[e]) == Visited(components[e])
    requires forall e :: e in entities && Visited(components[e]) ==> stored[e] == Prepared(components[e], shader, cube, sphere, line)
    ensures var order := Ascending(entities);
      (forall i :: 0 <= i < |order| ==> order[i] in stored) &&
      var q := Qualifying(order, stored, Visited);
      (forall e :: e in q <==> e in entities && components[e].isVisible && |components[e].drawCommands| > 0) &&
      StrictlyAscending(q) &&
      SubmittedInOrder(entities, stored, Visited, CopyOf) == Submitted(order, stored, Visited, CopyOf) &&
      |Submitted(order, stored, Visited, CopyOf)| == |q| &&
      forall i :: 0 <= i < |q| ==>
        var s := Submitted(order, stored, Visited, CopyOf)[i];
        s == DebugItem(Prepared(components[q[i]], shader, cube, sphere, line)) && IsVisible(s) && !Draws(s)
  {
    EachQualifyingOnce(entities, stored, Visited);
  }

  /** Set-up leaves what `Update`'s check reads alone. */
  lemma PreparedKeepsVisited(c: DebugDrawComponent, shader: Ptr, cube: GeometryData, sphere: GeometryData, line: GeometryData)
    ensures Visited(Prepared(c, shader, cube, sphere, line)) == Visited(c)
  {
  }

  class DebugDrawSystem {
    var entities: set<Entity>
    var debugShader: Ptr
    var cubeGeometry: GeometryData
    var sphereGeometry: GeometryData
    var lineGeometry: GeometryData

    constructor()
      ensures entities == {} && debugShader == None
      ensures cubeGeometry == NO_GEOMETRY && sphereGeometry == NO_GEOMETRY && lineGeometry == NO_GEOMETRY
    {
      entities := {};
      debugShader := None;
      cubeGeometry := NO_GEOMETRY;
      sphereGeometry := NO_GEOMETRY;
      lineGeometry := NO_GEOMETRY;
    }

    /** `Initialise`: `shader` is the debug shader it creates, the three
        handles the vertex arrays `CreatePrimitiveGeometry` allocates and
        `pointOn(ring, segment)` the unit-sphere point at those angles. */
    method Initialise(shader: Handle, cubeVao: Handle, sphereVao: Handle, lineVao: Handle,
                      pointOn: (nat, nat) -> Vec3) returns (ok: bool)
      modifies this
      ensures ok && entities == old(entities) && debugShader == Some(shader)
      ensures cubeGeometry == CubeGeometry(cubeVao) && lineGeometry == LineGeometry(lineVao)
      ensures sphereGeometry.vao == Some(sphereVao) && SphereVerticesOf(sphereGeometry.vertices, pointOn)
      ensures SphereIndicesOf(sphereGeometry.indices) && sphereGeometry.indexCount == 480
    {
      debugShader := Some(shader);
      CreatePrimitiveGeometry(cubeVao, sphereVao, lineVao, pointOn);
      return true;
    }

    method CreatePrimitiveGeometry(cubeVao: Handle, sphereVao: Handle, lineVao: Handle, pointOn: (nat, nat) -> Vec3)
      modifies this
      ensures entities == old(entities) && debugShader == old(debugShader)
      ensures cubeGeometry == CubeGeometry(cubeVao) && lineGeometry == LineGeometry(lineVao)
      ensures sphereGeometry.vao == Some(sphereVao) && SphereVerticesOf(sphereGeometry.vertices, pointOn)
      ensures SphereIndicesOf(sphereGeometry.indices) && sphereGeometry.indexCount == 480
    {
      CreateCubeGeometry(cubeVao);
      CreateSphereGeometry(sphereVao, pointOn);
      CreateLineGeometry(lineVao);
    }

    method CreateCubeGeometry(vao: Handle)
      modifies this
      ensures cubeGeometry == CubeGeometry(vao)
      ensures entities == old(entities) && debugShader == old(debugShader)
      ensures sphereGeometry == old(sphereGeometry) && lineGeometry == old(lineGeometry)
    {
      cubeGeometry := GeometryData(Some(vao), CUBE_VERTICES, CUBE_INDICES, |CUBE_INDICES|);
    }

    /** The sphere: `RINGS + 1` rings of `ROW` vertices, and its index
        count is the number of indices built. */
    method CreateSphereGeometry(vao: Handle, pointOn: (nat, nat) -> Vec3)
      modifies this
      ensures sphereGeometry.vao == Some(vao) && SphereVerticesOf(sphereGeometry.vertices, pointOn)
      ensures SphereIndicesOf(sphereGeometry.indices) && sphereGeometry.indexCount == 480
      ensures entities == old(entities) && debugShader == old(debugShader)
      ensures cubeGeometry == old(cubeGeometry) && lineGeometry == old(lineGeometry)
    {
      var vertices := SphereVertices(pointOn);
      var indices := SphereIndexList();
      sphereGeometry := GeometryData(Some(vao), vertices, indices, |indices|);
    }

    method CreateLineGeometry(vao: Handle)
      modifies this
      ensures lineGeometry == LineGeometry(vao)
      ensures entities == old(entities) && debugShader == old(debugShader)
      ensures cubeGeometry == old(cubeGeometry) && sphereGeometry == old(sphereGeometry)
    {
      lineGeometry := GeometryData(Some(vao), [Vec3(0.0, 0.0, 0.0), Vec3(1.0, 0.0, 0.0)], [], 2);
    }

    /** `Update`: `components` is the active ECS manager's
        `DebugDrawComponent` storage and `after` what it holds afterwards
        (every tracked entity has a component, as the ECS guarantees). The
        visited components are set up in the storage and their copies
        submitted in ascending entity order; then every tracked component
        is aged by one frame. */
    method Update(components: map<Entity, DebugDrawComponent>, gfx: GraphicsManager)
      returns (after: map<Entity, DebugDrawComponent>)
      requires entities <= components.Keys
      modifies gfx
      ensures gfx.renderQueue == old(gfx.renderQueue) +
        SubmittedInOrder(entities, PreparedAll(components, entities, debugShader, cubeGeometry, sphereGeometry, lineGeometry),
                         Visited, CopyOf)
      ensures gfx.currentCamera == old(gfx.currentCamera)
      ensures after == AgedAll(PreparedAll(components, entities, debugShader, cubeGeometry, sphereGeometry, lineGeometry),
                               entities, FRAME_TIME)
    {
      var storage := SubmitVisited(entities, components, gfx, debugShader, cubeGeometry, sphereGeometry, lineGeometry);
      after := UpdateTimedCommands(storage, FRAME_TIME);
    }

    /** `Update`'s loop over the entities, given the system's shader and
        geometry: the storage afterwards, and the copies submitted. */
    static method SubmitVisited(entities: set<Entity>, components: map<Entity, DebugDrawComponent>, gfx: GraphicsManager,
                                shader: Ptr, cube: GeometryData, sphere: GeometryData, line: GeometryData)
      returns (storage: map<Entity, DebugDrawComponent>)
      requires entities <= components.Keys
      modifies gfx
      ensures gfx.renderQueue == old(gfx.renderQueue) +
        SubmittedInOrder(entities, PreparedAll(components, entities, shader, cube, sphere, line), Visited, CopyOf)
      ensures gfx.currentCamera == old(gfx.currentCamera)
      ensures storage == PreparedAll(components, entities, shader, cube, sphere, line)
    {
      storage := components;
      var remaining := entities;
      ghost var done: seq<Entity> := [];
      ghost var q0 := gfx.renderQueue;
      AscendingMembers(entities);
      assert entities - remaining == {};
      while remaining != {}
        invariant Walked(entities, done, remaining, components, shader, cube, sphere, line, q0, gfx.renderQueue, storage)
        invariant gfx.currentCamera == old(gfx.currentCamera)
        decreases |remaining|
      {
        var entity;
        entity, storage := VisitLeast(entities, done, remaining, components, gfx, shader, cube, sphere, line, q0, storage);
        done := done + [entity];
        remaining := remaining - {entity};
      }
      WalkedAll(entities, done, components, shader, cube, sphere, line, q0, gfx.renderQueue, storage);
    }

    /** One iteration of `Update`'s loop: the least entity not yet visited
        is visited. */
    static method VisitLeast(ghost entities: set<Entity>, ghost done: seq<Entity>, remaining: set<Entity>,
                             ghost components: map<Entity, DebugDrawComponent>, gfx: GraphicsManager,
                             shader: Ptr, cube: GeometryData, sphere: GeometryData, line: GeometryData,
                             ghost q0: seq<RenderItem>, storage: map<Entity, DebugDrawComponent>)
      returns (entity: Entity, storage': map<Entity, DebugDrawComponent>)
      requires remaining != {}
      requires Walked(entities, done, remaining, components, shader, cube, sphere, line, q0, gfx.renderQueue, storage)
      modifies gfx
      ensures entity in remaining && |remaining - {entity}| < |remaining|
      ensures Walked(entities, done + [entity], remaining - {entity}, components, shader, cube, sphere, line, q0,
                     gfx.renderQueue, storage')
      ensures gfx.currentCamera == old(gfx.currentCamera)
    {
      ghost var least := Least(remaining);
      entity :| entity in remaining && forall x :: x in remaining ==> entity <= x;
      ghost var queue := gfx.renderQueue;
      storage' := Visit(storage, entity, gfx, shader, cube, sphere, line);
      VisitStep(entities, done, remaining, entity, components, shader, cube, sphere, line, q0, queue, storage,
                gfx.renderQueue, storage');
    }

    /** The body of `Update`'s loop for one entity, given the system's
        shader and geometry. */
    static method Visit(storage: map<Entity, DebugDrawComponent>, entity: Entity, gfx: GraphicsManager,
                        shader: Ptr, cube: GeometryData, sphere: GeometryData, line: GeometryData)
      returns (updated: map<Entity, DebugDrawComponent>)
      requires entity in storage
      modifies gfx
      ensures var c := storage[entity];
        gfx.renderQueue == old(gfx.renderQueue) + (if Visited(c) then [DebugItem(Prepared(c, shader, cube, sphere, line))] else []) &&
        updated == (if Visited(c) then storage[entity := Prepared(c, shader, cube, sphere, line)] else storage)
      ensures gfx.currentCamera == old(gfx.currentCamera)
    {
      var debugComponent := storage[entity];
      updated := storage;
      if !debugComponent.isVisible || !HasCommands(debugComponent) {
        return;
      }
      if debugComponent.cubeVAO.None? {
        debugComponent := debugComponent.(shader := shader, cubeVAO := cube.vao,
          sphereVAO := sphere.vao, lineVAO := line.vao,
          cubeIndexCount := cube.indexCount, sphereIndexCount := sphere.indexCount);
      }
      updated := storage[entity := debugComponent];
      gfx.Submit(Some(DebugItem(debugComponent)));
    }

    /** `UpdateTimedCommands(dt)`: every tracked entity's commands aged;
        the entities are independent, so the order they are visited in does
        not matter. */
    method UpdateTimedCommands(components: map<Entity, DebugDrawComponent>, dt: real)
      returns (after: map<Entity, DebugDrawComponent>)
      requires entities <= components.Keys
      ensures after == AgedAll(components, entities, dt)
    {
      after := components;
      var remaining := entities;
      while remaining != {}
        invariant remaining <= entities
        invariant after == AgedAll(components, entities - remaining, dt)
        decreases |remaining|
      {
        var entity :| entity in remaining;
        VisitOne(entities, remaining, entity);
        AgedAllStep(components, entities - remaining, entity, dt);
        after := after[entity := AgedComponent(components[entity], dt)];
        remaining := remaining - {entity};
      }
      assert entities - remaining == entities;
    }
  }

  /** The state of `Update`'s loop: `done` is the ascending walk so far,
      `remaining` what is left of the entity set, the queue holds the
      copies submitted for `done`, and the storage has the visited
      components set up. */
  ghost predicate Walked(entities: set<Entity>, done: seq<Entity>, remaining: set<Entity>,
                         components: map<Entity, DebugDrawComponent>, shader: Ptr, cube: GeometryData,
                         sphere: GeometryData, line: GeometryData, q0: seq<RenderItem>, queue: seq<RenderItem>,
                         storage: map<Entity, DebugDrawComponent>)
  {
    remaining <= entities <= components.Keys &&
    (forall i :: 0 <= i < |done| ==> done[i] in components) &&
    Ascending(entities) == done + Ascending(remaining) &&
    queue == q0 + Submitted(done, PreparedAlong(components, Ascending(entities), shader, cube, sphere, line), Visited, CopyOf) &&
    storage == PreparedAlong(components, done, shader, cube, sphere, line)
  }

  /** What one iteration of `Update`'s loop does to its state, given
      `Visit`'s effect on the queue and the storage. */
  lemma VisitStep(entities: set<Entity>, done: seq<Entity>, remaining: set<Entity>, e: Entity,
                  components: map<Entity, DebugDrawComponent>, shader: Ptr, cube: GeometryData, sphere: GeometryData,
                  line: GeometryData, q0: seq<RenderItem>, queue: seq<RenderItem>, storage: map<Entity, DebugDrawComponent>,
                  queue': seq<RenderItem>, storage': map<Entity, DebugDrawComponent>)
    requires Walked(entities, done, remaining, components, shader, cube, sphere, line, q0, queue, storage)
    requires e in remaining && forall x :: x in remaining ==> e <= x
    requires e in storage && var c := storage[e];
      queue' == queue + (if Visited(c) then [DebugItem(Prepared(c, shader, cube, sphere, line))] else []) &&
      storage' == (if Visited(c) then storage[e := Prepared(c, shader, cube, sphere, line)] else storage)
    ensures Walked(entities, done + [e], remaining - {e}, components, shader, cube, sphere, line, q0, queue', storage')
    ensures |remaining - {e}| < |remaining|
  {
    VisitOne(entities, remaining, e);
    PreparedAlongStep(components, done, e, shader, cube, sphere, line);
    var final := PreparedAlong(components, Ascending(entities), shader, cube, sphere, line);
    AscendingMembers(entities);
    PreparedAlongAt(components, Ascending(entities), shader, cube, sphere, line, e);
    PreparedAlongAt(components, done, shader, cube, sphere, line, e);
    PreparedIdempotent(components[e], shader, cube, sphere, line);
    PreparedKeepsVisited(components[e], shader, cube, sphere, line);
    UpdateLoopStep(entities, done, remaining, e, final, Visited, CopyOf, q0, queue);
  }

  /** The loop's state once nothing remains is what `Update` promises. */
  lemma WalkedAll(entities: set<Entity>, done: seq<Entity>, components: map<Entity, DebugDrawComponent>, shader: Ptr,
                  cube: GeometryData, sphere: GeometryData, line: GeometryData, q0: seq<RenderItem>,
                  queue: seq<RenderItem>, storage: map<Entity, DebugDrawComponent>)
    requires Walked(entities, done, {}, components, shader, cube, sphere, line, q0, queue, storage)
    ensures queue == q0 + SubmittedInOrder(entities, PreparedAll(components, entities, shader, cube, sphere, line), Visited, CopyOf)
    ensures storage == PreparedAll(components, entities, shader, cube, sphere, line)
  {
    assert Ascending({}) == [];
    assert done == Ascending(entities);
    AscendingMembers(entities);
    PreparedAlongIsPreparedAll(components, done, entities, shader, cube, sphere, line);
  }

  lemma AgedAllStep(components: map<Entity, DebugDrawComponent>, done: set<Entity>, e: Entity, dt: real)
    requires e in components && e !in done
    ensures AgedAll(components, done, dt)[e := AgedComponent(components[e], dt)] == AgedAll(components, done + {e}, dt)
  {
  }
}
