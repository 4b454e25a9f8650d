/** The render components stored in the ECS and handed to the graphics
    manager: a model with its shader and transform, a piece of text, and a
    list of debug-draw commands. All three carry the `isVisible` flag and
    `renderOrder` of their common base, which defaults to 100. */
module RenderComponents {
  import opened Glm

  const DEFAULT_RENDER_ORDER: int := 100
  /** The render order text and debug drawing set in their constructors. */
  const OVERLAY_RENDER_ORDER: int := 1000

  datatype ModelRenderComponent = ModelRenderComponent(
    isVisible: bool, renderOrder: int, model: Ptr, shader: Ptr, transform: Mat4)

  datatype Alignment = LEFT | CENTER | RIGHT

  datatype TextRenderComponent = TextRenderComponent(
    isVisible: bool, renderOrder: int,
    text: string, font: Ptr, shader: Ptr,
    position: Vec3, color: Vec3, scale: real,
    is3D: bool, transform: Mat4, alignment: Alignment)

  /** `TextRenderComponent(text, font, shader)`: the member defaults, drawn
      after most 3D objects. */
  function NewTextRenderComponent(text: string, font: Ptr, shader: Ptr): (c: TextRenderComponent)
    ensures c.text == text && c.font == font && c.shader == shader
    ensures c.isVisible && c.renderOrder == OVERLAY_RENDER_ORDER
    ensures c.position == Splat(0.0) && c.color == Splat(1.0) && c.scale == 1.0
    ensures !c.is3D && c.transform == Identity() && c.alignment == LEFT
  {
    TextRenderComponent(true, OVERLAY_RENDER_ORDER, text, font, shader,
                        Splat(0.0), Splat(1.0), 1.0, false, Identity(), LEFT)
  }

  datatype DebugDrawType = CUBE | SPHERE | LINE | MESH_WIREFRAME | AABB | OBB

  /** One debug-draw command; a duration of 0 or less is permanent. */
  datatype DebugDrawData = DebugDrawData(
    kind: DebugDrawType, position: Vec3, scale: Vec3, rotation: Vec3, color: Vec3,
    duration: real, lineWidth: real, endPosition: Vec3, meshModel: Ptr)

  /** The commands of one entity and the shared geometry the debug-draw
      system fills in on first use. */
  datatype DebugDrawComponent = DebugDrawComponent(
    isVisible: bool, renderOrder: int, drawCommands: seq<DebugDrawData>,
    shader: Ptr, cubeVAO: Ptr, sphereVAO: Ptr, lineVAO: Ptr,
    cubeIndexCount: nat, sphereIndexCount: nat)

  /** `HasCommands`. */
  predicate HasCommands(c: DebugDrawComponent)
  {
    |c.drawCommands| > 0
  }
}
