/** `TextUtils`: static helpers that edit a `TextRenderComponent` in place
    (each is a function from the old component to the new one) and measure
    it. The font's own measurements are parameters. */
module TextUtils {
  import opened Glm
  import opened RenderComponents

  /** `SetText`: only the text changes. */
  function SetText(c: TextRenderComponent, text: string): (r: TextRenderComponent)
    ensures r.text == text && r.(text := c.text) == c
  {
    c.(text := text)
  }

  /** Both `SetColor` overloads: only the colour changes. */
  function SetColor(c: TextRenderComponent, color: Vec3): (r: TextRenderComponent)
    ensures r.color == color && r.(color := c.color) == c
  {
    c.(color := color)
  }

  function SetColorRgb(c: TextRenderComponent, red: real, green: real, blue: real): (r: TextRenderComponent)
    ensures r == SetColor(c, Vec3(red, green, blue))
  {
    SetColor(c, Vec3(red, green, blue))
  }

  /** Both `SetPosition` overloads: a screen-space position, so the
      component leaves 3D mode; nothing else changes. */
  function SetPosition(c: TextRenderComponent, position: Vec3): (r: TextRenderComponent)
    ensures r.position == position && !r.is3D
    ensures r.(position := c.position, is3D := c.is3D) == c
  {
    c.(position := position, is3D := false)
  }

  function SetPositionXyz(c: TextRenderComponent, x: real, y: real, z: real): (r: TextRenderComponent)
    ensures r == SetPosition(c, Vec3(x, y, z))
  {
    SetPosition(c, Vec3(x, y, z))
  }

  function SetScale(c: TextRenderComponent, scale: real): (r: TextRenderComponent)
    ensures r.scale == scale && r.(scale := c.scale) == c
  {
    c.(scale := scale)
  }

  function SetAlignment(c: TextRenderComponent, alignment: Alignment): (r: TextRenderComponent)
    ensures r.alignment == alignment && r.(alignment := c.alignment) == c
  {
    c.(alignment := alignment)
  }

  /** `SetWorldTransform`: a world-space transform, so the component enters
      3D mode; its screen position is kept. */
  function SetWorldTransform(c: TextRenderComponent, transform: Mat4): (r: TextRenderComponent)
    ensures r.transform == transform && r.is3D
    ensures r.(transform := c.transform, is3D := c.is3D) == c
  {
    c.(transform := transform, is3D := true)
  }

  /** Both `SetWorldPosition` overloads: the transform becomes a pure
      translation to the position. */
  function SetWorldPosition(c: TextRenderComponent, position: Vec3): (r: TextRenderComponent)
    ensures r == SetWorldTransform(c, Translation(position))
    ensures r.transform.m[12] == position.x && r.transform.m[13] == position.y && r.transform.m[14] == position.z
  {
    SetWorldTransform(c, Translation(position))
  }

  function SetWorldPositionXyz(c: TextRenderComponent, x: real, y: real, z: real): (r: TextRenderComponent)
    ensures r == SetWorldPosition(c, Vec3(x, y, z))
  {
    SetWorldPosition(c, Vec3(x, y, z))
  }

  /** `GetEstimatedWidth`: the font's width of the text at the component's
      scale, or 0 with no font. */
  function EstimatedWidth(c: TextRenderComponent, textWidth: (Handle, string, real) -> real): (w: real)
    ensures c.font.None? ==> w == 0.0
    ensures c.font.Some? ==> w == textWidth(c.font.value, c.text, c.scale)
  {
    if c.font.Some? then textWidth(c.font.value, c.text, c.scale) else 0.0
  }

  /** `GetEstimatedHeight`: the font's line height at the component's scale,
      or 0 with no font. */
  function EstimatedHeight(c: TextRenderComponent, textHeight: (Handle, real) -> real): (h: real)
    ensures c.font.None? ==> h == 0.0
    ensures c.font.Some? ==> h == textHeight(c.font.value, c.scale)
  {
    if c.font.Some? then textHeight(c.font.value, c.scale) else 0.0
  }

  /** `GetTextDimensions`: the two estimates as (width, height). */
  function TextDimensions(c: TextRenderComponent, textWidth: (Handle, string, real) -> real,
                          textHeight: (Handle, real) -> real): (d: (real, real))
    ensures d.0 == EstimatedWidth(c, textWidth) && d.1 == EstimatedHeight(c, textHeight)
    ensures c.font.None? ==> d == (0.0, 0.0)
  {
    (EstimatedWidth(c, textWidth), EstimatedHeight(c, textHeight))
  }

  /** `IsValid`: something to draw, a font and a shader. */
  predicate IsValid(c: TextRenderComponent)
  {
    |c.text| > 0 && c.font.Some? && c.shader.Some?
  }

  /** `CenterOnScreen`: the screen centre, centred. */
  function CenterOnScreen(c: TextRenderComponent, screenWidth: int, screenHeight: int): (r: TextRenderComponent)
    ensures r.position == Vec3(screenWidth as real / 2.0, screenHeight as real / 2.0, 0.0)
    ensures r.alignment == CENTER && !r.is3D
    ensures r.(position := c.position, is3D := c.is3D, alignment := c.alignment) == c
  {
    SetAlignment(SetPositionXyz(c, screenWidth as real / 2.0, screenHeight as real / 2.0, 0.0), CENTER)
  }

  /** The alignment `SetScreenAnchor` picks for a horizontal anchor: left of
      0.33 is LEFT, right of 0.66 is RIGHT, and the band between, both
      bounds included, is CENTER. */
  function AnchorAlignment(anchorX: real): (a: Alignment)
    ensures a == LEFT <==> anchorX < 0.33
    ensures a == RIGHT <==> anchorX > 0.66
    ensures a == CENTER <==> 0.33 <= anchorX <= 0.66
  {
    if anchorX < 0.33 then LEFT else if anchorX > 0.66 then RIGHT else CENTER
  }

  /** `SetScreenAnchor`: the anchor as a fraction of the screen, with the
      alignment that goes with its horizontal part. */
  function SetScreenAnchor(c: TextRenderComponent, screenWidth: int, screenHeight: int,
                           anchorX: real, anchorY: real): (r: TextRenderComponent)
    ensures r.position == Vec3(anchorX * screenWidth as real, anchorY * screenHeight as real, 0.0)
    ensures r.alignment == AnchorAlignment(anchorX) && !r.is3D
    ensures r.(position := c.position, is3D := c.is3D, alignment := c.alignment) == c
  {
    var placed := SetPositionXyz(c, anchorX * screenWidth as real, anchorY * screenHeight as real, 0.0);
    SetAlignment(placed, AnchorAlignment(anchorX))
  }

  /** The left-to-right rank of an alignment. */
  function Rank(a: Alignment): nat
  {
    match a
    case LEFT => 0
    case CENTER => 1
    case RIGHT => 2
  }

  /** Moving the anchor right never moves the alignment left. */
  lemma AnchorAlignmentMonotone(x1: real, x2: real)
    requires x1 <= x2
    ensures Rank(AnchorAlignment(x1)) <= Rank(AnchorAlignment(x2))
  {
  }

  /** Centring on the screen is anchoring at (0.5, 0.5). */
  lemma CenterIsMiddleAnchor(c: TextRenderComponent, screenWidth: int, screenHeight: int)
    ensures CenterOnScreen(c, screenWidth, screenHeight) == SetScreenAnchor(c, screenWidth, screenHeight, 0.5, 0.5)
  {
  }

  /** Screen and world placement undo each other's mode: the last one
      applied decides `is3D`. */
  lemma LastPlacementDecidesMode(c: TextRenderComponent, screen: Vec3, world: Vec3)
    ensures !SetPosition(SetWorldPosition(c, world), screen).is3D
    ensures SetWorldPosition(SetPosition(c, screen), world).is3D
    ensures SetPosition(SetWorldPosition(c, world), screen).transform == Translation(world)
    ensures SetWorldPosition(SetPosition(c, screen), world).position == screen
  {
  }

  /** A freshly constructed component is valid exactly when it has text, a
      font and a shader; clearing the text invalidates any component, and
      the colour, position, scale, alignment and world setters keep
      validity as it was. */
  lemma ValidityOfSetters(c: TextRenderComponent, text: string, font: Ptr, shader: Ptr, v: Vec3, s: real, a: Alignment)
    ensures IsValid(NewTextRenderComponent(text, font, shader)) <==> text != [] && font.Some? && shader.Some?
    ensures !IsValid(SetText(c, []))
    ensures IsValid(SetColor(c, v)) == IsValid(c) && IsValid(SetPosition(c, v)) == IsValid(c)
    ensures IsValid(SetScale(c, s)) == IsValid(c) && IsValid(SetAlignment(c, a)) == IsValid(c)
    ensures IsValid(SetWorldPosition(c, v)) == IsValid(c)
  {
  }
}
