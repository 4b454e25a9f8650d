/** `EditorInputManager`: the editor's per-frame mouse and keyboard snapshot,
    taken from ImGui's input state. The two static structs are the fields of
    one object; what ImGui reports for the frame is the `ImGuiInput` value
    passed to `Update`. */
module EditorInputManagers {
  datatype Vec2 = Vec2(x: real, y: real)

  function Minus(a: Vec2, b: Vec2): Vec2
  {
    Vec2(a.x - b.x, a.y - b.y)
  }

  /** What one frame of ImGui reports: mouse position and wheel, which buttons
      are held, the modifiers, and which shortcut keys went down this frame. */
  datatype ImGuiInput = ImGuiInput(
    mousePos: Vec2, mouseWheel: real,
    leftDown: bool, middleDown: bool, rightDown: bool,
    keyAlt: bool, keyCtrl: bool, keyShift: bool,
    qPressed: bool, wPressed: bool, ePressed: bool, rPressed: bool)

  datatype MouseState = MouseState(
    position: Vec2, delta: Vec2, lastPosition: Vec2,
    firstMouse: bool, scrollDelta: real,
    leftPressed: bool, middlePressed: bool, rightPressed: bool,
    leftDown: bool, middleDown: bool, rightDown: bool)

  datatype KeyboardState = KeyboardState(
    altPressed: bool, ctrlPressed: bool, shiftPressed: bool,
    qKeyPressed: bool, wKeyPressed: bool, eKeyPressed: bool, rKeyPressed: bool)

  /** The member initialisers of the two structs. */
  const INITIAL_MOUSE := MouseState(Vec2(0.0, 0.0), Vec2(0.0, 0.0), Vec2(0.0, 0.0),
    true, 0.0, false, false, false, false, false, false)
  const INITIAL_KEYBOARD := KeyboardState(false, false, false, false, false, false, false)

  /** One button's edge detection: pressed is "down now and not before", and
      the new down flag is the current one. */
  function ButtonStep(wasDown: bool, current: bool): (r: (bool, bool))
    ensures r.1 == current
    ensures r.0 ==> current && !wasDown
    ensures current && !wasDown ==> r.0
  {
    (current && !wasDown, current)
  }

  /** "Pressed" never holds on two consecutive updates. */
  lemma NeverPressedTwice(wasDown: bool, first: bool, second: bool)
    ensures !(ButtonStep(wasDown, first).0 && ButtonStep(ButtonStep(wasDown, first).1, second).0)
  {
  }

  /** The mouse state after `UpdateMouseState`. */
  function MouseAfter(m: MouseState, io: ImGuiInput): (r: MouseState)
    ensures !r.firstMouse
    ensures m.firstMouse ==> r.delta == Vec2(0.0, 0.0)
    ensures !m.firstMouse ==> Minus(io.mousePos, r.delta) == m.lastPosition
    ensures r.position == io.mousePos && r.lastPosition == io.mousePos
    ensures r.scrollDelta == io.mouseWheel
    ensures (r.leftPressed, r.leftDown) == ButtonStep(m.leftDown, io.leftDown)
    ensures (r.middlePressed, r.middleDown) == ButtonStep(m.middleDown, io.middleDown)
    ensures (r.rightPressed, r.rightDown) == ButtonStep(m.rightDown, io.rightDown)
  {
    var delta := if !m.firstMouse then Minus(io.mousePos, m.lastPosition) else Vec2(0.0, 0.0);
    MouseState(io.mousePos, delta, io.mousePos, false, io.mouseWheel,
      io.leftDown && !m.leftDown, io.middleDown && !m.middleDown, io.rightDown && !m.rightDown,
      io.leftDown, io.middleDown, io.rightDown)
  }

  /** From the second update on, the delta is the distance the mouse moved
      since the previous update. */
  lemma DeltaIsMovement(m: MouseState, io1: ImGuiInput, io2: ImGuiInput)
    ensures MouseAfter(m, io1).delta == (if m.firstMouse then Vec2(0.0, 0.0) else Minus(io1.mousePos, m.lastPosition))
    ensures MouseAfter(MouseAfter(m, io1), io2).delta == Minus(io2.mousePos, io1.mousePos)
  {
  }

  /** No button reads "pressed" on two consecutive updates. */
  lemma NoButtonPressedTwice(m: MouseState, io1: ImGuiInput, io2: ImGuiInput)
    ensures !(MouseAfter(m, io1).leftPressed && MouseAfter(MouseAfter(m, io1), io2).leftPressed)
    ensures !(MouseAfter(m, io1).middlePressed && MouseAfter(MouseAfter(m, io1), io2).middlePressed)
    ensures !(MouseAfter(m, io1).rightPressed && MouseAfter(MouseAfter(m, io1), io2).rightPressed)
  {
    NeverPressedTwice(m.leftDown, io1.leftDown, io2.leftDown);
    NeverPressedTwice(m.middleDown, io1.middleDown, io2.middleDown);
    NeverPressedTwice(m.rightDown, io1.rightDown, io2.rightDown);
  }

  /** The keyboard state after `UpdateKeyboardState`: a copy of this frame's
      modifiers and shortcut presses, whatever was there before. */
  function KeyboardAfter(io: ImGuiInput): (r: KeyboardState)
    ensures r.altPressed == io.keyAlt && r.ctrlPressed == io.keyCtrl && r.shiftPressed == io.keyShift
    ensures r.qKeyPressed == io.qPressed && r.wKeyPressed == io.wPressed
    ensures r.eKeyPressed == io.ePressed && r.rKeyPressed == io.rPressed
  {
    KeyboardState(io.keyAlt, io.keyCtrl, io.keyShift, io.qPressed, io.wPressed, io.ePressed, io.rPressed)
  }

  /** The shortcut for a gizmo type: 0 Q, 1 W, 2 E, 3 R; any other type none. */
  function GizmoShortcut(k: KeyboardState, gizmoType: int): (pressed: bool)
    ensures gizmoType == 0 ==> pressed == k.qKeyPressed
    ensures gizmoType == 1 ==> pressed == k.wKeyPressed
    ensures gizmoType == 2 ==> pressed == k.eKeyPressed
    ensures gizmoType == 3 ==> pressed == k.rKeyPressed
    ensures !(0 <= gizmoType <= 3) ==> !pressed
  {
    match gizmoType
    case 0 => k.qKeyPressed
    case 1 => k.wKeyPressed
    case 2 => k.eKeyPressed
    case 3 => k.rKeyPressed
    case _ => false
  }

  /** A shortcut reads pressed only for one of the four gizmo types whose key
      ImGui reported as pressed. */
  lemma ShortcutNeedsItsKey(io: ImGuiInput, gizmoType: int)
    ensures GizmoShortcut(KeyboardAfter(io), gizmoType) <==>
      || (gizmoType == 0 && io.qPressed) || (gizmoType == 1 && io.wPressed)
      || (gizmoType == 2 && io.ePressed) || (gizmoType == 3 && io.rPressed)
  {
  }

  class EditorInputManager {
    var mouseState: MouseState
    var keyboardState: KeyboardState

    constructor ()
      ensures mouseState == INITIAL_MOUSE && keyboardState == INITIAL_KEYBOARD
    {
      mouseState := INITIAL_MOUSE;
      keyboardState := INITIAL_KEYBOARD;
    }

    /** The mouse update, then the keyboard update. */
    method Update(io: ImGuiInput)
      modifies this
      ensures mouseState == MouseAfter(old(mouseState), io)
      ensures keyboardState == KeyboardAfter(io)
    {
      UpdateMouseState(io);
      UpdateKeyboardState(io);
    }

    method UpdateMouseState(io: ImGuiInput)
      modifies this
      ensures mouseState == MouseAfter(old(mouseState), io)
      ensures keyboardState == old(keyboardState)
    {
      var m := mouseState;
      var delta: Vec2;
      if !m.firstMouse {
        delta := Minus(io.mousePos, m.lastPosition);
      } else {
        delta := Vec2(0.0, 0.0);
        m := m.(firstMouse := false);
      }
      m := m.(delta := delta, position := io.mousePos, lastPosition := io.mousePos, scrollDelta := io.mouseWheel);
      m := m.(leftPressed := io.leftDown && !m.leftDown,
              middlePressed := io.middleDown && !m.middleDown,
              rightPressed := io.rightDown && !m.rightDown);
      m := m.(leftDown := io.leftDown, middleDown := io.middleDown, rightDown := io.rightDown);
      mouseState := m;
    }

    method UpdateKeyboardState(io: ImGuiInput)
      modifies this
      ensures keyboardState == KeyboardAfter(io)
      ensures mouseState == old(mouseState)
    {
      keyboardState := keyboardState.(altPressed := io.keyAlt, ctrlPressed := io.keyCtrl, shiftPressed := io.keyShift);
      keyboardState := keyboardState.(qKeyPressed := io.qPressed, wKeyPressed := io.wPressed,
                                      eKeyPressed := io.ePressed, rKeyPressed := io.rPressed);
    }

    function GetMouseState(): (m: MouseState)
      reads this
      ensures m == mouseState
    {
      mouseState
    }

    function GetKeyboardState(): (k: KeyboardState)
      reads this
      ensures k == keyboardState
    {
      keyboardState
    }

    /** The delta scaled by the sensitivity. */
    function GetMouseDelta(sensitivity: real): (d: Vec2)
      reads this
      ensures sensitivity == 1.0 ==> d == mouseState.delta
      ensures sensitivity == 0.0 ==> d == Vec2(0.0, 0.0)
    {
      Vec2(mouseState.delta.x * sensitivity, mouseState.delta.y * sensitivity)
    }

    /** Camera input is handled over a hovered window when no item is hovered;
        the window name is not consulted. */
    function ShouldHandleCameraInput(windowName: string, windowHovered: bool, anyItemHovered: bool): (b: bool)
      ensures b <==> windowHovered && !anyItemHovered
    {
      windowHovered && !anyItemHovered
    }

    function IsGizmoShortcutPressed(gizmoType: int): (pressed: bool)
      reads this
      ensures pressed ==> 0 <= gizmoType <= 3
      ensures 0 <= gizmoType <= 3 ==> pressed == GizmoShortcut(keyboardState, gizmoType)
    {
      GizmoShortcut(keyboardState, gizmoType)
    }
  }
}
