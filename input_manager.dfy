/** `InputManager`: the engine's key and mouse-button state, fed by platform
    callbacks, with a copy of the previous frame's state for edge detection.
    The C++ class keeps everything in static members; here they are the
    fields of one object. Keys and buttons are their enumerators' ordinals. */
module InputManagers {
  type Key = int
  type MouseButton = int

  datatype KeyAction = PRESS | RELEASE | REPEAT

  /** What a lookup with `find` reports: present and true. Absent entries read false. */
  function StateOf(states: map<int, bool>, k: int): (b: bool)
    ensures b <==> k in states && states[k]
  {
    k in states && states[k]
  }

  /** Down this frame and not down the frame before. */
  predicate DownNow(states: map<int, bool>, prevStates: map<int, bool>, k: int)
  {
    StateOf(states, k) && !StateOf(prevStates, k)
  }

  /** `operator[]` on a lookup: an absent key is inserted with `false`. */
  function Touched(states: map<int, bool>, k: int): (r: map<int, bool>)
    ensures k in r && r.Keys == states.Keys + {k}
    ensures forall j :: StateOf(r, j) == StateOf(states, j)
    ensures k in states ==> r == states
  {
    if k in states then states else states[k := false]
  }

  /** `prevStates'` is `prevStates` with some keys of `states` added as `false`:
      every lookup still reads the same. */
  ghost predicate PaddedBy(prevStates: map<int, bool>, prevStates': map<int, bool>, states: map<int, bool>)
  {
    && prevStates.Keys <= prevStates'.Keys <= prevStates.Keys + states.Keys
    && (forall k :: k in prevStates ==> prevStates'[k] == prevStates[k])
    && (forall k :: k in prevStates' && k !in prevStates ==> !prevStates'[k])
  }

  /** A non-empty set has an element (a helper for the `:|` choice below). */
  lemma ElementOf(s: set<int>)
    requires s != {}
    ensures exists j :: j in s
  {
    if forall j :: j !in s {
      assert false;
    }
  }

  /** The loop of `GetAnyKeyDown` and `GetAnyMouseButtonDown`: looks for a
      tracked key that went down this frame, padding the previous-frame map
      for each key it finds down. */
  method AnyDown(states: map<int, bool>, prevStates: map<int, bool>) returns (found: bool, prevStates': map<int, bool>)
    ensures found <==> exists k :: k in states && DownNow(states, prevStates, k)
    ensures PaddedBy(prevStates, prevStates', states)
  {
    prevStates' := prevStates;
    var remaining := states.Keys;
    while remaining != {}
      invariant remaining <= states.Keys
      invariant PaddedBy(prevStates, prevStates', states)
      invariant forall k :: k in states && k !in remaining ==> !DownNow(states, prevStates, k)
      decreases remaining
    {
      assert exists j :: j in remaining by { ElementOf(remaining); }
      var k :| k in remaining;
      if states[k] {
        prevStates' := Touched(prevStates', k);
        if !prevStates'[k] {
          assert DownNow(states, prevStates, k);
          return true, prevStates';
        }
      }
      remaining := remaining - {k};
    }
    found := false;
  }

  class InputManager {
    var keyStates: map<Key, bool>
    var mouseButtonStates: map<MouseButton, bool>
    var prevKeyStates: map<Key, bool>
    var prevMouseButtonStates: map<MouseButton, bool>
    var mouseX: real
    var mouseY: real
    var scrollOffsetX: real
    var scrollOffsetY: real
    /** Whether a platform is attached; `Initialize` leaves it detached. */
    var hasPlatform: bool

    /** The static members' initial values. */
    constructor ()
      ensures keyStates == map[] && mouseButtonStates == map[]
      ensures prevKeyStates == map[] && prevMouseButtonStates == map[]
      ensures mouseX == 0.0 && mouseY == 0.0 && scrollOffsetX == 0.0 && scrollOffsetY == 0.0
      ensures !hasPlatform
    {
      keyStates := map[];
      mouseButtonStates := map[];
      prevKeyStates := map[];
      prevMouseButtonStates := map[];
      mouseX := 0.0;
      mouseY := 0.0;
      scrollOffsetX := 0.0;
      scrollOffsetY := 0.0;
      hasPlatform := false;
    }

    method Initialize()
      modifies this
      ensures !hasPlatform
      ensures keyStates == old(keyStates) && mouseButtonStates == old(mouseButtonStates)
      ensures prevKeyStates == old(prevKeyStates) && prevMouseButtonStates == old(prevMouseButtonStates)
      ensures mouseX == old(mouseX) && mouseY == old(mouseY)
      ensures scrollOffsetX == old(scrollOffsetX) && scrollOffsetY == old(scrollOffsetY)
    {
      hasPlatform := false;
    }

    /** Snapshots the current maps as the previous frame's. */
    method Update()
      modifies this
      ensures prevKeyStates == keyStates && prevMouseButtonStates == mouseButtonStates
      ensures keyStates == old(keyStates) && mouseButtonStates == old(mouseButtonStates)
      ensures mouseX == old(mouseX) && mouseY == old(mouseY)
      ensures scrollOffsetX == old(scrollOffsetX) && scrollOffsetY == old(scrollOffsetY)
      ensures hasPlatform == old(hasPlatform)
      ensures forall k :: !DownNow(keyStates, prevKeyStates, k) && !DownNow(mouseButtonStates, prevMouseButtonStates, k)
    {
      prevKeyStates := keyStates;
      prevMouseButtonStates := mouseButtonStates;
    }

    /** Down this frame but not the last. The first `operator[]` lookup inserts
        the key as `false` when it is missing; the second runs only when the
        key is down, and then pads the previous-frame map the same way. */
    method GetKeyDown(key: Key) returns (down: bool)
      modifies this
      ensures down <==> DownNow(old(keyStates), old(prevKeyStates), key)
      ensures keyStates == Touched(old(keyStates), key)
      ensures prevKeyStates == if StateOf(old(keyStates), key) then Touched(old(prevKeyStates), key) else old(prevKeyStates)
      ensures mouseButtonStates == old(mouseButtonStates) && prevMouseButtonStates == old(prevMouseButtonStates)
      ensures mouseX == old(mouseX) && mouseY == old(mouseY)
      ensures scrollOffsetX == old(scrollOffsetX) && scrollOffsetY == old(scrollOffsetY)
      ensures hasPlatform == old(hasPlatform)
    {
      keyStates := Touched(keyStates, key);
      if keyStates[key] {
        prevKeyStates := Touched(prevKeyStates, key);
        down := !prevKeyStates[key];
      } else {
        down := false;
      }
    }

    /** Held now; looks up with `find`, so nothing is inserted. */
    function GetKey(key: Key): (held: bool)
      reads this
      ensures held <==> key in keyStates && keyStates[key]
    {
      StateOf(keyStates, key)
    }

    method GetMouseButtonDown(button: MouseButton) returns (down: bool)
      modifies this
      ensures down <==> DownNow(old(mouseButtonStates), old(prevMouseButtonStates), button)
      ensures mouseButtonStates == Touched(old(mouseButtonStates), button)
      ensures prevMouseButtonStates ==
        if StateOf(old(mouseButtonStates), button) then Touched(old(prevMouseButtonStates), button) else old(prevMouseButtonStates)
      ensures keyStates == old(keyStates) && prevKeyStates == old(prevKeyStates)
      ensures mouseX == old(mouseX) && mouseY == old(mouseY)
      ensures scrollOffsetX == old(scrollOffsetX) && scrollOffsetY == old(scrollOffsetY)
      ensures hasPlatform == old(hasPlatform)
    {
      mouseButtonStates := Touched(mouseButtonStates, button);
      if mouseButtonStates[button] {
        prevMouseButtonStates := Touched(prevMouseButtonStates, button);
        down := !prevMouseButtonStates[button];
      } else {
        down := false;
      }
    }

    function GetMouseButton(button: MouseButton): (held: bool)
      reads this
      ensures held <==> button in mouseButtonStates && mouseButtonStates[button]
    {
      StateOf(mouseButtonStates, button)
    }

    function GetMouseX(): (x: real)
      reads this
      ensures x == mouseX
    {
      mouseX
    }

    function GetMouseY(): (y: real)
      reads this
      ensures y == mouseY
    {
      mouseY
    }

    /** Some tracked key went down this frame. */
    method GetAnyKeyDown() returns (any: bool)
      modifies this
      ensures any <==> exists k :: k in keyStates && DownNow(keyStates, old(prevKeyStates), k)
      ensures PaddedBy(old(prevKeyStates), prevKeyStates, keyStates)
      ensures keyStates == old(keyStates)
      ensures mouseButtonStates == old(mouseButtonStates) && prevMouseButtonStates == old(prevMouseButtonStates)
      ensures mouseX == old(mouseX) && mouseY == old(mouseY)
      ensures scrollOffsetX == old(scrollOffsetX) && scrollOffsetY == old(scrollOffsetY)
      ensures hasPlatform == old(hasPlatform)
    {
      var states, prevStates := keyStates, prevKeyStates;
      any, prevKeyStates := AnyDown(states, prevStates);
      assert states == keyStates && prevStates == old(prevKeyStates);
    }

    method GetAnyMouseButtonDown() returns (any: bool)
      modifies this
      ensures any <==> exists b :: b in mouseButtonStates && DownNow(mouseButtonStates, old(prevMouseButtonStates), b)
      ensures PaddedBy(old(prevMouseButtonStates), prevMouseButtonStates, mouseButtonStates)
      ensures mouseButtonStates == old(mouseButtonStates)
      ensures keyStates == old(keyStates) && prevKeyStates == old(prevKeyStates)
      ensures mouseX == old(mouseX) && mouseY == old(mouseY)
      ensures scrollOffsetX == old(scrollOffsetX) && scrollOffsetY == old(scrollOffsetY)
      ensures hasPlatform == old(hasPlatform)
    {
      var states, prevStates := mouseButtonStates, prevMouseButtonStates;
      any, prevMouseButtonStates := AnyDown(states, prevStates);
      assert states == mouseButtonStates && prevStates == old(prevMouseButtonStates);
    }

    /** A key or, failing that, a mouse button went down this frame. */
    method GetAnyInputDown() returns (any: bool)
      modifies this
      ensures any <==>
        (exists k :: k in keyStates && DownNow(keyStates, old(prevKeyStates), k))
        || (exists b :: b in mouseButtonStates && DownNow(mouseButtonStates, old(prevMouseButtonStates), b))
      ensures keyStates == old(keyStates) && mouseButtonStates == old(mouseButtonStates)
      ensures PaddedBy(old(prevKeyStates), prevKeyStates, keyStates)
      ensures PaddedBy(old(prevMouseButtonStates), prevMouseButtonStates, mouseButtonStates)
      ensures mouseX == old(mouseX) && mouseY == old(mouseY)
      ensures scrollOffsetX == old(scrollOffsetX) && scrollOffsetY == old(scrollOffsetY)
      ensures hasPlatform == old(hasPlatform)
    {
      any := GetAnyKeyDown();
      if !any {
        any := GetAnyMouseButtonDown();
      }
    }

    /** PRESS and REPEAT mark the key down, RELEASE marks it up. */
    method OnKeyEvent(key: Key, action: KeyAction)
      modifies this
      ensures keyStates == old(keyStates)[key := action != RELEASE]
      ensures mouseButtonStates == old(mouseButtonStates)
      ensures prevKeyStates == old(prevKeyStates) && prevMouseButtonStates == old(prevMouseButtonStates)
      ensures mouseX == old(mouseX) && mouseY == old(mouseY)
      ensures scrollOffsetX == old(scrollOffsetX) && scrollOffsetY == old(scrollOffsetY)
      ensures hasPlatform == old(hasPlatform)
    {
      keyStates := keyStates[key := action != RELEASE];
    }

    method OnMouseButtonEvent(button: MouseButton, action: KeyAction)
      modifies this
      ensures mouseButtonStates == old(mouseButtonStates)[button := action != RELEASE]
      ensures keyStates == old(keyStates)
      ensures prevKeyStates == old(prevKeyStates) && prevMouseButtonStates == old(prevMouseButtonStates)
      ensures mouseX == old(mouseX) && mouseY == old(mouseY)
      ensures scrollOffsetX == old(scrollOffsetX) && scrollOffsetY == old(scrollOffsetY)
      ensures hasPlatform == old(hasPlatform)
    {
      mouseButtonStates := mouseButtonStates[button := action != RELEASE];
    }

    /** Overwrites the cursor position. */
    method OnMousePositionEvent(x: real, y: real)
      modifies this
      ensures mouseX == x && mouseY == y
      ensures keyStates == old(keyStates) && mouseButtonStates == old(mouseButtonStates)
      ensures prevKeyStates == old(prevKeyStates) && prevMouseButtonStates == old(prevMouseButtonStates)
      ensures scrollOffsetX == old(scrollOffsetX) && scrollOffsetY == old(scrollOffsetY)
      ensures hasPlatform == old(hasPlatform)
    {
      mouseX := x;
      mouseY := y;
    }

    /** Accumulates scroll offsets. */
    method OnScrollEvent(xOffset: real, yOffset: real)
      modifies this
      ensures scrollOffsetX == old(scrollOffsetX) + xOffset && scrollOffsetY == old(scrollOffsetY) + yOffset
      ensures keyStates == old(keyStates) && mouseButtonStates == old(mouseButtonStates)
      ensures prevKeyStates == old(prevKeyStates) && prevMouseButtonStates == old(prevMouseButtonStates)
      ensures mouseX == old(mouseX) && mouseY == old(mouseY)
      ensures hasPlatform == old(hasPlatform)
    {
      scrollOffsetX := scrollOffsetX + xOffset;
      scrollOffsetY := scrollOffsetY + yOffset;
    }
  }

  /** A press is seen as "down" on exactly one frame: after the press it is
      down, after the next snapshot it is not. */
  lemma PressIsDownForOneFrame(states: map<int, bool>, prevStates: map<int, bool>, k: int)
    requires !StateOf(prevStates, k)
    ensures DownNow(states[k := PRESS != RELEASE], prevStates, k)
    ensures !DownNow(states[k := PRESS != RELEASE], states[k := PRESS != RELEASE], k)
  {
  }

  /** Padding the previous-frame map never changes what a lookup reads, so
      the queries that insert are invisible to later queries. */
  lemma PaddingIsInvisible(prevStates: map<int, bool>, prevStates': map<int, bool>, states: map<int, bool>, k: int)
    requires PaddedBy(prevStates, prevStates', states)
    ensures StateOf(prevStates', k) == StateOf(prevStates, k)
  {
    if k in prevStates' && k !in prevStates {
      assert !prevStates'[k];
    }
  }
}
