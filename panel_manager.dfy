/** `EditorPanel` and `PanelManager`: the editor's panels, registered under
    their names, kept both in registration order and in a map by name. */
module PanelManagers {
  /** The state every panel shares: its name and whether it is open. The
      panel-specific rendering is not part of this class. */
  class EditorPanel {
    const name: string
    var isOpen: bool

    /** A panel's name must not be empty. */
    constructor (panelName: string, isOpenByDefault: bool)
      requires panelName != []
      ensures name == panelName && isOpen == isOpenByDefault
    {
      name := panelName;
      isOpen := isOpenByDefault;
    }

    function GetName(): (r: string)
      ensures r == name
    {
      name
    }

    function IsOpen(): (r: bool)
      reads this
      ensures r == isOpen
    {
      isOpen
    }

    method SetOpen(open: bool)
      modifies this
      ensures isOpen == open
    {
      isOpen := open;
    }

    method ToggleOpen()
      modifies this
      ensures isOpen == !old(isOpen)
    {
      isOpen := !isOpen;
    }
  }

  /** The names of a list of panels. */
  function Names(panels: seq<EditorPanel>): set<string>
  {
    set i | 0 <= i < |panels| :: panels[i].name
  }

  /** The panels of the list whose name differs from `panelName`, in order:
      what `erase(remove_if(...))` leaves. */
  function WithoutName(panels: seq<EditorPanel>, panelName: string): (r: seq<EditorPanel>)
    ensures |r| <= |panels|
    ensures forall i :: 0 <= i < |r| ==> r[i].name != panelName
    ensures forall i :: 0 <= i < |r| ==> r[i] in panels
    ensures forall i :: 0 <= i < |panels| && panels[i].name != panelName ==> panels[i] in r
    ensures panelName !in Names(panels) ==> r == panels
  {
    if panels == [] then []
    else if panels[0].name == panelName then WithoutName(panels[1..], panelName)
    else [panels[0]] + WithoutName(panels[1..], panelName)
  }

  /** The names of a list with a panel in front. */
  lemma NamesCons(p: EditorPanel, rest: seq<EditorPanel>)
    ensures Names([p] + rest) == {p.name} + Names(rest)
  {
    var s := [p] + rest;
    assert s[0] == p;
    assert p.name in Names(s);
    forall n | n in Names(s) ensures n in {p.name} + Names(rest) {
      var i :| 0 <= i < |s| && s[i].name == n;
      if i > 0 { assert rest[i - 1] == s[i]; }
    }
    forall n | n in Names(rest) ensures n in Names(s) {
      var i :| 0 <= i < |rest| && rest[i].name == n;
      assert s[i + 1] == rest[i];
    }
  }

  /** A list has distinct names exactly when its head's name is not among
      the tail's and the tail's names are distinct. */
  lemma DistinctCons(p: EditorPanel, rest: seq<EditorPanel>)
    ensures DistinctNames([p] + rest) <==> p.name !in Names(rest) && DistinctNames(rest)
  {
    var s := [p] + rest;
    assert s[0] == p;
    if DistinctNames(s) {
      forall i | 0 <= i < |rest| ensures rest[i].name != p.name {
        assert s[i + 1] == rest[i];
      }
      forall i, j | 0 <= i < j < |rest| ensures rest[i].name != rest[j].name {
        assert s[i + 1] == rest[i] && s[j + 1] == rest[j];
      }
    }
    if p.name !in Names(rest) && DistinctNames(rest) {
      forall i, j | 0 <= i < j < |s| ensures s[i].name != s[j].name {
        assert s[j] == rest[j - 1];
        if i > 0 { assert s[i] == rest[i - 1]; }
      }
    }
  }

  /** Removing by name keeps the survivors' names, less the removed one, and
      no name appears twice afterwards if none did before. */
  lemma {:induction false} WithoutNameKeepsOthers(panels: seq<EditorPanel>, panelName: string)
    requires DistinctNames(panels)
    ensures Names(WithoutName(panels, panelName)) == Names(panels) - {panelName}
    ensures DistinctNames(WithoutName(panels, panelName))
  {
    if panels != [] {
      var rest := panels[1..];
      assert panels == [panels[0]] + rest;
      DistinctCons(panels[0], rest);
      NamesCons(panels[0], rest);
      WithoutNameKeepsOthers(rest, panelName);
      var tail := WithoutName(rest, panelName);
      if panels[0].name != panelName {
        NamesCons(panels[0], tail);
        DistinctCons(panels[0], tail);
      }
    }
  }

  ghost predicate DistinctNames(panels: seq<EditorPanel>)
  {
    forall i, j :: 0 <= i < j < |panels| ==> panels[i].name != panels[j].name
  }

  /** The names of the open panels, in list order. */
  function OpenNames(panels: seq<EditorPanel>): (r: seq<string>)
    reads set i | 0 <= i < |panels| :: panels[i]
    ensures |r| <= |panels|
  {
    if panels == [] then []
    else if panels[0].isOpen then [panels[0].name] + OpenNames(panels[1..])
    else OpenNames(panels[1..])
  }

  /** A name is rendered exactly when some open panel of the list carries it,
      and when every panel is open every panel is rendered. */
  lemma {:induction false} OpenNamesAreOpenPanels(panels: seq<EditorPanel>)
    ensures forall n :: n in OpenNames(panels) <==>
      exists i :: 0 <= i < |panels| && panels[i].isOpen && panels[i].name == n
    ensures (forall i :: 0 <= i < |panels| ==> panels[i].isOpen) ==> |OpenNames(panels)| == |panels|
  {
    if panels != [] {
      OpenNamesAreOpenPanels(panels[1..]);
      forall n | (exists i :: 0 <= i < |panels| && panels[i].isOpen && panels[i].name == n)
        ensures n in OpenNames(panels)
      {
        var i :| 0 <= i < |panels| && panels[i].isOpen && panels[i].name == n;
        if i > 0 {
          assert panels[1..][i - 1] == panels[i];
        }
      }
      forall n | n in OpenNames(panels)
        ensures exists i :: 0 <= i < |panels| && panels[i].isOpen && panels[i].name == n
      {
        if !(panels[0].isOpen && panels[0].name == n) {
          var j :| 0 <= j < |panels[1..]| && panels[1..][j].isOpen && panels[1..][j].name == n;
          assert panels[j + 1] == panels[1..][j];
        }
      }
    }
  }

  class PanelManager {
    var panels: seq<EditorPanel>
    var panelMap: map<string, EditorPanel>

    /** The list and the map hold the same panels, with no name twice. */
    ghost predicate Valid()
      reads this
    {
      && DistinctNames(panels)
      && panelMap.Keys == Names(panels)
      && (forall i :: 0 <= i < |panels| ==> panelMap[panels[i].name] == panels[i])
    }

    constructor ()
      ensures Valid() && panels == [] && panelMap == map[]
    {
      panels := [];
      panelMap := map[];
    }

    /** Appends a non-null panel whose name is new; otherwise does nothing. */
    method RegisterPanel(panel: EditorPanel?)
      requires Valid()
      modifies this
      ensures Valid()
      ensures panel != null && panel.name !in old(panelMap) ==>
        panels == old(panels) + [panel] && panelMap == old(panelMap)[panel.name := panel]
      ensures panel == null || panel.name in old(panelMap) ==>
        panels == old(panels) && panelMap == old(panelMap)
    {
      if panel != null && !HasPanel(panel.name) {
        panels := panels + [panel];
        panelMap := panelMap[panel.name := panel];
        assert Names(panels) == Names(old(panels)) + {panel.name} by {
          assert panels[|panels| - 1] == panel;
          forall n | n in Names(panels) ensures n in Names(old(panels)) + {panel.name} {
            var i :| 0 <= i < |panels| && panels[i].name == n;
            if i < |old(panels)| { assert old(panels)[i] == panels[i]; }
          }
          forall n | n in Names(old(panels)) ensures n in Names(panels) {
            var i :| 0 <= i < |old(panels)| && old(panels)[i].name == n;
            assert panels[i] == old(panels)[i];
          }
        }
      }
    }

    /** Removes the named panel from both containers, others keeping their order. */
    method UnregisterPanel(panelName: string)
      requires Valid()
      modifies this
      ensures Valid()
      ensures panels == WithoutName(old(panels), panelName)
      ensures panelMap == old(panelMap) - {panelName}
      ensures panelName !in old(panelMap) ==> panels == old(panels)
    {
      if panelName in panelMap {
        WithoutNameKeepsOthers(panels, panelName);
        panels := WithoutName(panels, panelName);
        panelMap := panelMap - {panelName};
        forall i | 0 <= i < |panels| ensures panelMap[panels[i].name] == panels[i] {
          assert panels[i] in old(panels);
          var j :| 0 <= j < |old(panels)| && old(panels)[j] == panels[i];
        }
      }
    }

    /** The registered panel, or null. */
    function GetPanel(panelName: string): (panel: EditorPanel?)
      reads this
      requires Valid()
      ensures panel == null <==> panelName !in Names(panels)
      ensures panel != null ==> panel in panels && panel.name == panelName
    {
      if panelName in panelMap then
        var i :| 0 <= i < |panels| && panels[i].name == panelName;
        panelMap[panelName]
      else null
    }

    function HasPanel(panelName: string): (b: bool)
      reads this
      requires Valid()
      ensures b <==> panelName in panelMap
      ensures b <==> exists i :: 0 <= i < |panels| && panels[i].name == panelName
    {
      panelName in panelMap
    }

    /** Flips only the named panel's open flag. */
    method TogglePanel(panelName: string)
      requires Valid()
      modifies if panelName in panelMap then {panelMap[panelName]} else {}
      ensures panelName in panelMap ==> panelMap[panelName].isOpen == !old(panelMap[panelName].isOpen)
    {
      var panel := GetPanel(panelName);
      if panel != null {
        panel.ToggleOpen();
      }
    }

    /** Renders each open panel once, in registration order; returns the names
        of the panels rendered. */
    method RenderOpenPanels() returns (rendered: seq<string>)
      requires Valid()
      ensures rendered == OpenNames(panels)
    {
      rendered := [];
      var i := 0;
      while i < |panels|
        invariant 0 <= i <= |panels|
        invariant rendered + OpenNames(panels[i..]) == OpenNames(panels)
      {
        assert panels[i..][1..] == panels[i + 1..];
        if panels[i].isOpen {
          rendered := rendered + [panels[i].name];
        }
        i := i + 1;
      }
    }
  }
}
