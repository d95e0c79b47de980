/**
 * js/main.js, `showTab` and `showAdvancedTab`: the two tab groups differ only
 * in their selectors and in the colour of the active button, so one
 * `TabGroup` class with a `TabStyle` models both.
 */
module Tabs {
  import opened Common

  /** A `.tab-content` (or `.adv-tab-content`) element: its id and its classes. */
  datatype TabPanel = TabPanel(id: string, classes: set<string>)

  /** The classes a group puts on its active button. */
  datatype TabStyle = TabStyle(active: set<string>)

  const MainTabs: TabStyle := TabStyle({"text-blue-600", "border-b-2", "border-blue-600"})
  const AdvancedTabs: TabStyle := TabStyle({"text-indigo-600", "border-b-2", "border-indigo-600"})
  const InactiveClass: string := "text-gray-600"

  predicate IsTabStyle(style: TabStyle)
  {
    style == MainTabs || style == AdvancedTabs
  }

  /** `getElementById` among the panels: the first one, in document order, with that id. */
  function FindPanel(panels: seq<TabPanel>, id: string): (r: Option<nat>)
    ensures r.None? <==> forall k :: 0 <= k < |panels| ==> panels[k].id != id
    ensures r.Some? ==> r.value < |panels| && panels[r.value].id == id
                        && forall k :: 0 <= k < r.value ==> panels[k].id != id
  {
    if panels == [] then None
    else if panels[0].id == id then Some(0)
    else match FindPanel(panels[1..], id)
      case None => None
      case Some(k) => Some(k + 1)
  }

  /** `FindPanel` looks only at the ids, so hiding or showing panels does not move the target. */
  lemma FindPanelIgnoresClasses(a: seq<TabPanel>, b: seq<TabPanel>, id: string)
    requires |a| == |b| && forall k :: 0 <= k < |a| ==> a[k].id == b[k].id
    ensures FindPanel(a, id) == FindPanel(b, id)
  {
    var ra, rb := FindPanel(a, id), FindPanel(b, id);
    if ra.Some? && rb.Some? {
      assert !(ra.value < rb.value) && !(rb.value < ra.value);
    }
  }

  /** The classes of a button after the click: the clicked one active, every other inactive. */
  function ButtonClasses(style: TabStyle, old_: set<string>, clicked: bool): set<string>
  {
    if clicked then (old_ - {InactiveClass}) + style.active
    else (old_ - style.active) + {InactiveClass}
  }

  /** After a successful click exactly the clicked button carries the active classes. */
  lemma ActiveButtonExclusive(style: TabStyle, before: seq<set<string>>, after: seq<set<string>>, clicked: nat)
    requires IsTabStyle(style)
    requires |after| == |before| && clicked < |before|
    requires forall k :: 0 <= k < |before| ==> after[k] == ButtonClasses(style, before[k], k == clicked)
    ensures forall k :: 0 <= k < |after| ==> (style.active <= after[k] <==> k == clicked)
    ensures forall k :: 0 <= k < |after| ==> (InactiveClass in after[k] <==> k != clicked)
  {
    assert "border-b-2" in style.active && InactiveClass !in style.active;
  }

  /** One tab group of the page. */
  class TabGroup {
    const style: TabStyle
    /** the group's content panels, in document order */
    var panels: seq<TabPanel>
    /** the classes of the group's buttons, in document order */
    var buttons: seq<set<string>>

    ghost predicate Valid()
      reads this
    {
      IsTabStyle(style)
    }

    constructor (style: TabStyle, panels: seq<TabPanel>, buttons: seq<set<string>>)
      requires IsTabStyle(style)
      ensures Valid()
      ensures this.style == style && this.panels == panels && this.buttons == buttons
    {
      this.style := style;
      this.panels := panels;
      this.buttons := buttons;
    }

    /**
     * A click on button `button` asking for tab `tabName`. When no panel has
     * that id, `getElementById` yields null, the call throws after hiding every
     * panel, and the buttons are left as they were: `ok` is false then.
     */
    method ShowTab(tabName: string, button: nat) returns (ok: bool)
      requires Valid()
      requires button < |buttons|
      modifies this`panels, this`buttons
      ensures ok == FindPanel(old(panels), tabName).Some?
      ensures |panels| == |old(panels)|
      ensures forall k :: 0 <= k < |panels| ==>
        && panels[k].id == old(panels)[k].id
        && panels[k].classes - {"hidden"} == old(panels)[k].classes - {"hidden"}
        && ("hidden" !in panels[k].classes <==> Some(k) == FindPanel(old(panels), tabName))
      ensures !ok ==> buttons == old(buttons)
      ensures ok ==> |buttons| == |old(buttons)|
      ensures ok ==> forall k :: 0 <= k < |buttons| ==> buttons[k] == ButtonClasses(style, old(buttons)[k], k == button)
      ensures ok ==> forall k :: 0 <= k < |buttons| ==> (style.active <= buttons[k] <==> k == button)
    {
      var i := 0;
      while i < |panels|
        invariant 0 <= i <= |panels| == |old(panels)|
        invariant buttons == old(buttons)
        invariant forall k :: 0 <= k < |panels| ==>
          panels[k].id == old(panels)[k].id
          && panels[k].classes - {"hidden"} == old(panels)[k].classes - {"hidden"}
        invariant forall k :: 0 <= k < i ==> "hidden" in panels[k].classes
        invariant forall k :: i <= k < |panels| ==> panels[k] == old(panels)[k]
      {
        panels := panels[i := panels[i].(classes := panels[i].classes + {"hidden"})];
        i := i + 1;
      }

      var target := FindPanel(panels, tabName);
      FindPanelIgnoresClasses(panels, old(panels), tabName);
      if target.None? {
        return false;
      }
      var t := target.value;
      panels := panels[t := panels[t].(classes := panels[t].classes - {"hidden"})];
      ghost var shown := panels;

      var j := 0;
      while j < |buttons|
        invariant 0 <= j <= |buttons| == |old(buttons)|
        invariant panels == shown
        invariant forall k :: 0 <= k < j ==> buttons[k] == (old(buttons)[k] - style.active) + {InactiveClass}
        invariant forall k :: j <= k < |buttons| ==> buttons[k] == old(buttons)[k]
      {
        buttons := buttons[j := (buttons[j] - style.active) + {InactiveClass}];
        j := j + 1;
      }
      buttons := buttons[button := (buttons[button] - {InactiveClass}) + style.active];
      ok := true;
      ActiveButtonExclusive(style, old(buttons), buttons, button);
    }
  }
}
