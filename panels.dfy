/**
 * js/main.js, `togglePanel` and `toggleSinglePanel`: the collapsible panels of
 * the interface section, toggled together with their partner panel.
 */
module Panels {
  /** Which panel toggles along with which; the table is its own inverse. */
  const PanelPairs: map<string, string> := map[
    "leftPanel" := "mainArea",
    "mainArea" := "leftPanel",
    "bottomPanel" := "rightPanel",
    "rightPanel" := "bottomPanel"]

  /**
   * The elements `toggleSinglePanel` looks up by id: the classes of each
   * `<panel>Content` element and the `style.transform` of each `<panel>Icon`.
   */
  datatype Board = Board(contents: map<string, set<string>>, icons: map<string, string>)

  function ContentId(panelId: string): string { panelId + "Content" }
  function IconId(panelId: string): string { panelId + "Icon" }

  /** Both elements exist; otherwise `toggleSinglePanel` returns at once. */
  predicate Toggleable(b: Board, panelId: string)
  {
    ContentId(panelId) in b.contents && IconId(panelId) in b.icons
  }

  /** The ids of the content elements that carry `hidden`. */
  function Hidden(b: Board): set<string>
  {
    set id | id in b.contents && "hidden" in b.contents[id]
  }

  /** `x` leaves `h` if it was in it, and joins it otherwise. */
  function Flip(h: set<string>, x: string): set<string>
  {
    if x in h then h - {x} else h + {x}
  }

  function SinglePanelToggled(b: Board, panelId: string): (r: Board)
    ensures r.contents.Keys == b.contents.Keys && r.icons.Keys == b.icons.Keys
    ensures forall id :: id in b.contents && id != ContentId(panelId) ==> r.contents[id] == b.contents[id]
    ensures forall id :: id in b.icons && id != IconId(panelId) ==> r.icons[id] == b.icons[id]
    ensures !Toggleable(b, panelId) ==> r == b
    ensures Toggleable(b, panelId) ==>
      var c, c' := b.contents[ContentId(panelId)], r.contents[ContentId(panelId)];
      && ("hidden" in c' <==> "hidden" !in c)
      && ("animate-slide-down" in c' <==> "hidden" !in c')
      && c' - {"hidden", "animate-slide-down"} == c - {"hidden", "animate-slide-down"}
      && r.icons[IconId(panelId)] == (if "hidden" in c' then "rotate(0deg)" else "rotate(180deg)")
  {
    if !Toggleable(b, panelId) then b
    else
      var cid, iid := ContentId(panelId), IconId(panelId);
      var c := b.contents[cid];
      if "hidden" in c then
        Board(b.contents[cid := (c - {"hidden"}) + {"animate-slide-down"}], b.icons[iid := "rotate(180deg)"])
      else
        Board(b.contents[cid := (c + {"hidden"}) - {"animate-slide-down"}], b.icons[iid := "rotate(0deg)"])
  }

  function PanelToggled(b: Board, panelId: string): Board
  {
    var b' := SinglePanelToggled(b, panelId);
    if panelId in PanelPairs then SinglePanelToggled(b', PanelPairs[panelId]) else b'
  }

  /** The content elements `TogglePanel` flips: its own and its partner's, each only when toggleable. */
  function Flipped(b: Board, panelId: string): set<string>
  {
    (if Toggleable(b, panelId) then {ContentId(panelId)} else {})
    + (if panelId in PanelPairs && Toggleable(b, PanelPairs[panelId]) then {ContentId(PanelPairs[panelId])} else {})
  }

  lemma PanelPairsSymmetric()
    ensures forall p :: p in PanelPairs ==>
      PanelPairs[p] in PanelPairs && PanelPairs[PanelPairs[p]] == p && PanelPairs[p] != p
  {
    forall p | p in PanelPairs
      ensures PanelPairs[p] in PanelPairs && PanelPairs[PanelPairs[p]] == p && PanelPairs[p] != p
    {
      assert |PanelPairs[p]| != |p|;
    }
  }

  lemma PartnerContentDiffers(p: string)
    requires p in PanelPairs
    ensures ContentId(p) != ContentId(PanelPairs[p])
  {
    assert |ContentId(p)| != |ContentId(PanelPairs[p])|;
  }

  lemma ToggleSingleHidden(b: Board, panelId: string)
    ensures Hidden(SinglePanelToggled(b, panelId)) ==
      if Toggleable(b, panelId) then Flip(Hidden(b), ContentId(panelId)) else Hidden(b)
  {
    var r := SinglePanelToggled(b, panelId);
    if Toggleable(b, panelId) {
      var cid := ContentId(panelId);
      forall id | id in Hidden(r)
        ensures id in Flip(Hidden(b), cid)
      {
        if id != cid { assert id in b.contents && "hidden" in b.contents[id]; }
      }
      forall id | id in Flip(Hidden(b), cid)
        ensures id in Hidden(r)
      {
        if id != cid { assert id in b.contents && "hidden" in b.contents[id]; }
      }
    }
  }

  lemma ToggleSingleKeepsToggleable(b: Board, q: string, p: string)
    ensures Toggleable(SinglePanelToggled(b, q), p) == Toggleable(b, p)
  {
  }

  /** `togglePanel` flips the `hidden` state of exactly the clicked panel and its partner; a panel missing an element is left untouched. */
  lemma TogglePanelFlipsExactly(b: Board, panelId: string)
    ensures forall id :: (id in Hidden(PanelToggled(b, panelId))) == ((id in Hidden(b)) != (id in Flipped(b, panelId)))
  {
    var b' := SinglePanelToggled(b, panelId);
    ToggleSingleHidden(b, panelId);
    if panelId in PanelPairs {
      var q := PanelPairs[panelId];
      ToggleSingleHidden(b', q);
      ToggleSingleKeepsToggleable(b, panelId, q);
      PartnerContentDiffers(panelId);
    }
  }

  /** Clicking the same panel twice restores which panels are hidden. */
  lemma TogglePanelTwice(b: Board, panelId: string)
    ensures Hidden(PanelToggled(PanelToggled(b, panelId), panelId)) == Hidden(b)
  {
    var b1 := PanelToggled(b, panelId);
    TogglePanelFlipsExactly(b, panelId);
    TogglePanelFlipsExactly(b1, panelId);
    FlippedStable(b, panelId, panelId);
  }

  /** Clicking a panel and then its partner also restores which panels are hidden. */
  lemma TogglePartnerUndoes(b: Board, panelId: string)
    requires panelId in PanelPairs
    ensures Hidden(PanelToggled(PanelToggled(b, panelId), PanelPairs[panelId])) == Hidden(b)
  {
    var q := PanelPairs[panelId];
    var b1 := PanelToggled(b, panelId);
    PanelPairsSymmetric();
    TogglePanelFlipsExactly(b, panelId);
    TogglePanelFlipsExactly(b1, q);
    FlippedStable(b, panelId, q);
    assert Flipped(b1, q) == Flipped(b, panelId);
  }

  /** Toggling never adds or removes elements, so it never changes which panels can be toggled. */
  lemma FlippedStable(b: Board, p: string, q: string)
    ensures Flipped(PanelToggled(b, p), q) == Flipped(b, q)
  {
    var b' := SinglePanelToggled(b, p);
    forall x
      ensures Toggleable(PanelToggled(b, p), x) == Toggleable(b, x)
    {
      ToggleSingleKeepsToggleable(b, p, x);
      if p in PanelPairs {
        ToggleSingleKeepsToggleable(b', PanelPairs[p], x);
      }
    }
  }

  /** The panel elements of the page. */
  class PanelBoard {
    var contents: map<string, set<string>>
    var icons: map<string, string>

    function State(): Board
      reads this
    {
      Board(contents, icons)
    }

    constructor (b: Board)
      ensures State() == b
    {
      contents := b.contents;
      icons := b.icons;
    }

    method ToggleSinglePanel(panelId: string)
      modifies this
      ensures State() == SinglePanelToggled(old(State()), panelId)
    {
      var cid, iid := panelId + "Content", panelId + "Icon";
      if cid !in contents || iid !in icons {
        return;
      }
      if "hidden" in contents[cid] {
        contents := contents[cid := (contents[cid] - {"hidden"}) + {"animate-slide-down"}];
        icons := icons[iid := "rotate(180deg)"];
      } else {
        contents := contents[cid := (contents[cid] + {"hidden"}) - {"animate-slide-down"}];
        icons := icons[iid := "rotate(0deg)"];
      }
    }

    method TogglePanel(panelId: string)
      modifies this
      ensures State() == PanelToggled(old(State()), panelId)
      ensures forall id :: (id in Hidden(State())) == ((id in Hidden(old(State()))) != (id in Flipped(old(State()), panelId)))
    {
      ToggleSinglePanel(panelId);
      if panelId in PanelPairs {
        ToggleSinglePanel(PanelPairs[panelId]);
      }
      TogglePanelFlipsExactly(old(State()), panelId);
    }
  }
}
