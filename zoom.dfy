/**
 * Screenshot zoom: js/main.js gives every `img[alt*="AISEE"]` a click handler
 * that zooms it and activates the shared overlay, and the overlay a handler
 * that closes the zoomed screenshot; js/screenshot-loader.js gives each
 * replacement video a handler that toggles both.
 */
module Zoom {
  import opened Common

  datatype ZoomKind = ZoomImage | ZoomVideo

  /** A `.screenshot-zoom` element and whether it has the `zoomed` class. */
  datatype Zoomable = Zoomable(kind: ZoomKind, zoomed: bool)

  /** The zoomable elements in document order and whether the overlay is `active`. */
  datatype ZoomState = ZoomState(items: seq<Zoomable>, overlayActive: bool)

  /** `querySelector('.screenshot-zoom.zoomed')`: the first zoomed element. */
  function FirstZoomed(items: seq<Zoomable>): (r: Option<nat>)
    ensures r.None? <==> forall k :: 0 <= k < |items| ==> !items[k].zoomed
    ensures r.Some? ==> r.value < |items| && items[r.value].zoomed
                        && forall k :: 0 <= k < r.value ==> !items[k].zoomed
  {
    if items == [] then None
    else if items[0].zoomed then Some(0)
    else match FirstZoomed(items[1..])
      case None => None
      case Some(k) => Some(k + 1)
  }

  function SetZoomed(items: seq<Zoomable>, i: nat, zoomed: bool): seq<Zoomable>
    requires i < |items|
  {
    items[i := items[i].(zoomed := zoomed)]
  }

  /** An image click toggles its `zoomed` class and sets the overlay to match. */
  function ImageClicked(s: ZoomState, i: nat): (r: ZoomState)
    requires i < |s.items|
    ensures r.items == SetZoomed(s.items, i, !s.items[i].zoomed)
    ensures r.overlayActive == r.items[i].zoomed
  {
    if s.items[i].zoomed then ZoomState(SetZoomed(s.items, i, false), false)
    else ZoomState(SetZoomed(s.items, i, true), true)
  }

  /** A video click (outside its controls bar) toggles its `zoomed` class and the overlay independently. */
  function VideoClicked(s: ZoomState, i: nat): ZoomState
    requires i < |s.items|
  {
    ZoomState(SetZoomed(s.items, i, !s.items[i].zoomed), !s.overlayActive)
  }

  /** An overlay click closes the first zoomed element, and does nothing when none is zoomed. */
  function OverlayClicked(s: ZoomState): (r: ZoomState)
    ensures (forall k :: 0 <= k < |s.items| ==> !s.items[k].zoomed) ==> r == s
    ensures (exists k :: 0 <= k < |s.items| && s.items[k].zoomed) ==>
      && !r.overlayActive
      && |r.items| == |s.items|
      && exists j ::
           && 0 <= j < |s.items| && s.items[j].zoomed && r.items[j] == s.items[j].(zoomed := false)
           && (forall k :: 0 <= k < j ==> !s.items[k].zoomed)
           && (forall k :: 0 <= k < |s.items| && k != j ==> r.items[k] == s.items[k])
  {
    match FirstZoomed(s.items)
    case None => s
    case Some(k) => ZoomState(SetZoomed(s.items, k, false), false)
  }

  /** At most one element is zoomed, and the overlay is active exactly when one is. */
  predicate Consistent(s: ZoomState)
  {
    && (forall j, k :: 0 <= j < k < |s.items| ==> !(s.items[j].zoomed && s.items[k].zoomed))
    && (s.overlayActive <==> exists k :: 0 <= k < |s.items| && s.items[k].zoomed)
  }

  /** Clicking the zoomed screenshot, or any one when none is zoomed, keeps the page consistent. */
  lemma ImageClickKeepsConsistent(s: ZoomState, i: nat)
    requires i < |s.items| && Consistent(s)
    requires FirstZoomed(s.items) == None || FirstZoomed(s.items) == Some(i)
    ensures Consistent(ImageClicked(s, i))
  {
    var r := ImageClicked(s, i);
    if s.items[i].zoomed {
      forall k | 0 <= k < |s.items| && k != i ensures !s.items[k].zoomed {
        if k < i { } else { assert !(s.items[i].zoomed && s.items[k].zoomed); }
      }
    } else {
      assert r.items[i].zoomed;
    }
  }

  /** The same holds for a video, whose handler toggles the overlay instead of setting it. */
  lemma VideoClickKeepsConsistent(s: ZoomState, i: nat)
    requires i < |s.items| && Consistent(s)
    requires FirstZoomed(s.items) == None || FirstZoomed(s.items) == Some(i)
    ensures Consistent(VideoClicked(s, i))
    ensures VideoClicked(s, i) == ImageClicked(s, i)
  {
    if s.items[i].zoomed {
      forall k | 0 <= k < |s.items| && k != i ensures !s.items[k].zoomed {
        if k < i { } else { assert !(s.items[i].zoomed && s.items[k].zoomed); }
      }
    } else {
      assert !s.overlayActive;
    }
    ImageClickKeepsConsistent(s, i);
  }

  lemma OverlayClickKeepsConsistent(s: ZoomState)
    requires Consistent(s)
    ensures Consistent(OverlayClicked(s))
    ensures forall k :: 0 <= k < |s.items| ==> !OverlayClicked(s).items[k].zoomed
  {
    var f := FirstZoomed(s.items);
    if f.Some? {
      var j := f.value;
      forall k | 0 <= k < |s.items| && k != j ensures !s.items[k].zoomed {
        if k < j { } else { assert !(s.items[j].zoomed && s.items[k].zoomed); }
      }
    }
  }

  /** Zooming a screenshot and clicking the overlay returns to where the page was. */
  lemma ZoomThenOverlayRestores(s: ZoomState, i: nat)
    requires i < |s.items| && !s.overlayActive
    requires forall k :: 0 <= k < |s.items| ==> !s.items[k].zoomed
    ensures OverlayClicked(ImageClicked(s, i)) == s
    ensures OverlayClicked(VideoClicked(s, i)) == s
  {
    var r := ImageClicked(s, i);
    assert FirstZoomed(r.items) == Some(i);
    assert SetZoomed(r.items, i, false) == s.items;
  }

  /** Clicking a screenshot twice restores it, when the overlay agreed with it to begin with. */
  lemma ImageClickTwice(s: ZoomState, i: nat)
    requires i < |s.items| && s.overlayActive == s.items[i].zoomed
    ensures ImageClicked(ImageClicked(s, i), i) == s
  {
    assert SetZoomed(SetZoomed(s.items, i, !s.items[i].zoomed), i, s.items[i].zoomed) == s.items;
  }

  /** Clicking a video twice always restores the page. */
  lemma VideoClickTwice(s: ZoomState, i: nat)
    requires i < |s.items|
    ensures VideoClicked(VideoClicked(s, i), i) == s
  {
    assert SetZoomed(SetZoomed(s.items, i, !s.items[i].zoomed), i, s.items[i].zoomed) == s.items;
  }

  /** The zoomable elements of the page and the overlay. */
  class ZoomView {
    var items: seq<Zoomable>
    var overlayActive: bool

    function State(): ZoomState
      reads this
    {
      ZoomState(items, overlayActive)
    }

    constructor (items: seq<Zoomable>)
      ensures State() == ZoomState(items, false)
    {
      this.items := items;
      overlayActive := false;
    }

    /** The handler `main.js` attaches to each screenshot image. */
    method ClickImage(i: nat)
      requires i < |items| && items[i].kind == ZoomImage
      modifies this
      ensures State() == ImageClicked(old(State()), i)
    {
      if items[i].zoomed {
        items := items[i := items[i].(zoomed := false)];
        overlayActive := false;
      } else {
        items := items[i := items[i].(zoomed := true)];
        overlayActive := true;
      }
    }

    /**
     * The handler on each replacement video; `accepted` is whether the click
     * is outside the bottom 40 pixels of a video that shows its controls.
     */
    method ClickVideo(i: nat, accepted: bool)
      requires i < |items| && items[i].kind == ZoomVideo
      modifies this
      ensures State() == if accepted then VideoClicked(old(State()), i) else old(State())
    {
      if accepted {
        items := items[i := items[i].(zoomed := !items[i].zoomed)];
        overlayActive := !overlayActive;
      }
    }

    method ClickOverlay()
      modifies this
      ensures State() == OverlayClicked(old(State()))
    {
      var first := FirstZoomed(items);
      if first.Some? {
        var k := first.value;
        items := items[k := items[k].(zoomed := false)];
        overlayActive := false;
      }
    }
  }
}
