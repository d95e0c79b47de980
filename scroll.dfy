/**
 * js/main.js, scroll handling: the header hides while scrolling down past the
 * first 100 pixels, the section under the line 150 pixels down becomes the
 * current one and its navigation item `active`, and the `ticking` flag lets
 * at most one animation frame be pending.
 */
module ScrollSpy {
  import opened Common

  /** A `section[id]` with its bounding box at the time of the update. */
  datatype SectionBox = SectionBox(id: string, top: real, bottom: real)

  /**
   * A `.nav-item`: the section name its `scrollToSection('…')` handler passes
   * (`None` when the handler text names none) and its classes.
   */
  datatype NavItem = NavItem(target: Option<string>, classes: set<string>)

  const HideThreshold: real := 100.0
  const ViewportLine: real := 150.0

  /** Scrolling down, and past the first 100 pixels. */
  predicate HidesHeader(scrollTop: real, lastScrollTop: real)
  {
    scrollTop > lastScrollTop && scrollTop > HideThreshold
  }

  predicate InView(s: SectionBox)
  {
    s.top <= ViewportLine && s.bottom >= ViewportLine
  }

  /** The id of the last section, in document order, that straddles the line; "" when none does. */
  function CurrentSectionOf(sections: seq<SectionBox>): (r: string)
    ensures (forall k :: 0 <= k < |sections| ==> !InView(sections[k])) ==> r == ""
    ensures (exists k :: 0 <= k < |sections| && InView(sections[k])) ==>
      exists k :: 0 <= k < |sections| && InView(sections[k]) && r == sections[k].id
        && forall j :: k < j < |sections| ==> !InView(sections[j])
  {
    if sections == [] then ""
    else if InView(sections[|sections| - 1]) then sections[|sections| - 1].id
    else CurrentSectionOf(sections[..|sections| - 1])
  }

  /** The `sections.forEach` loop of `updateScroll`. */
  method CurrentSection(sections: seq<SectionBox>) returns (current: string)
    ensures current == CurrentSectionOf(sections)
  {
    current := "";
    var i := 0;
    while i < |sections|
      invariant 0 <= i <= |sections|
      invariant current == CurrentSectionOf(sections[..i])
    {
      assert sections[..i + 1][..i] == sections[..i];
      if sections[i].top <= ViewportLine && sections[i].bottom >= ViewportLine {
        current := sections[i].id;
      }
      i := i + 1;
    }
    assert sections[..i] == sections;
  }

  /** How many animation frames a burst of `events` scroll events requests, starting from `ticking`. */
  function FramesRequested(ticking: bool, events: nat): nat
    decreases events
  {
    if events == 0 then 0 else (if ticking then 0 else 1) + FramesRequested(true, events - 1)
  }

  /** The throttle: however many scroll events arrive before the frame runs, at most one frame is requested. */
  lemma {:induction false} ThrottleRequestsAtMostOneFrame(ticking: bool, events: nat)
    ensures FramesRequested(ticking, events) == if ticking || events == 0 then 0 else 1
    decreases events
  {
    if events > 0 {
      ThrottleRequestsAtMostOneFrame(true, events - 1);
    }
  }

  /** The scroll state of the page: the two globals and the elements `updateScroll` restyles. */
  class ScrollState {
    var lastScrollTop: real
    var ticking: bool
    /** classes of `header.sticky`, if the page has one */
    var header: Option<set<string>>
    /** classes of `#sidebar`, if the page has one */
    var sidebar: Option<set<string>>
    var navItems: seq<NavItem>

    /** The handler's captured name is `(.+?)`, never empty. */
    ghost predicate Valid()
      reads this
    {
      forall k :: 0 <= k < |navItems| ==> navItems[k].target != Some("")
    }

    constructor (header: Option<set<string>>, sidebar: Option<set<string>>, navItems: seq<NavItem>)
      requires forall k :: 0 <= k < |navItems| ==> navItems[k].target != Some("")
      ensures Valid()
      ensures lastScrollTop == 0.0 && !ticking
      ensures this.header == header && this.sidebar == sidebar && this.navItems == navItems
    {
      lastScrollTop := 0.0;
      ticking := false;
      this.header := header;
      this.sidebar := sidebar;
      this.navItems := navItems;
    }

    /** The `scroll` listener: requests a frame only when none is pending. */
    method OnScroll() returns (requested: bool)
      modifies this`ticking
      ensures requested == !old(ticking)
      ensures ticking
    {
      requested := false;
      if !ticking {
        requested := true;
        ticking := true;
      }
    }

    /** The first half of `updateScroll`: hide the header and flag the sidebar exactly when scrolling down past 100px. */
    method RestyleBars(scrollTop: real)
      modifies this`header, this`sidebar
      ensures header.Some? == old(header).Some? && sidebar.Some? == old(sidebar).Some?
      ensures header.Some? ==>
        && ("hide" in header.value <==> HidesHeader(scrollTop, lastScrollTop))
        && header.value - {"hide"} == old(header).value - {"hide"}
      ensures sidebar.Some? ==>
        && ("scroll-up" in sidebar.value <==> HidesHeader(scrollTop, lastScrollTop))
        && sidebar.value - {"scroll-up"} == old(sidebar).value - {"scroll-up"}
    {
      if scrollTop > lastScrollTop && scrollTop > 100.0 {
        if header.Some? { header := Some(header.value + {"hide"}); }
        if sidebar.Some? { sidebar := Some(sidebar.value + {"scroll-up"}); }
      } else {
        if header.Some? { header := Some(header.value - {"hide"}); }
        if sidebar.Some? { sidebar := Some(sidebar.value - {"scroll-up"}); }
      }
    }

    /** The navigation loop of `updateScroll`: `active` on exactly the links whose target is `current`. */
    method HighlightNav(current: string)
      requires Valid()
      modifies this`navItems
      ensures Valid()
      ensures |navItems| == |old(navItems)|
      ensures forall k :: 0 <= k < |navItems| ==>
        && navItems[k].target == old(navItems)[k].target
        && navItems[k].classes - {"active"} == old(navItems)[k].classes - {"active"}
        && ("active" in navItems[k].classes <==> navItems[k].target == Some(current))
    {
      var i := 0;
      while i < |navItems|
        invariant 0 <= i <= |navItems| == |old(navItems)|
        invariant Valid()
        invariant forall k :: 0 <= k < |navItems| ==> navItems[k].target == old(navItems)[k].target
        invariant forall k :: 0 <= k < |navItems| ==>
          navItems[k].classes - {"active"} == old(navItems)[k].classes - {"active"}
        invariant forall k :: 0 <= k < i ==>
          ("active" in navItems[k].classes <==> navItems[k].target == Some(current))
      {
        var item := navItems[i];
        var classes := item.classes - {"active"};
        if item.target.Some? && item.target.value == current {
          classes := classes + {"active"};
        }
        navItems := navItems[i := item.(classes := classes)];
        i := i + 1;
      }
    }

    /** `updateScroll`, with the scroll position and the sections' boxes of that frame. */
    method UpdateScroll(scrollTop: real, sections: seq<SectionBox>)
      requires Valid()
      modifies this`lastScrollTop, this`ticking, this`header, this`sidebar, this`navItems
      ensures Valid()
      ensures header.Some? == old(header).Some? && sidebar.Some? == old(sidebar).Some?
      ensures header.Some? ==>
        && ("hide" in header.value <==> HidesHeader(scrollTop, old(lastScrollTop)))
        && header.value - {"hide"} == old(header).value - {"hide"}
      ensures sidebar.Some? ==>
        && ("scroll-up" in sidebar.value <==> HidesHeader(scrollTop, old(lastScrollTop)))
        && sidebar.value - {"scroll-up"} == old(sidebar).value - {"scroll-up"}
      ensures lastScrollTop == scrollTop && !ticking
      ensures |navItems| == |old(navItems)|
      ensures forall k :: 0 <= k < |navItems| ==>
        && navItems[k].target == old(navItems)[k].target
        && navItems[k].classes - {"active"} == old(navItems)[k].classes - {"active"}
        && ("active" in navItems[k].classes <==> navItems[k].target == Some(CurrentSectionOf(sections)))
      ensures CurrentSectionOf(sections) == "" ==> forall k :: 0 <= k < |navItems| ==> "active" !in navItems[k].classes
    {
      RestyleBars(scrollTop);
      lastScrollTop := scrollTop;
      var currentSection := CurrentSection(sections);
      HighlightNav(currentSection);
      ticking := false;
    }
  }
}
