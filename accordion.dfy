/**
 * js/main.js, `toggleAccordion`: an FAQ button opens or closes the element
 * that follows it and turns its arrow icon.
 */
module Accordion {
  import opened Common

  /** An inline `display` of "" (unset) or "none" counts as closed. */
  predicate IsOpen(display: string)
  {
    display != "none" && display != ""
  }

  function ToggledDisplay(display: string): (r: string)
    ensures IsOpen(r) == !IsOpen(display)
    ensures r == "block" || r == "none"
  {
    if display == "none" || display == "" then "block" else "none"
  }

  function IconTransform(open: bool): string
  {
    if open then "rotate(180deg)" else "rotate(0deg)"
  }

  function AriaExpanded(open: bool): string
  {
    if open then "true" else "false"
  }

  /** Two clicks restore the open/closed state, and the display itself once it was set by a click. */
  lemma ToggleTwiceRestores(display: string)
    ensures IsOpen(ToggledDisplay(ToggledDisplay(display))) == IsOpen(display)
    ensures display == "block" || display == "none" ==> ToggledDisplay(ToggledDisplay(display)) == display
  {
  }

  /** An accordion button, the content element after it and the `svg` icon inside it. */
  class AccordionButton {
    var ariaExpanded: Option<string>
    /** `style.display` of `nextElementSibling`; None when the button has no next sibling */
    var content: Option<string>
    /** `style.transform` of the `svg` child; None when the button holds none */
    var icon: Option<string>

    constructor (content: Option<string>, icon: Option<string>)
      ensures ariaExpanded == None && this.content == content && this.icon == icon
    {
      ariaExpanded := None;
      this.content := content;
      this.icon := icon;
    }

    /**
     * A click. A missing sibling or icon throws a TypeError part-way, which
     * `ok == false` reports: with no sibling nothing changes, with no icon the
     * display has already flipped and the attribute is left as it was.
     */
    method Toggle() returns (ok: bool)
      modifies this
      ensures ok == (old(content).Some? && old(icon).Some?)
      ensures old(content).None? ==> content == old(content) && icon == old(icon) && ariaExpanded == old(ariaExpanded)
      ensures old(content).Some? ==> content == Some(ToggledDisplay(old(content).value))
      ensures old(content).Some? && old(icon).None? ==> icon == old(icon) && ariaExpanded == old(ariaExpanded)
      ensures ok ==>
        && IsOpen(content.value) == !IsOpen(old(content).value)
        && icon == Some(IconTransform(IsOpen(content.value)))
        && ariaExpanded == Some(AriaExpanded(IsOpen(content.value)))
    {
      if content.None? {
        return false;
      }
      var opening := content.value == "none" || content.value == "";
      if opening {
        content := Some("block");
        if icon.None? { return false; }
        icon := Some("rotate(180deg)");
        ariaExpanded := Some("true");
      } else {
        content := Some("none");
        if icon.None? { return false; }
        icon := Some("rotate(0deg)");
        ariaExpanded := Some("false");
      }
      ok := true;
    }
  }
}
