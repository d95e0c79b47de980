/**
 * The part of the DOM the page scripts touch: an element is a record of its
 * tag, its class list, its attributes, whether it has a parent node, and the
 * handler its `onload` property holds.
 */
module Dom {
  import opened Common

  datatype Tag = Img | Video

  /** What an element's `onload` handler does once the image has loaded. */
  datatype LoadHandler =
    | NoHandler
      /** swap `screenshot-loading` for `screenshot-loaded`; for a GIF, add the indicator badge */
    | MarkLoaded(gif: bool)

  datatype Element = Element(
    tag: Tag,
    classes: set<string>,
    attrs: map<string, string>,
    /** `parentNode` is not null */
    attached: bool,
    /** index of `closest('.screenshot-container')`, if any */
    container: Option<nat>,
    onload: LoadHandler)

  /** How loading a URL into an `Image` object ends: an `error` event, or a `load` event with its size. */
  datatype ImageOutcome = ImageError | ImageLoaded(width: int, height: int)

  /** `getAttribute(name)`: `None` stands for null. */
  function GetAttribute(e: Element, name: string): (r: Option<string>)
    ensures r.Some? <==> name in e.attrs
    ensures r.Some? ==> r.value == e.attrs[name]
  {
    if name in e.attrs then Some(e.attrs[name]) else None
  }
}
