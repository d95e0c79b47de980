/**
 * js/screenshot-loader.js: resolving a feature folder to a media path through
 * a fixed table and a cache, the placeholder for folders the table does not
 * know, the video/image classification of a path, and the rewrite of every
 * `img[data-screenshot]` element.
 */
module ScreenshotLoader {
  import opened Common
  import opened Text
  import opened Dom

  /** `knownScreenshots`: the only folders that resolve to a real file. */
  const KnownScreenshots: map<string, string> := map[
    "login" := "screenshot.mov",
    "main-interface" := "screenshot.png",
    "video-player" := "screenshot.mov",
    "video-upload" := "screenshot.mov",
    "video-upload-dialog" := "screenshot.png",
    "search" := "screenshot.mov",
    "reports" := "screenshot.png",
    "advanced" := "screenshot.mov",
    "project-actions" := "screenshot.mov",
    "project-page" := "screenshot.mov",
    "detect-image-search" := "screenshot.mov",
    "detect-learned-class" := "screenshot.mov",
    "detect-text-search" := "screenshot.mov",
    "find-similar-results" := "screenshot.mov"
  ]

  function BasePath(folder: string): string
  {
    "screenshots/" + folder + "/"
  }

  /** `findScreenshot`: the table's file under the folder's base path, or null; nothing is probed. */
  function FindScreenshot(folder: string): (r: Option<string>)
    ensures r.Some? <==> folder in KnownScreenshots
    ensures r.Some? ==> r.value == BasePath(folder) + KnownScreenshots[folder]
  {
    if folder in KnownScreenshots then Some(BasePath(folder) + KnownScreenshots[folder]) else None
  }

  // ----- the placeholder -----

  const PlaceholderPrefix: string :=
    "data:" + "image/svg+xml,%3Csvg xmlns='http://www.w3.org/2000/svg' width='800' height='450' viewBox='0 0 800 450'%3E"
    + "%3Crect width='800' height='450' fill='%23f3f4f6'/%3E%3Ctext x='50%25' y='45%25' text-anchor='middle' dy='.3em' "
    + "fill='%239ca3af' font-family='Inter, sans-serif' font-size='18' font-weight='500'%3E"

  const PlaceholderSuffix: string :=
    "%3C/text%3E%3Ctext x='50%25' y='55%25' text-anchor='middle' dy='.3em' fill='%236b7280' "
    + "font-family='Inter, sans-serif' font-size='14'%3EScreenshot bude doplněn%3C/text%3E%3C/svg%3E"

  /** The SVG data URI shown for a folder that does not resolve; the folder name is its caption. */
  function Placeholder(folder: string): string
  {
    PlaceholderPrefix + folder + PlaceholderSuffix
  }

  lemma SplitInThree(s: string, i: nat, j: nat)
    requires i <= j <= |s|
    ensures s == s[..i] + s[i..j] + s[j..]
  {
  }

  /** Reads the caption back out of a placeholder URI; `None` for anything that is not one. */
  function PlaceholderCaption(uri: string): (r: Option<string>)
    ensures r.Some? ==> Placeholder(r.value) == uri
  {
    var p, q := |PlaceholderPrefix|, |PlaceholderSuffix|;
    if p + q <= |uri| && uri[..p] == PlaceholderPrefix && uri[|uri| - q..] == PlaceholderSuffix
    then
      SplitInThree(uri, p, |uri| - q);
      Some(uri[p..|uri| - q])
    else None
  }

  /** The placeholder embeds exactly the folder name: it can be read back. */
  lemma PlaceholderRoundTrip(folder: string)
    ensures PlaceholderCaption(Placeholder(folder)) == Some(folder)
  {
    var uri := Placeholder(folder);
    var p, q := |PlaceholderPrefix|, |PlaceholderSuffix|;
    assert uri[..p] == PlaceholderPrefix;
    assert uri[|uri| - q..] == PlaceholderSuffix;
    assert uri[p..|uri| - q] == folder;
  }

  /** Distinct folders get distinct placeholders. */
  lemma PlaceholderInjective(f: string, g: string)
    requires Placeholder(f) == Placeholder(g)
    ensures f == g
  {
    PlaceholderRoundTrip(f);
    PlaceholderRoundTrip(g);
  }

  /** A placeholder is never a table path: one starts `data:`, the other `screenshots/`. */
  lemma PlaceholderIsNoTablePath(folder: string, other: string)
    ensures FindScreenshot(other).Some? ==> Placeholder(folder) != FindScreenshot(other).value
  {
    if FindScreenshot(other).Some? {
      assert PlaceholderPrefix[0] == 'd';
      assert Placeholder(folder)[0] == 'd';
      assert FindScreenshot(other).value[0] == 's';
    }
  }

  // ----- resolution -----

  /** What `loadDynamicScreenshot` returns for a folder, whatever the cache holds. */
  function Resolve(folder: string): string
  {
    match FindScreenshot(folder)
    case Some(path) => path
    case None => Placeholder(folder)
  }

  /** Every folder resolves either to its table path or to a placeholder that names it. */
  lemma ResolveCases(folder: string)
    ensures folder in KnownScreenshots ==> Resolve(folder) == BasePath(folder) + KnownScreenshots[folder]
    ensures folder !in KnownScreenshots ==> PlaceholderCaption(Resolve(folder)) == Some(folder)
  {
    if folder !in KnownScreenshots {
      PlaceholderRoundTrip(folder);
    }
  }

  /** `screenshotMap` holds only table folders, each with its table path. */
  ghost predicate CacheValid(cache: map<string, string>)
  {
    forall f :: f in cache ==> f in KnownScreenshots && cache[f] == BasePath(f) + KnownScreenshots[f]
  }

  // ----- classification -----

  /** The extensions `initializeAllScreenshots` treats as video. */
  const VideoExtensions: seq<string> := [".mov", ".mp4", ".webm"]

  /** The list `checkImage` uses; the upper-case entries can never match a lower-cased path. */
  const CheckVideoExtensions: seq<string> := [".mov", ".mp4", ".webm", ".MOV", ".MP4", ".WEBM"]

  /** A path is a video when its lower-cased text contains a video extension anywhere. */
  predicate IsVideo(path: string)
  {
    ContainsAny(Lower(path), VideoExtensions)
  }

  predicate IsGif(path: string)
  {
    Contains(Lower(path), ".gif")
  }

  /** The classification ignores case. */
  lemma IsVideoIgnoresCase(path: string)
    ensures IsVideo(Lower(path)) == IsVideo(path)
  {
    LowerIdempotent(path);
  }

  /** The classification is a substring test, not a suffix test: an extension anywhere counts. */
  lemma IsVideoAnywhere(a: string, k: nat, b: string)
    requires k < |VideoExtensions|
    ensures IsVideo(a + VideoExtensions[k] + b)
  {
    var ext := VideoExtensions[k];
    LowerConcat(a + ext, b);
    LowerConcat(a, ext);
    assert Lower(ext) == ext;
    assert Lower(a + ext + b) == Lower(a) + ext + Lower(b);
    ContainsInside(Lower(a), ext, Lower(b));
  }

  /** Wrapping a path that holds a video extension keeps it classified as video. */
  lemma IsVideoWrapped(pre: string, a: string, k: nat, b: string, post: string)
    requires k < |VideoExtensions|
    ensures IsVideo(pre + (a + VideoExtensions[k] + b) + post)
  {
    var ext := VideoExtensions[k];
    assert pre + (a + ext + b) + post == (pre + a) + ext + (b + post);
    IsVideoAnywhere(pre + a, k, b + post);
  }

  /** `checkImage`'s six-entry list classifies every path as `initializeAllScreenshots`'s three do. */
  lemma CheckImageListAgrees(path: string)
    ensures ContainsAny(Lower(path), CheckVideoExtensions) == IsVideo(path)
  {
    var l := Lower(path);
    LowerMissesUpperPattern(path, ".MOV", 1);
    LowerMissesUpperPattern(path, ".MP4", 1);
    LowerMissesUpperPattern(path, ".WEBM", 1);
    if ContainsAny(l, CheckVideoExtensions) {
      var k :| 0 <= k < |CheckVideoExtensions| && Contains(l, CheckVideoExtensions[k]);
      assert k < 3;
      assert Contains(l, VideoExtensions[k]);
    }
    if IsVideo(path) {
      var k :| 0 <= k < |VideoExtensions| && Contains(l, VideoExtensions[k]);
      assert Contains(l, CheckVideoExtensions[k]);
    }
  }

  lemma NoDotConcat(a: string, b: string)
    requires '.' !in a && '.' !in b
    ensures '.' !in a + b
  {
    forall i | 0 <= i < |a + b|
      ensures (a + b)[i] != '.'
    {
      if i < |a| { assert (a + b)[i] == a[i]; } else { assert (a + b)[i] == b[i - |a|]; }
    }
  }

  lemma LowerKeepsDotAbsent(s: string)
    requires '.' !in s
    ensures '.' !in Lower(s)
  {
    forall i | 0 <= i < |s|
      ensures Lower(s)[i] != '.'
    {
      assert s[i] != '.';
    }
  }

  /** A `.mov` table entry is classified as video, under any folder name. */
  lemma MovEntryIsVideo(folder: string)
    ensures IsVideo(BasePath(folder) + "screenshot.mov")
  {
    assert BasePath(folder) + "screenshot.mov" == BasePath(folder) + "screenshot" + VideoExtensions[0] + "";
    IsVideoAnywhere(BasePath(folder) + "screenshot", 0, "");
  }

  /** A `.png` table entry is classified as an image when the folder name has no dot. */
  lemma PngEntryIsImage(folder: string)
    requires '.' !in folder
    ensures !IsVideo(BasePath(folder) + "screenshot.png")
  {
    var head := BasePath(folder) + "screenshot";
    assert '.' !in "screenshots/" && '.' !in "/" && '.' !in "screenshot";
    NoDotConcat("screenshots/", folder);
    NoDotConcat("screenshots/" + folder, "/");
    NoDotConcat(BasePath(folder), "screenshot");
    LowerKeepsDotAbsent(head);
    LowerConcat(head, ".png");
    assert Lower(".png") == ".png";
    assert BasePath(folder) + "screenshot.png" == head + ".png";
    var l := Lower(head + ".png");
    assert l == Lower(head) + ".png";
    ContainsSkipsPrefix(Lower(head), ".png", ".mov");
    ContainsSkipsPrefix(Lower(head), ".png", ".mp4");
    ContainsSkipsPrefix(Lower(head), ".png", ".webm");
    assert !Contains(".png", ".mov") by {
      assert ".png"[..4] != ".mov" by { assert ".png"[1] != ".mov"[1]; }
    }
    assert !Contains(".png", ".mp4") by {
      assert ".png"[..4] != ".mp4" by { assert ".png"[1] != ".mp4"[1]; }
    }
    assert !Contains(".png", ".webm");
    assert forall k :: 0 <= k < |VideoExtensions| ==> !Contains(l, VideoExtensions[k]);
  }

  /** Over the whole table: a known folder resolves to a video exactly when its file is the `.mov`. */
  lemma TableClassification(folder: string)
    requires folder in KnownScreenshots
    ensures IsVideo(Resolve(folder)) <==> KnownScreenshots[folder] == "screenshot.mov"
  {
    var file := KnownScreenshots[folder];
    assert file == "screenshot.mov" || file == "screenshot.png";
    if file == "screenshot.mov" {
      MovEntryIsVideo(folder);
    } else {
      assert '.' !in folder;
      PngEntryIsImage(folder);
    }
  }

  /** An unknown folder whose name holds a video extension gets a placeholder classified as video. */
  lemma PlaceholderCanClassifyAsVideo(a: string, k: nat, b: string)
    requires k < |VideoExtensions|
    ensures IsVideo(Placeholder(a + VideoExtensions[k] + b))
  {
    IsVideoWrapped(PlaceholderPrefix, a, k, b, PlaceholderSuffix);
  }

  // ----- the existence check -----

  /** How a `fetch(path, {method: 'HEAD'})` ends: rejected, or a response with its `content-length` header. */
  datatype HeadOutcome = HeadRejected | HeadResponse(ok: bool, contentLength: Option<string>)

  /**
   * `checkImage`: a video path exists when its HEAD response is ok and its
   * `content-length` parses to a positive number; any other path exists when
   * it loads as an image with positive width and height. Errors are `false`.
   */
  function CheckImage(path: string, head: HeadOutcome, image: ImageOutcome): (r: bool)
    ensures IsVideo(path) ==> (r <==> head.HeadResponse? && head.ok && head.contentLength.Some?
                                      && ParseInt(head.contentLength.value).Some?
                                      && ParseInt(head.contentLength.value).value > 0)
    ensures !IsVideo(path) ==> (r <==> image.ImageLoaded? && image.width > 0 && image.height > 0)
  {
    CheckImageListAgrees(path);
    if ContainsAny(Lower(path), CheckVideoExtensions) then
      match head
      case HeadRejected => false
      case HeadResponse(ok, contentLength) =>
        ok && contentLength.Some? && contentLength.value != ""
        && match ParseInt(contentLength.value)
           case None => false
           case Some(n) => n > 0
    else
      match image
      case ImageError => false
      case ImageLoaded(width, height) => width > 0 && height > 0
  }

  /** A video whose `content-length` is the decimal text of `n` exists exactly when `n` is positive. */
  lemma VideoExistsIffNonEmpty(path: string, n: nat, image: ImageOutcome)
    requires IsVideo(path)
    ensures CheckImage(path, HeadResponse(true, Some(DecimalText(n))), image) <==> n > 0
  {
    ParseIntDecimalText(n);
  }

  // ----- rewriting the elements -----

  const VideoClasses: set<string> := {"screenshot-video", "screenshot-zoom", "cursor-pointer"}
  const GifTitle: string := "Animace - klikněte pro zvětšení"

  /** `img[data-screenshot]` with a non-empty folder: the elements `initializeAllScreenshots` resolves. */
  predicate Selected(e: Element)
  {
    e.tag == Img && "data-screenshot" in e.attrs && e.attrs["data-screenshot"] != ""
  }

  /** The `<video>` built for an image whose path is a video. */
  function VideoFor(img: Element, src: string): Element
  {
    var attrs := map["src" := src, "autoplay" := "", "loop" := "", "muted" := "", "playsinline" := ""];
    var titled := if "alt" in img.attrs then attrs["title" := img.attrs["alt"]] else attrs;
    var loading := if "loading" in img.attrs then titled["loading" := img.attrs["loading"]] else titled;
    Element(Video, img.classes + VideoClasses, loading, img.attached, img.container, NoHandler)
  }

  /** The image itself, pointed at `src` and marked as loading (and as a GIF when it is one). */
  function ImageFor(img: Element, src: string): Element
  {
    var gif := IsGif(src);
    var classes := img.classes + {"screenshot-loading"} + (if gif then {"screenshot-gif"} else {});
    var title := if "title" in img.attrs && img.attrs["title"] != "" then img.attrs["title"] else GifTitle;
    var attrs := if gif then img.attrs["src" := src]["loading" := "eager"]["title" := title]
                 else img.attrs["src" := src];
    Element(Img, classes, attrs, img.attached, img.container, MarkLoaded(gif))
  }

  /** What one pass of `initializeAllScreenshots` leaves in the place of element `e`. */
  function Initialized(e: Element): Element
  {
    if !Selected(e) then e
    else
      var src := Resolve(e.attrs["data-screenshot"]);
      if IsVideo(src) then (if e.attached then VideoFor(e, src) else e)
      else ImageFor(e, src)
  }

  function InitializedAll(ns: seq<Element>): (r: seq<Element>)
    ensures |r| == |ns|
  {
    seq(|ns|, k requires 0 <= k < |ns| => Initialized(ns[k]))
  }

  /** The folders of the elements one pass resolves. */
  function SelectedFolders(ns: seq<Element>): set<string>
  {
    set k | 0 <= k < |ns| && Selected(ns[k]) :: ns[k].attrs["data-screenshot"]
  }

  /** The folder of one element, if one pass resolves it. */
  function SelectedFolder(e: Element): set<string>
  {
    if Selected(e) then {e.attrs["data-screenshot"]} else {}
  }

  /** The cache grows by the known folders of a prefix, one element at a time. */
  lemma CachedFoldersStep(keys: set<string>, ns: seq<Element>, e: Element, known: set<string>)
    ensures keys + (SelectedFolders(ns) * known) + (SelectedFolder(e) * known)
         == keys + (SelectedFolders(ns + [e]) * known)
  {
    SelectedFoldersSnoc(ns, e);
  }

  /** The `onload` handler: `screenshot-loading` gives way to `screenshot-loaded`. */
  function AfterLoad(e: Element): Element
  {
    if e.onload.MarkLoaded? then e.(classes := e.classes - {"screenshot-loading"} + {"screenshot-loaded"}) else e
  }

  /** The `<video>` built for `img`: its attributes, classes, handler and place. */
  lemma VideoForShape(img: Element, src: string)
    ensures var v := VideoFor(img, src);
      && v.tag == Video && v.attached == img.attached
      && v.attrs["src"] == src
      && "autoplay" in v.attrs && "loop" in v.attrs && "muted" in v.attrs && "playsinline" in v.attrs
      && v.classes == img.classes + VideoClasses
      && ("alt" in img.attrs ==> v.attrs["title"] == img.attrs["alt"])
      && ("loading" in img.attrs ==> v.attrs["loading"] == img.attrs["loading"])
      && v.onload == NoHandler && v.container == img.container
    ensures VideoFor(img, src).attrs.Keys
      == {"src", "autoplay", "loop", "muted", "playsinline"}
         + (if "alt" in img.attrs then {"title"} else {})
         + (if "loading" in img.attrs then {"loading"} else {})
  {
  }

  /** A resolved video replaces an attached image with a silent, looping, autoplaying `<video>`. */
  lemma VideoReplacesImage(e: Element)
    requires Selected(e) && IsVideo(Resolve(e.attrs["data-screenshot"])) && e.attached
    ensures var v := Initialized(e);
      && v.tag == Video && v.attached
      && v.attrs["src"] == Resolve(e.attrs["data-screenshot"])
      && "autoplay" in v.attrs && "loop" in v.attrs && "muted" in v.attrs && "playsinline" in v.attrs
      && v.classes == e.classes + VideoClasses
      && ("title" in v.attrs <==> "alt" in e.attrs)
      && ("alt" in e.attrs ==> v.attrs["title"] == e.attrs["alt"])
      && ("loading" in v.attrs <==> "loading" in e.attrs)
      && ("loading" in e.attrs ==> v.attrs["loading"] == e.attrs["loading"])
      && !Selected(v)
    ensures Initialized(e).attrs.Keys
      == {"src", "autoplay", "loop", "muted", "playsinline"}
         + (if "alt" in e.attrs then {"title"} else {})
         + (if "loading" in e.attrs then {"loading"} else {})
    ensures "controls" !in Initialized(e).attrs
    ensures Initialized(e).onload == NoHandler && Initialized(e).container == e.container
  {
    VideoForShape(e, Resolve(e.attrs["data-screenshot"]));
  }

  /** Without a parent there is nothing to replace: the image stays exactly as it was. */
  lemma DetachedImageKept(e: Element)
    requires Selected(e) && IsVideo(Resolve(e.attrs["data-screenshot"])) && !e.attached
    ensures Initialized(e) == e
  {
  }

  /** A resolved image gets its `src`, the loading class, and for a GIF the GIF class, `loading=eager` and a title. */
  lemma ImageMarkedLoading(e: Element)
    requires Selected(e) && !IsVideo(Resolve(e.attrs["data-screenshot"]))
    ensures var src := Resolve(e.attrs["data-screenshot"]); var i := Initialized(e);
      && i.tag == Img && i.attrs["src"] == src
      && "screenshot-loading" in i.classes && e.classes <= i.classes
      && i.onload == MarkLoaded(IsGif(src))
      && ("screenshot-gif" in i.classes <==> IsGif(src) || "screenshot-gif" in e.classes)
      && (IsGif(src) ==> i.attrs["loading"] == "eager" && i.attrs["title"] != "")
      && (IsGif(src) && "title" in e.attrs && e.attrs["title"] != "" ==> i.attrs["title"] == e.attrs["title"])
      && (!IsGif(src) ==> i.attrs == e.attrs["src" := src])
      && Selected(i)
    ensures var src := Resolve(e.attrs["data-screenshot"]); var i := Initialized(e);
      i.classes == e.classes + {"screenshot-loading"} + (if IsGif(src) then {"screenshot-gif"} else {})
    ensures var src := Resolve(e.attrs["data-screenshot"]); var i := Initialized(e);
      IsGif(src) && !("title" in e.attrs && e.attrs["title"] != "") ==> i.attrs["title"] == GifTitle
    ensures var src := Resolve(e.attrs["data-screenshot"]); var i := Initialized(e);
      IsGif(src) ==>
        && i.attrs.Keys == e.attrs.Keys + {"src", "loading", "title"}
        && forall a :: a in e.attrs && a != "src" && a != "loading" && a != "title" ==> i.attrs[a] == e.attrs[a]
    ensures Initialized(e).container == e.container && Initialized(e).attached == e.attached
  {
  }

  /** Once the image has loaded it carries `screenshot-loaded` and no longer `screenshot-loading`. */
  lemma LoadedImageState(e: Element)
    requires Selected(e) && !IsVideo(Resolve(e.attrs["data-screenshot"]))
    ensures "screenshot-loaded" in AfterLoad(Initialized(e)).classes
    ensures "screenshot-loading" !in AfterLoad(Initialized(e)).classes
  {
  }

  /** Rewriting an already rewritten image with the same `src` changes nothing. */
  lemma ImageForTwice(e: Element, src: string)
    ensures ImageFor(ImageFor(e, src), src) == ImageFor(e, src)
  {
    var i := ImageFor(e, src);
    var j := ImageFor(i, src);
    assert j.classes == i.classes;
    if IsGif(src) {
      assert i.attrs["title"] != "";
    }
    assert j.attrs == i.attrs;
  }

  /** A second pass changes nothing: videos are no longer selected, images are already rewritten. */
  lemma {:induction false} InitializedIdempotent(e: Element)
    ensures Initialized(Initialized(e)) == Initialized(e)
  {
    if Selected(e) {
      var folder := e.attrs["data-screenshot"];
      var src := Resolve(folder);
      if !IsVideo(src) {
        var i := ImageFor(e, src);
        assert i.attrs["data-screenshot"] == folder;
        ImageForTwice(e, src);
      }
    }
  }

  /** A second pass straight after the first, with no image load in between, changes nothing. */
  lemma {:induction false} InitializedAllIdempotent(ns: seq<Element>)
    ensures InitializedAll(InitializedAll(ns)) == InitializedAll(ns)
  {
    forall k | 0 <= k < |ns|
      ensures InitializedAll(InitializedAll(ns))[k] == InitializedAll(ns)[k]
    {
      InitializedIdempotent(ns[k]);
    }
  }

  /**
   * Passes are idempotent only back to back: once the `onload` of a rewritten image has
   * fired, a further pass resolves the same folder again and puts `screenshot-loading` back.
   */
  lemma ReloadReaddsLoading(e: Element)
    requires Selected(e) && !IsVideo(Resolve(e.attrs["data-screenshot"]))
    ensures var loaded := AfterLoad(Initialized(e));
      && "screenshot-loading" !in loaded.classes
      && "screenshot-loading" in Initialized(loaded).classes
      && Initialized(loaded) != loaded
  {
    var folder := e.attrs["data-screenshot"];
    var i := ImageFor(e, Resolve(folder));
    assert i.attrs["data-screenshot"] == folder;
    var loaded := AfterLoad(i);
    assert loaded.attrs == i.attrs;
    assert Selected(loaded);
    assert "screenshot-loading" in ImageFor(loaded, Resolve(folder)).classes;
  }

  lemma SelectedFoldersSnoc(ns: seq<Element>, e: Element)
    ensures SelectedFolders(ns + [e]) == SelectedFolders(ns) + SelectedFolder(e)
  {
    var ms := ns + [e];
    forall f | f in SelectedFolders(ms)
      ensures f in SelectedFolders(ns) + SelectedFolder(e)
    {
      var k :| 0 <= k < |ms| && Selected(ms[k]) && ms[k].attrs["data-screenshot"] == f;
      if k < |ns| {
        assert ms[k] == ns[k];
      }
    }
    forall f | f in SelectedFolders(ns)
      ensures f in SelectedFolders(ms)
    {
      var k :| 0 <= k < |ns| && Selected(ns[k]) && ns[k].attrs["data-screenshot"] == f;
      assert ms[k] == ns[k];
    }
    if Selected(e) {
      assert ms[|ns|] == e;
    }
  }

  /**
   * The page state js/screenshot-loader.js works on: the `screenshotMap` cache,
   * the document's elements in order, and the number of `.gif-indicator`
   * children of each `.screenshot-container`.
   */
  class ScreenshotPage {
    var cache: map<string, string>
    var nodes: seq<Element>
    var indicators: seq<nat>

    ghost predicate Valid()
      reads this
    {
      && CacheValid(cache)
      && (forall k :: 0 <= k < |nodes| && nodes[k].container.Some? ==> nodes[k].container.value < |indicators|)
      && (forall c :: 0 <= c < |indicators| ==> indicators[c] <= 1)
    }

    constructor (nodes: seq<Element>, containerCount: nat)
      requires forall k :: 0 <= k < |nodes| && nodes[k].container.Some? ==> nodes[k].container.value < containerCount
      ensures Valid()
      ensures this.nodes == nodes && cache == map[]
      ensures |indicators| == containerCount && forall c :: 0 <= c < containerCount ==> indicators[c] == 0
    {
      this.nodes := nodes;
      cache := map[];
      indicators := seq(containerCount, _ => 0);
    }

    /** `loadDynamicScreenshot`: cache first, then the table (caching what it finds), else the placeholder. */
    method LoadDynamicScreenshot(folder: string) returns (path: string)
      requires Valid()
      modifies this`cache
      ensures Valid()
      ensures path == Resolve(folder)
      ensures folder in old(cache) ==> path == old(cache)[folder] && cache == old(cache)
      ensures folder !in old(cache) && folder in KnownScreenshots ==> cache == old(cache)[folder := path]
      ensures folder !in KnownScreenshots ==> cache == old(cache)
      ensures cache.Keys == old(cache).Keys + ({folder} * KnownScreenshots.Keys)
    {
      if folder in cache {
        return cache[folder];
      }
      var found := FindScreenshot(folder);
      if found.Some? {
        cache := cache[folder := found.value];
        return found.value;
      }
      return Placeholder(folder);
    }

    /** The rewrite of a selected element at index `i` once its folder has resolved to `src`. */
    method RewriteSelected(i: nat, src: string)
      requires Valid() && i < |nodes| && Selected(nodes[i])
      requires src == Resolve(nodes[i].attrs["data-screenshot"])
      modifies this`nodes
      ensures Valid()
      ensures nodes == old(nodes)[i := Initialized(old(nodes)[i])]
    {
      var img := nodes[i];
      if ContainsAny(Lower(src), VideoExtensions) {
        var video := VideoFor(img, src);
        assert video.container == img.container;
        if img.attached {
          nodes := nodes[i := video];
        }
      } else {
        nodes := nodes[i := ImageFor(img, src)];
      }
    }

    /** One iteration of screenshot-loader.js's `initializeAllScreenshots` loop over `img[data-screenshot]`, for the element at index `i`. */
    method InitializeScreenshot(i: nat)
      requires Valid() && i < |nodes|
      modifies this`cache, this`nodes
      ensures Valid()
      ensures nodes == old(nodes)[i := Initialized(old(nodes)[i])]
      ensures cache.Keys == old(cache).Keys + (SelectedFolder(old(nodes)[i]) * KnownScreenshots.Keys)
    {
      var img := nodes[i];
      var folder := GetAttribute(img, "data-screenshot");
      if img.tag == Img && folder.Some? && folder.value != "" {
        var src := LoadDynamicScreenshot(folder.value);
        RewriteSelected(i, src);
      }
    }

    /** `initializeAllScreenshots`: resolve and rewrite each selected element, in document order. */
    method InitializeAllScreenshots()
      requires Valid()
      modifies this`cache, this`nodes
      ensures Valid()
      ensures nodes == InitializedAll(old(nodes))
      ensures cache.Keys == old(cache).Keys + (SelectedFolders(old(nodes)) * KnownScreenshots.Keys)
    {
      var i := 0;
      while i < |nodes|
        invariant 0 <= i <= |nodes| == |old(nodes)|
        invariant Valid()
        invariant forall k :: 0 <= k < i ==> nodes[k] == Initialized(old(nodes)[k])
        invariant forall k :: i <= k < |nodes| ==> nodes[k] == old(nodes)[k]
        invariant cache.Keys == old(cache).Keys + (SelectedFolders(old(nodes)[..i]) * KnownScreenshots.Keys)
      {
        CachedFoldersStep(old(cache).Keys, old(nodes)[..i], nodes[i], KnownScreenshots.Keys);
        assert old(nodes)[..i + 1] == old(nodes)[..i] + [nodes[i]];
        InitializeScreenshot(i);
        i := i + 1;
      }
      assert old(nodes)[..i] == old(nodes);
    }

    /** The `onload` handler firing for element `i`; a GIF adds at most one badge to its container. */
    method OnImageLoad(i: nat)
      requires Valid() && i < |nodes|
      modifies this`nodes, this`indicators
      ensures Valid()
      ensures nodes == old(nodes)[i := AfterLoad(old(nodes)[i])]
      ensures |indicators| == |old(indicators)|
      ensures forall c :: 0 <= c < |indicators| ==>
        indicators[c] == if old(nodes)[i].onload == MarkLoaded(true) && old(nodes)[i].container == Some(c)
                         then 1 else old(indicators)[c]
    {
      var img := nodes[i];
      if img.onload.MarkLoaded? {
        nodes := nodes[i := img.(classes := img.classes - {"screenshot-loading"} + {"screenshot-loaded"})];
        if img.onload.gif && img.container.Some? {
          var c := img.container.value;
          if indicators[c] == 0 {
            indicators := indicators[c := 1];
          }
        }
      }
    }
  }
}
