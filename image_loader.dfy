/**
 * js/image-loader.js: probing a fixed, ranked list of candidate file names
 * under a folder and pointing an element at the first one that loads, with a
 * placeholder and an alt text when none does.
 */
module ImageLoader {
  import opened Common
  import opened Text
  import opened Dom
  import ScreenshotLoader

  const Extensions: seq<string> := ["png", "jpg", "jpeg", "gif", "webp"]

  const PossibleNames: seq<string> := ["screenshot", "Screenshot", "image", "Image", "screen", "Screen"]

  /** `screenshot1` up to `screenshot10`. */
  function NumberedNames(): (r: seq<string>)
    ensures |r| == 10
  {
    seq(10, k requires 0 <= k < 10 => "screenshot" + DecimalText(k + 1))
  }

  /** `name` under `base` with each extension in turn. */
  function Row(base: string, name: string, exts: seq<string>): (r: seq<string>)
    ensures |r| == |exts|
  {
    seq(|exts|, j requires 0 <= j < |exts| => base + name + "." + exts[j])
  }

  /** Every name with every extension, the name as the outer loop. */
  function Grid(base: string, names: seq<string>, exts: seq<string>): seq<string>
  {
    if names == [] then [] else Row(base, names[0], exts) + Grid(base, names[1..], exts)
  }

  /** The 80 paths `loadScreenshot` tries, in the order it tries them. */
  function Candidates(folder: string): seq<string>
  {
    var base := ScreenshotLoader.BasePath(folder);
    Grid(base, PossibleNames, Extensions) + Grid(base, NumberedNames(), Extensions)
  }

  /** Position `n * |exts| + e` of the grid is name `n` with extension `e`. */
  lemma {:induction false} GridAt(base: string, names: seq<string>, exts: seq<string>, n: nat, e: nat)
    requires n < |names| && e < |exts|
    ensures |Grid(base, names, exts)| == |names| * |exts|
    ensures n * |exts| + e < |Grid(base, names, exts)|
    ensures Grid(base, names, exts)[n * |exts| + e] == base + names[n] + "." + exts[e]
  {
    var g := Grid(base, names, exts);
    var rest := Grid(base, names[1..], exts);
    if n == 0 {
      if |names| > 1 {
        GridAt(base, names[1..], exts, 0, e);
      } else {
        assert rest == [];
      }
      assert |g| == |exts| + |rest|;
      assert (|names| - 1) * |exts| == |names| * |exts| - |exts|;
    } else {
      GridAt(base, names[1..], exts, n - 1, e);
      assert (n - 1) * |exts| + e == n * |exts| + e - |exts|;
      assert (|names| - 1) * |exts| == |names| * |exts| - |exts|;
      assert g[n * |exts| + e] == rest[(n - 1) * |exts| + e];
    }
  }

  /** The ranked order: 30 named candidates, then 50 numbered ones, extension as the inner loop. */
  lemma CandidateOrder(folder: string, n: nat, i: nat, e: nat)
    requires n < |PossibleNames| && 1 <= i <= 10 && e < |Extensions|
    ensures |Candidates(folder)| == 80
    ensures Candidates(folder)[n * 5 + e]
      == ScreenshotLoader.BasePath(folder) + PossibleNames[n] + "." + Extensions[e]
    ensures Candidates(folder)[30 + (i - 1) * 5 + e]
      == ScreenshotLoader.BasePath(folder) + "screenshot" + DecimalText(i) + "." + Extensions[e]
  {
    var base := ScreenshotLoader.BasePath(folder);
    GridAt(base, PossibleNames, Extensions, n, e);
    GridAt(base, NumberedNames(), Extensions, i - 1, e);
    assert NumberedNames()[i - 1] == "screenshot" + DecimalText(i);
  }

  // ----- first match -----

  /** `imageExists`: true exactly when the `load` event fires; the size is not looked at. */
  predicate ImageExists(outcome: ImageOutcome)
  {
    outcome.ImageLoaded?
  }

  /** The index of the first candidate that loads, if any. */
  function FirstAccepted(cands: seq<string>, load: string -> ImageOutcome): (r: Option<nat>)
    ensures r.Some? ==> r.value < |cands| && ImageExists(load(cands[r.value]))
    ensures r.Some? ==> forall j :: 0 <= j < r.value ==> !ImageExists(load(cands[j]))
    ensures r.None? <==> forall j :: 0 <= j < |cands| ==> !ImageExists(load(cands[j]))
  {
    if cands == [] then None
    else if ImageExists(load(cands[0])) then Some(0)
    else
      match FirstAccepted(cands[1..], load)
      case Some(k) => Some(k + 1)
      case None => None
  }

  /** The candidates actually probed: up to and including the first that loads, or all of them. */
  function ProbeTrace(cands: seq<string>, load: string -> ImageOutcome): (r: seq<string>)
    ensures r <= cands
  {
    match FirstAccepted(cands, load)
    case Some(k) => cands[..k + 1]
    case None => cands
  }

  /** The first candidate that loads, if any. */
  function FirstLoading(cands: seq<string>, load: string -> ImageOutcome): (r: Option<string>)
    ensures r.Some? <==> FirstAccepted(cands, load).Some?
    ensures r.Some? ==> ImageExists(load(r.value))
    ensures r.Some? ==> r.value == cands[FirstAccepted(cands, load).value]
  {
    match FirstAccepted(cands, load)
    case Some(k) => Some(cands[k])
    case None => None
  }

  const NotFoundImage: string := "data:image/svg+xml,%3Csvg xmlns='http://www.w3.org/2000/svg' width='800' height='400' viewBox='0 0 800 400'%3E%3Crect width='800' height='400' fill='%23f3f4f6'/%3E%3Ctext x='50%25' y='50%25' text-anchor='middle' dy='.3em' fill='%236b7280' font-family='Inter, sans-serif' font-size='20'%3EObr\U{EF}\U{BF}\U{BD}zek nenalezen%3C/text%3E%3C/svg%3E"

  function NotFoundAlt(folder: string): string
  {
    "Screenshot pro " + folder + " nenalezen"
  }

  /** The `src` `loadScreenshot` leaves: the first candidate that loads, else the placeholder. */
  function LoadedSrc(folder: string, load: string -> ImageOutcome): string
  {
    match FirstAccepted(Candidates(folder), load)
    case Some(k) => Candidates(folder)[k]
    case None => NotFoundImage
  }

  /** The probed URLs of one element: none when its folder is empty. */
  function FolderTrace(folder: string, load: string -> ImageOutcome): seq<string>
  {
    if folder == "" then [] else ProbeTrace(Candidates(folder), load)
  }

  /** The probed URLs of a sequence of folders, one folder after the other. */
  function Traces(folders: seq<string>, load: string -> ImageOutcome): seq<string>
  {
    if folders == [] then []
    else Traces(folders[..|folders| - 1], load) + FolderTrace(folders[|folders| - 1], load)
  }

  lemma TracesSnoc(folders: seq<string>, i: nat, load: string -> ImageOutcome)
    requires i < |folders|
    ensures Traces(folders[..i + 1], load) == Traces(folders[..i], load) + FolderTrace(folders[i], load)
  {
    assert folders[..i + 1][..i] == folders[..i];
  }

  /** An element carrying `data-screenshot-folder`; `folder` is "" when the attribute is empty. */
  class ImgElement {
    var src: string
    var alt: string
    const folder: string

    constructor (src: string, alt: string, folder: string)
      ensures this.src == src && this.alt == alt && this.folder == folder
    {
      this.src := src;
      this.alt := alt;
      this.folder := folder;
    }
  }

  /**
   * `tried` is what a first-match probe over `all` handed to `imageExists`:
   * a prefix of `all` whose entries failed, except a last one that loaded
   * when there is a `hit`; without a hit, all of `all` was tried.
   */
  ghost predicate ProbedInOrder(all: seq<string>, tried: seq<string>, hit: Option<string>, load: string -> ImageOutcome)
  {
    && tried <= all
    && (forall j :: 0 <= j < |tried| - 1 ==> !ImageExists(load(tried[j])))
    && (hit.None? ==> tried == all && (tried != [] ==> !ImageExists(load(tried[|tried| - 1]))))
    && (hit.Some? ==> tried != [] && hit.value == tried[|tried| - 1] && ImageExists(load(hit.value)))
  }

  /** A probe of `a` that found nothing followed by a probe of `b` is a probe of `a + b`. */
  lemma ProbedInOrderAppend(a: seq<string>, b: seq<string>, ta: seq<string>, tb: seq<string>,
                            hit: Option<string>, load: string -> ImageOutcome)
    requires ProbedInOrder(a, ta, None, load) && ProbedInOrder(b, tb, hit, load)
    ensures ProbedInOrder(a + b, ta + tb, hit, load)
  {
    var t := ta + tb;
    forall j | 0 <= j < |t| - 1
      ensures !ImageExists(load(t[j]))
    {
      if j < |ta| {
        assert t[j] == ta[j];
      } else {
        assert t[j] == tb[j - |ta|];
      }
    }
    if tb == [] {
      assert t == ta;
    } else {
      assert t[|t| - 1] == tb[|tb| - 1];
    }
  }

  /** A probe of `a` that found something is a probe of `a + b` that never reached `b`. */
  lemma ProbedInOrderHit(a: seq<string>, b: seq<string>, ta: seq<string>, hit: Option<string>, load: string -> ImageOutcome)
    requires ProbedInOrder(a, ta, hit, load) && hit.Some?
    ensures ProbedInOrder(a + b, ta, hit, load)
  {
  }

  /** A first-match probe finds the first candidate that loads and tries exactly the candidates up to it. */
  lemma ProbedInOrderFirst(all: seq<string>, tried: seq<string>, hit: Option<string>, load: string -> ImageOutcome)
    requires ProbedInOrder(all, tried, hit, load)
    ensures hit == FirstLoading(all, load)
    ensures tried == ProbeTrace(all, load)
    ensures hit.Some? ==> FirstAccepted(all, load) == Some(|tried| - 1)
  {
    if hit.Some? {
      var k := |tried| - 1;
      assert all[k] == tried[k];
      assert forall j :: 0 <= j < k ==> all[j] == tried[j];
      assert all[..k + 1] == tried;
    } else {
      assert forall j :: 0 <= j < |all| ==> !ImageExists(load(all[j]));
    }
  }

  /** One name with each extension in turn, stopping at the first path that loads. */
  method ProbeName(basePath: string, name: string, load: string -> ImageOutcome)
    returns (hit: Option<string>, ghost tried: seq<string>)
    ensures ProbedInOrder(Row(basePath, name, Extensions), tried, hit, load)
    ensures hit == FirstLoading(Row(basePath, name, Extensions), load)
  {
    ghost var row := Row(basePath, name, Extensions);
    tried := [];
    var e := 0;
    while e < |Extensions|
      invariant 0 <= e <= |Extensions|
      invariant tried == row[..e]
      invariant forall j :: 0 <= j < e ==> !ImageExists(load(tried[j]))
    {
      var path := basePath + name + "." + Extensions[e];
      tried := tried + [path];
      if ImageExists(load(path)) {
        ProbedInOrderFirst(row, tried, Some(path), load);
        return Some(path), tried;
      }
      e := e + 1;
    }
    ProbedInOrderFirst(row, tried, None, load);
    return None, tried;
  }

  /** A probe of the first `n` names that missed, then a hit on name `n`, is a probe of all the names. */
  lemma ProbeStepHit(base: string, names: seq<string>, n: nat, t0: seq<string>, t: seq<string>,
                     found: Option<string>, load: string -> ImageOutcome)
    requires n < |names| && found.Some?
    requires ProbedInOrder(Grid(base, names[..n], Extensions), t0, None, load)
    requires ProbedInOrder(Row(base, names[n], Extensions), t, found, load)
    ensures ProbedInOrder(Grid(base, names, Extensions), t0 + t, found, load)
  {
    GridSnoc(base, names[..n], names[n], Extensions);
    assert names[..n + 1] == names[..n] + [names[n]];
    ProbedInOrderAppend(Grid(base, names[..n], Extensions), Row(base, names[n], Extensions), t0, t, found, load);
    ProbedInOrderHit(Grid(base, names[..n + 1], Extensions), Grid(base, names[n + 1..], Extensions), t0 + t, found, load);
    GridAppend(base, names[..n + 1], names[n + 1..], Extensions);
    assert names[..n + 1] + names[n + 1..] == names;
  }

  /** A probe of the first `n` names that missed, then a miss on name `n`, is a probe of the first `n + 1`. */
  lemma ProbeStepMiss(base: string, names: seq<string>, n: nat, t0: seq<string>, t: seq<string>,
                      load: string -> ImageOutcome)
    requires n < |names|
    requires ProbedInOrder(Grid(base, names[..n], Extensions), t0, None, load)
    requires ProbedInOrder(Row(base, names[n], Extensions), t, None, load)
    ensures ProbedInOrder(Grid(base, names[..n + 1], Extensions), t0 + t, None, load)
  {
    GridSnoc(base, names[..n], names[n], Extensions);
    assert names[..n + 1] == names[..n] + [names[n]];
    ProbedInOrderAppend(Grid(base, names[..n], Extensions), Row(base, names[n], Extensions), t0, t, None, load);
  }

  /** The first loop of `loadScreenshot`: each of the six base names, with each extension. */
  method ProbeNamed(basePath: string, load: string -> ImageOutcome)
    returns (hit: Option<string>, ghost tried: seq<string>)
    ensures ProbedInOrder(Grid(basePath, PossibleNames, Extensions), tried, hit, load)
    ensures hit == FirstLoading(Grid(basePath, PossibleNames, Extensions), load)
  {
    tried := [];
    var n := 0;
    while n < |PossibleNames|
      invariant 0 <= n <= |PossibleNames|
      invariant ProbedInOrder(Grid(basePath, PossibleNames[..n], Extensions), tried, None, load)
    {
      var name := PossibleNames[n];
      var found, t := ProbeName(basePath, name, load);
      if found.Some? {
        ProbeStepHit(basePath, PossibleNames, n, tried, t, found, load);
        ProbedInOrderFirst(Grid(basePath, PossibleNames, Extensions), tried + t, found, load);
        return found, tried + t;
      }
      ProbeStepMiss(basePath, PossibleNames, n, tried, t, load);
      tried := tried + t;
      n := n + 1;
    }
    assert PossibleNames[..n] == PossibleNames;
    ProbedInOrderFirst(Grid(basePath, PossibleNames, Extensions), tried, None, load);
    return None, tried;
  }

  /** The second loop of `loadScreenshot`: `screenshot1` to `screenshot10`, with each extension. */
  method ProbeNumbered(basePath: string, load: string -> ImageOutcome)
    returns (hit: Option<string>, ghost tried: seq<string>)
    ensures ProbedInOrder(Grid(basePath, NumberedNames(), Extensions), tried, hit, load)
    ensures hit == FirstLoading(Grid(basePath, NumberedNames(), Extensions), load)
  {
    tried := [];
    var i := 1;
    while i <= 10
      invariant 1 <= i <= 11
      invariant ProbedInOrder(Grid(basePath, NumberedNames()[..i - 1], Extensions), tried, None, load)
    {
      var name := "screenshot" + DecimalText(i);
      assert NumberedNames()[i - 1] == name;
      var found, t := ProbeName(basePath, name, load);
      if found.Some? {
        ProbeStepHit(basePath, NumberedNames(), i - 1, tried, t, found, load);
        ProbedInOrderFirst(Grid(basePath, NumberedNames(), Extensions), tried + t, found, load);
        return found, tried + t;
      }
      ProbeStepMiss(basePath, NumberedNames(), i - 1, tried, t, load);
      tried := tried + t;
      i := i + 1;
    }
    assert NumberedNames()[..10] == NumberedNames();
    ProbedInOrderFirst(Grid(basePath, NumberedNames(), Extensions), tried, None, load);
    return None, tried;
  }

  lemma {:induction false} GridAppend(base: string, xs: seq<string>, ys: seq<string>, exts: seq<string>)
    ensures Grid(base, xs + ys, exts) == Grid(base, xs, exts) + Grid(base, ys, exts)
  {
    if xs != [] {
      assert (xs + ys)[1..] == xs[1..] + ys;
      GridAppend(base, xs[1..], ys, exts);
    } else {
      assert xs + ys == ys;
    }
  }

  lemma GridSnoc(base: string, xs: seq<string>, name: string, exts: seq<string>)
    ensures Grid(base, xs + [name], exts) == Grid(base, xs, exts) + Row(base, name, exts)
  {
    GridAppend(base, xs, [name], exts);
    assert Grid(base, [name], exts) == Row(base, name, exts) + Grid(base, [], exts);
  }

  /**
   * `loadScreenshot`: probe the candidates in order and stop at the first that
   * loads, writing only `src`; when none loads, write the placeholder and the
   * alt text. `probed` lists the URLs handed to `imageExists`.
   */
  method LoadScreenshot(folderName: string, img: ImgElement, load: string -> ImageOutcome)
    returns (found: bool, ghost probed: seq<string>)
    modifies img
    ensures found == FirstAccepted(Candidates(folderName), load).Some?
    ensures img.src == LoadedSrc(folderName, load)
    ensures img.alt == if found then old(img.alt) else NotFoundAlt(folderName)
    ensures probed == ProbeTrace(Candidates(folderName), load)
  {
    var basePath := ScreenshotLoader.BasePath(folderName);
    ghost var named := Grid(basePath, PossibleNames, Extensions);
    ghost var numbered := Grid(basePath, NumberedNames(), Extensions);

    var hit, tried := ProbeNamed(basePath, load);
    if hit.Some? {
      ProbedInOrderHit(named, numbered, tried, hit, load);
      ProbedInOrderFirst(Candidates(folderName), tried, hit, load);
      img.src := hit.value;
      return true, tried;
    }

    var hit2, tried2 := ProbeNumbered(basePath, load);
    ProbedInOrderAppend(named, numbered, tried, tried2, hit2, load);
    probed := tried + tried2;
    if hit2.Some? {
      ProbedInOrderFirst(Candidates(folderName), probed, hit2, load);
      img.src := hit2.value;
      return true, probed;
    }

    ProbedInOrderFirst(Candidates(folderName), probed, None, load);
    img.src := NotFoundImage;
    img.alt := "Screenshot pro " + folderName + " nenalezen";
    return false, probed;
  }

  /** The `src` an element ends with after `initializeScreenshots`, from the one it had. */
  function SrcAfterInit(folder: string, src: string, load: string -> ImageOutcome): string
  {
    if folder == "" then src else LoadedSrc(folder, load)
  }

  /** The `alt` an element ends with after `initializeScreenshots`, from the one it had. */
  function AltAfterInit(folder: string, alt: string, load: string -> ImageOutcome): string
  {
    if folder == "" || FirstAccepted(Candidates(folder), load).Some? then alt else NotFoundAlt(folder)
  }

  /** The `data-screenshot-folder` values of `imgs`, in document order. */
  function Folders(imgs: seq<ImgElement>): (r: seq<string>)
    ensures |r| == |imgs| && forall k :: 0 <= k < |imgs| ==> r[k] == imgs[k].folder
  {
    if imgs == [] then [] else Folders(imgs[..|imgs| - 1]) + [imgs[|imgs| - 1].folder]
  }

  /** `img` holds what `initializeScreenshots` leaves in an element that had `src0` and `alt0`. */
  predicate ElementLoaded(img: ImgElement, src0: string, alt0: string, load: string -> ImageOutcome)
    reads img
  {
    img.src == SrcAfterInit(img.folder, src0, load) && img.alt == AltAfterInit(img.folder, alt0, load)
  }

  /** One iteration of image-loader.js's `initializeScreenshots` loop over `[data-screenshot-folder]`: an element with an empty folder is skipped. */
  method InitializeScreenshot(img: ImgElement, load: string -> ImageOutcome)
    returns (ghost trace: seq<string>)
    modifies img
    ensures ElementLoaded(img, old(img.src), old(img.alt), load)
    ensures trace == FolderTrace(img.folder, load)
  {
    trace := [];
    if img.folder != "" {
      var found;
      found, trace := LoadScreenshot(img.folder, img, load);
    }
  }

  /**
   * `initializeScreenshots`: each element with a non-empty folder, in document
   * order and one at a time, goes through `loadScreenshot`; the others are
   * left alone.
   */
  method InitializeScreenshots(imgs: seq<ImgElement>, load: string -> ImageOutcome)
    returns (ghost probed: seq<string>)
    requires forall i, j :: 0 <= i < j < |imgs| ==> imgs[i] != imgs[j]
    modifies imgs
    ensures forall k :: 0 <= k < |imgs| ==> ElementLoaded(imgs[k], old(imgs[k].src), old(imgs[k].alt), load)
    ensures probed == Traces(Folders(imgs), load)
  {
    ghost var folders := Folders(imgs);
    probed := [];
    var i := 0;
    while i < |imgs|
      invariant 0 <= i <= |imgs|
      invariant forall k :: 0 <= k < i ==> ElementLoaded(imgs[k], old(imgs[k].src), old(imgs[k].alt), load)
      invariant forall k :: i <= k < |imgs| ==> imgs[k].src == old(imgs[k].src) && imgs[k].alt == old(imgs[k].alt)
      invariant probed == Traces(folders[..i], load)
    {
      TracesSnoc(folders, i, load);
      var trace := InitializeScreenshot(imgs[i], load);
      probed := probed + trace;
      i := i + 1;
    }
    assert folders[..i] == folders;
  }

  /** `checkImage` is stricter than `imageExists` on images: what it accepts has loaded. */
  lemma CheckImageImpliesImageExists(path: string, head: ScreenshotLoader.HeadOutcome, outcome: ImageOutcome)
    requires !ScreenshotLoader.IsVideo(path)
    ensures ScreenshotLoader.CheckImage(path, head, outcome) ==> ImageExists(outcome)
  {
  }

  /** ... and strictly so: an image that loads with no size exists here but not for `checkImage`. */
  lemma EmptyImageExistsButFailsCheck(path: string, head: ScreenshotLoader.HeadOutcome)
    requires !ScreenshotLoader.IsVideo(path)
    ensures ImageExists(ImageLoaded(0, 0)) && !ScreenshotLoader.CheckImage(path, head, ImageLoaded(0, 0))
  {
  }
}
