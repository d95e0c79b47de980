# AISEE manual page logic in Dafny

The AISEE user manual is a static web page. Its behaviour comes from three
browser scripts, and this project models them:

- **js/screenshot-loader.js** resolves each `img[data-screenshot]` element's
  feature folder to a media file. It uses a fixed table (`knownScreenshots`)
  and a cache (`screenshotMap`). A folder the table does not know gets an
  SVG placeholder that names the folder. A path is classified as video or
  image by looking for an extension anywhere in its lower-cased text. A video
  path replaces the image with a silent, looping `<video>`. An image gets its
  `src` and loading classes, and GIFs get a title, `loading=eager` and one
  "Animace" badge per container. `checkImage` decides whether a media file
  exists.
- **js/image-loader.js** probes 80 ranked candidate names under a folder:
  6 base names × 5 extensions, then `screenshot1`…`screenshot10` × 5
  extensions. The element gets the first candidate that loads. If none does,
  it gets a "not found" placeholder and alt text.
- **js/main.js** holds the page's UI state machines:
  - the scroll handler: the header hides while scrolling down, the current
    section is tracked, the matching navigation item becomes `active`, and a
    `ticking` throttle applies;
  - the two tab groups;
  - the FAQ accordion;
  - the collapsible interface panels with their partner panels;
  - the component loader, which assembles the page from nine HTML fragments;
  - the screenshot zoom overlay.

Modules, one per file:

- `Common` (`Option`);
- `Text`, which models the JavaScript string built-ins the scripts use: `toLowerCase`, `includes`, `parseInt`, and number-to-text conversion;
- `Dom` (element records);
- `ScreenshotLoader`, `ImageLoader`;
- `ScrollSpy`, `Tabs`, `Accordion`, `Panels`, `Components`;
- `Zoom`, which models the image handlers of js/main.js and the video handler of js/screenshot-loader.js.

The browser is replaced by data:

- An element is a record: tag, class set, attribute map, whether it has a parent, and its container. Some elements are fields of a class instead.
- The elements of a page are sequences in document order.
- Loading an `Image` is a function parameter `load: string -> ImageOutcome`.
- A `HEAD` fetch is a `HeadOutcome` value.
- `fetch(url).text()` is a function parameter `fetch: string -> FetchOutcome`.

Where the source changes state in place, the model uses classes:

- `ScreenshotPage` holds the cache, the nodes and the badge counts.
- `ImgElement` is the element that `loadScreenshot` updates.
- `ScrollState` holds `lastScrollTop`, `ticking` and the restyled elements.
- `TabGroup`, `AccordionButton`, `PanelBoard`, `Page` and `ZoomView` are the other classes.

Each method is proved against a pure function of the old state. The
properties are lemmas about those functions.

Error handling follows the code:

- The `try` block of `loadComponent` catches three failures, and logs each:
  a rejected `fetch` (a network error), a rejected `response.text()`, and a
  missing container (`getElementById` returns null, so assigning `innerHTML`
  throws). The first two are both `FetchRejected`.
- An HTTP error status does not count as a failure: `response.text()` still
  resolves, and the error body is injected into the container. So
  `FetchOutcome` carries no status.
- `showTab` throws when the tab id is missing. `toggleAccordion` throws when
  the button has no sibling or no icon. The model reports each throw
  through an `ok` result and keeps exactly the changes made before it.

## Model

| member | source | states |
|---|---|---|
| Text.Lower | js/screenshot-loader.js:48 | `toLowerCase`: same length, each character mapped to its lower-case form |
| Text.Contains | js/screenshot-loader.js:48 | `includes`, defined by recursion on the string; `ContainsIff` states what it means |
| Text.ContainsIff | js/screenshot-loader.js:48 | `includes(sub)` holds exactly when `sub` occurs at some position of the string |
| Text.ContainsAny | js/screenshot-loader.js:48 | `exts.some(ext => s.includes(ext))` holds exactly when some extension in the list occurs in `s` |
| Text.LowerMissesUpperPattern | js/screenshot-loader.js:47-48 | a lower-cased string never contains a pattern with an upper-case letter |
| Text.ContainsSkipsPrefix | js/screenshot-loader.js:102 | an occurrence whose first character is absent from the prefix lies in the suffix |
| Text.DecimalText | js/image-loader.js:36 | the template text of a number is a non-empty run of decimal digits |
| Text.LeadingDigits | js/screenshot-loader.js:56 | the longest prefix of decimal digits: a prefix, all digits, followed by no digit |
| Text.TrimStart | js/screenshot-loader.js:56 | `parseInt` skips leading white space: the result is a suffix that starts with no space, and every character dropped before it is a space |
| Text.ParseIntDecimalText | js/screenshot-loader.js:56 | `parseInt` of a number's decimal text gives back that number |
| Text.ParseInt | js/screenshot-loader.js:56 | `parseInt` in base ten: skip leading white space, an optional sign, then the longest run of digits, and `NaN` (none) when there is none; `ParseIntDecimalText` proves it reads a number's text back |
| Dom.GetAttribute | js/screenshot-loader.js:96 | `getAttribute` is non-null exactly when the attribute is present, and then it is the attribute's value |
| ScreenshotLoader.FindScreenshot | js/screenshot-loader.js:27-41 | non-null exactly for a folder in the table, and then `screenshots/<folder>/` plus the table's file name; nothing is probed |
| ScreenshotLoader.Placeholder | js/screenshot-loader.js:88 | the SVG data URI with the folder name embedded between fixed text; `PlaceholderRoundTrip`, `PlaceholderInjective` and `PlaceholderIsNoTablePath` state its properties |
| ScreenshotLoader.Resolve | js/screenshot-loader.js:73-89 | what `loadDynamicScreenshot` returns, the table path or else the placeholder; `ResolveCases` states the two cases |
| ScreenshotLoader.PlaceholderCaption | js/screenshot-loader.js:88 | a caption read back from a URI rebuilds that URI as the placeholder of the caption |
| ScreenshotLoader.PlaceholderRoundTrip | js/screenshot-loader.js:88 | the placeholder embeds the folder name so that it can be read back exactly |
| ScreenshotLoader.PlaceholderInjective | js/screenshot-loader.js:88 | distinct folders get distinct placeholders |
| ScreenshotLoader.PlaceholderIsNoTablePath | js/screenshot-loader.js:32-88 | a placeholder is never equal to a table path |
| ScreenshotLoader.ResolveCases | js/screenshot-loader.js:73-89 | a known folder resolves to its table path; any other folder resolves to the placeholder naming it |
| ScreenshotLoader.IsVideoIgnoresCase | js/screenshot-loader.js:101-102 | the video test gives the same answer for a path and its lower-cased form |
| ScreenshotLoader.IsVideo | js/screenshot-loader.js:101-102 | the video test: the lower-cased path contains `.mov`, `.mp4` or `.webm`; `IsVideoIgnoresCase` and `IsVideoAnywhere` state its properties |
| ScreenshotLoader.IsGif | js/screenshot-loader.js:166 | the GIF test: the lower-cased path contains `.gif` |
| ScreenshotLoader.Selected | js/screenshot-loader.js:93-97 | the elements a pass resolves: an `img` with a `data-screenshot` attribute whose value is non-empty; `VideoReplacesImage` shows a replacement video is no longer selected |
| ScreenshotLoader.IsVideoAnywhere | js/screenshot-loader.js:101-102 | a video extension anywhere in a path, not only at its end, makes the path a video |
| ScreenshotLoader.CheckImageListAgrees | js/screenshot-loader.js:47-48 | `checkImage`'s six-entry list classifies every path as the three-entry list does; the upper-case entries never match |
| ScreenshotLoader.MovEntryIsVideo | js/screenshot-loader.js:5-22 | a `screenshot.mov` entry is a video under any folder name |
| ScreenshotLoader.PngEntryIsImage | js/screenshot-loader.js:5-22 | a `screenshot.png` entry is an image when the folder name has no dot |
| ScreenshotLoader.TableClassification | js/screenshot-loader.js:92-104 | a known folder resolves to a video exactly when its table file is `screenshot.mov` |
| ScreenshotLoader.PlaceholderCanClassifyAsVideo | js/screenshot-loader.js:87-104 | an unknown folder whose name contains a video extension gets a placeholder that is classified as video |
| ScreenshotLoader.CheckImage | js/screenshot-loader.js:44-70 | a video exists exactly when the HEAD response is ok and has a content-length that parses to a positive number; an image exists exactly when it loads with positive width and height; every error gives false |
| ScreenshotLoader.VideoExistsIffNonEmpty | js/screenshot-loader.js:55-56 | an ok video response whose content-length is the decimal text of n exists exactly when n > 0 |
| ScreenshotLoader.VideoReplacesImage | js/screenshot-loader.js:104-132 | an attached image whose path is a video becomes an autoplaying, looping, muted, inline `<video>` with that `src`, the original classes plus the three video classes, `title` taken from `alt`, and `loading` copied, and no other attribute (no `controls`, so the zoom handler's controls test always lets a click through); it has no load handler and takes the image's place in its container; the video is not selected again |
| ScreenshotLoader.VideoFor | js/screenshot-loader.js:105-121 | the `<video>` that replaces an image; `VideoReplacesImage` states its attributes and classes |
| ScreenshotLoader.VideoForShape | js/screenshot-loader.js:105-131 | the `<video>` built for an image has exactly `src`, `autoplay`, `loop`, `muted`, `playsinline`, plus `title` from `alt` and `loading` when the image has them; its classes are the image's plus the video classes; it has no load handler and the image's container |
| ScreenshotLoader.DetachedImageKept | js/screenshot-loader.js:129-132 | an image with no parent is left exactly as it was |
| ScreenshotLoader.ImageMarkedLoading | js/screenshot-loader.js:158-174 | a resolved image gets its `src`; its classes become exactly the old ones plus `screenshot-loading`, and `screenshot-gif` for a GIF; a GIF also gets `loading=eager` and its existing non-empty title or else the default title, with every other attribute kept; a non-GIF changes only `src` among its attributes; the image stays where it was, in the same container and equally attached |
| ScreenshotLoader.ImageFor | js/screenshot-loader.js:160-174 | the image pointed at its resolved path and marked loading; `ImageMarkedLoading` states each change |
| ScreenshotLoader.Initialized | js/screenshot-loader.js:95-174 | one element after a pass: unselected elements are kept, video paths give `VideoFor` when attached, other paths give `ImageFor`; `InitializedIdempotent` states that it is idempotent |
| ScreenshotLoader.InitializedAll | js/screenshot-loader.js:92-197 | one full pass: each node becomes its `Initialized` form, same length, in document order; `InitializeAllScreenshots` is proved against it and `InitializedAllIdempotent` is about it |
| ScreenshotLoader.LoadedImageState | js/screenshot-loader.js:176-178 | after `onload`, the image has `screenshot-loaded` and no longer `screenshot-loading` |
| ScreenshotLoader.AfterLoad | js/screenshot-loader.js:176-178 | an image's `onload` swaps `screenshot-loading` for `screenshot-loaded`; `LoadedImageState` states it |
| ScreenshotLoader.InitializedIdempotent | js/screenshot-loader.js:95-174 | a second pass over an element changes nothing |
| ScreenshotLoader.InitializedAllIdempotent | js/screenshot-loader.js:207-208 | a second pass run straight after the first, with no image load between them, leaves the page as the first pass left it |
| ScreenshotLoader.ReloadReaddsLoading | js/screenshot-loader.js:158-178 | once a rewritten image's `onload` has fired, a further pass puts `screenshot-loading` back on it, so the page does change |
| ScreenshotLoader.ScreenshotPage.LoadDynamicScreenshot | js/screenshot-loader.js:73-89 | returns the resolution of the folder; a cache hit leaves the cache alone; a known uncached folder is cached with its path; an unknown one is never cached; the cache keeps only table folders with their table paths |
| ScreenshotLoader.ScreenshotPage.RewriteSelected | js/screenshot-loader.js:101-174 | a selected element becomes its rewritten form for the resolved `src`: a `<video>` when the path is a video and the element is attached, the element unchanged when it is detached, the marked image when the path is not a video; no other node changes |
| ScreenshotLoader.ScreenshotPage.InitializeScreenshot | js/screenshot-loader.js:95-196 | rewrites just the element at the index; the cache gains that element's folder when the table knows it |
| ScreenshotLoader.ScreenshotPage.InitializeAllScreenshots | js/screenshot-loader.js:92-197 | every node becomes its rewritten form, in document order; the cache gains exactly the selected folders that the table knows |
| ScreenshotLoader.ScreenshotPage.OnImageLoad | js/screenshot-loader.js:176-193 | the loaded image swaps its loading class for the loaded class; a GIF's container ends with exactly one badge, and no other container changes |
| ImageLoader.NumberedNames | js/image-loader.js:34-36 | ten numbered names, `screenshot1` to `screenshot10` |
| ImageLoader.GridAt | js/image-loader.js:19-21 | in the nested loops, position n × (number of extensions) + e is name n with extension e |
| ImageLoader.Candidates | js/image-loader.js:5-42 | every path the two loops may try, in their order; `CandidateOrder` states that order |
| ImageLoader.CandidateOrder | js/image-loader.js:8-42 | 80 candidates: the 30 named ones first (name outer, extension inner), then the 50 numbered ones |
| ImageLoader.FirstAccepted | js/image-loader.js:18-42 | finds the first candidate that loads: it loads, every earlier one fails, and there is none exactly when all fail |
| ImageLoader.ImageExists | js/image-loader.js:50-57 | `imageExists` resolves true exactly on `onload`; `CheckImageImpliesImageExists` relates it to `checkImage` |
| ImageLoader.FirstLoading | js/image-loader.js:18-42 | the path of the first candidate that loads: present exactly when some candidate loads, and then it loads and is the candidate at the first accepted index |
| ImageLoader.LoadedSrc | js/image-loader.js:18-47 | the `src` that `loadScreenshot` leaves: the first candidate that loads, or the not-found image; `LoadScreenshot` is proved against it |
| ImageLoader.ProbedInOrderFirst | js/image-loader.js:18-47 | a probe that stops at the first path that loads returns the first candidate that loads, or none, and has tried exactly the candidates up to it |
| ImageLoader.ProbeName | js/image-loader.js:20-26 | tries one name's five paths in order; returns the first that loads, or none |
| ImageLoader.ProbeNamed | js/image-loader.js:19-27 | the first loop returns the first of the 30 named candidates that loads, or none, and tries only those up to it |
| ImageLoader.ProbeNumbered | js/image-loader.js:34-42 | the second loop returns the first of the 50 numbered candidates that loads, or none, and tries only those up to it |
| ImageLoader.LoadScreenshot | js/image-loader.js:4-48 | returns true exactly when some candidate loads; `src` becomes the first such candidate, otherwise the placeholder; `alt` changes only when nothing loads; the URLs probed are exactly those up to the first hit |
| ImageLoader.InitializeScreenshot | js/image-loader.js:64-67 | an element with an empty folder is skipped and probes nothing; any other is loaded as `loadScreenshot` would, probing its folder's candidates up to the first that loads |
| ImageLoader.InitializeScreenshots | js/image-loader.js:60-69 | each element with a non-empty folder is loaded as `loadScreenshot` would; elements with an empty folder are untouched; the URLs probed are each folder's probe trace, one folder after another in document order |
| ImageLoader.CheckImageImpliesImageExists | js/image-loader.js:50-57 | for an image path, what `checkImage` accepts, `imageExists` accepts |
| ImageLoader.EmptyImageExistsButFailsCheck | js/image-loader.js:50-57 | an image that loads with zero size passes `imageExists` but fails `checkImage` |
| ScrollSpy.CurrentSectionOf | js/main.js:66-73 | "" when no section straddles the line 150 px down; otherwise the id of a straddling section after which no section straddles it |
| ScrollSpy.CurrentSection | js/main.js:66-73 | the forward `forEach` loop computes that last straddling section |
| ScrollSpy.FramesRequested | js/main.js:87-92 | how many frames a burst of scroll events requests against the `ticking` flag; `ThrottleRequestsAtMostOneFrame` states that it is at most one |
| ScrollSpy.ThrottleRequestsAtMostOneFrame | js/main.js:87-92 | a burst of scroll events requests one frame if none is pending, and none otherwise |
| ScrollSpy.ScrollState.OnScroll | js/main.js:87-92 | a frame is requested exactly when `ticking` was false, and `ticking` is then true |
| ScrollSpy.ScrollState.RestyleBars | js/main.js:50-58 | header `hide` and sidebar `scroll-up` are present exactly when scrolling down past 100 px; no other class changes, and a missing element stays missing |
| ScrollSpy.ScrollState.HighlightNav | js/main.js:76-82 | every nav item loses `active` unless its target is the given section, which then has it; targets and other classes are unchanged |
| ScrollSpy.ScrollState.UpdateScroll | js/main.js:37-85 | header `hide` and sidebar `scroll-up` are present exactly when scrolling down past 100 px, with no other class changed; `lastScrollTop` becomes the position; a nav item is `active` exactly when its target is the current section, and none is when that is ""; `ticking` ends false |
| Tabs.FindPanel | js/main.js:118 | `getElementById` among the panels: the first panel with the id, or none when no panel has it |
| Tabs.FindPanelIgnoresClasses | js/main.js:114-118 | hiding the panels first does not change which panel is found |
| Tabs.ButtonClasses | js/main.js:121-126 | a button's classes after the click: the clicked one loses gray and gains the active classes, every other loses them and gains gray; `ActiveButtonExclusive` states the result |
| Tabs.ActiveButtonExclusive | js/main.js:121-126 | after the button loop, exactly the clicked button carries the active classes, and all the others carry the gray class |
| Tabs.TabGroup.ShowTab | js/main.js:112-145 | exactly the target panel is visible; the clicked button is the only active one (blue for `showTab`, indigo for `showAdvancedTab`); with no such panel every panel is hidden and the buttons are untouched |
| Accordion.ToggledDisplay | js/main.js:233-241 | "" and "none" count as closed; the result is open exactly when the input was closed, and is "block" or "none" |
| Accordion.ToggleTwiceRestores | js/main.js:229-242 | two toggles restore the open/closed state, and the display itself once a click has set it |
| Accordion.AccordionButton.Toggle | js/main.js:229-242 | flips the display; the icon and `aria-expanded` follow the new state; with no sibling nothing changes; with no icon only the display changes |
| Panels.SinglePanelToggled | js/main.js:265-282 | a panel with both elements flips `hidden`, has `animate-slide-down` exactly when shown, and its icon agrees; no other element changes; a panel missing either element is left as it is |
| Panels.PanelPairsSymmetric | js/main.js:247-252 | every panel's partner has that panel as its own partner, and no panel is its own partner |
| Panels.PanelToggled | js/main.js:245-262 | `togglePanel`: toggle the panel, then its partner when it has one; `TogglePanelFlipsExactly` states the effect |
| Panels.ToggleSingleHidden | js/main.js:265-282 | toggling a panel flips only that panel's content in the hidden set |
| Panels.TogglePanelFlipsExactly | js/main.js:245-282 | `togglePanel` flips the hidden state of the clicked panel and of its partner, each only when both its elements exist, and of nothing else |
| Panels.TogglePanelTwice | js/main.js:245-282 | clicking the same panel twice restores which panels are hidden |
| Panels.TogglePartnerUndoes | js/main.js:245-262 | clicking a panel and then its partner restores which panels are hidden |
| Panels.PanelBoard.ToggleSinglePanel | js/main.js:265-282 | the elements change as `SinglePanelToggled` describes |
| Panels.PanelBoard.TogglePanel | js/main.js:245-262 | the hidden set changes exactly on the panel and its partner |
| Components.ManifestDistinct | js/main.js:178-188 | the nine fragments fill nine distinct containers |
| Components.Assembled | js/main.js:191-195 | loading the fragments creates and removes no container |
| Components.Injects | js/main.js:167-170 | the `try` block succeeds: the fetch and the body both resolve and the container exists; `AssembledAt` and `FailuresNameFailed` split on it |
| Components.Page.LoadComponents | js/main.js:191-195 | each fragment is loaded in turn: the containers become `Assembled` of the old ones, and the log gains exactly `Failures` |
| Components.Failures | js/main.js:171-172 | no more errors than fragments, every entry a component failure, and none exactly when every fragment is injected |
| Components.FailedIndices | js/main.js:166-172 | the positions of the fragments whose `try` block fails |
| Components.FailuresCount | js/main.js:166-172 | exactly one error per fragment that is not injected: the log is as long as the set of failed positions; with `FailuresNameFailed` no error is repeated |
| Components.FailuresNameFailed | js/main.js:166-172 | each fragment that is not injected has an error naming its URL, and each error names the URL of such a fragment |
| Components.AssembledAt | js/main.js:166-174 | each container ends with its own fragment when that fragment was fetched, and otherwise with what it held before; a container that no fragment names is unchanged |
| Components.ManifestIsolation | js/main.js:177-195 | for the page's nine fragments, one failure leaves only its own container unchanged |
| Components.Page.LoadComponent | js/main.js:166-174 | a fetched fragment replaces its container's content; a rejected fetch or a missing container logs an error and changes nothing |
| Components.Page.InitializeAfterLoad | js/main.js:202-220 | the screenshot loader is re-run when present, and then `componentsLoaded` is signalled |
| Components.Page.LoadAllComponents | js/main.js:177-199 | every fragment is attempted, with failures logged and isolated; after all of them, initialization runs and `componentsLoaded` is signalled exactly once |
| Zoom.FirstZoomed | js/main.js:311 | the first zoomed element in document order, or none when nothing is zoomed |
| Zoom.ImageClicked | js/main.js:298-306 | an image click flips that image's zoom and sets the overlay to match |
| Zoom.VideoClicked | js/screenshot-loader.js:151-156 | a video click toggles its `zoomed` class and flips the overlay on its own; `VideoClickTwice` and `VideoClickKeepsConsistent` state its properties |
| Zoom.OverlayClicked | js/main.js:310-316 | an overlay click removes `zoomed` from the first zoomed element, changes nothing else about it or any other element, and deactivates the overlay; with nothing zoomed it changes nothing |
| Zoom.ImageClickKeepsConsistent | js/main.js:296-306 | clicking the zoomed image, or any image when none is zoomed, keeps at most one element zoomed, with the overlay active exactly then |
| Zoom.VideoClickKeepsConsistent | js/screenshot-loader.js:151-156 | in those cases a video click, which toggles the overlay, gives the same result as an image click |
| Zoom.OverlayClickKeepsConsistent | js/main.js:310-316 | from a consistent page, an overlay click leaves nothing zoomed |
| Zoom.ZoomThenOverlayRestores | js/main.js:298-316 | zooming one element and then clicking the overlay restores the page |
| Zoom.ImageClickTwice | js/main.js:298-306 | clicking an image twice restores the page when the overlay agreed with the image |
| Zoom.VideoClickTwice | js/screenshot-loader.js:151-156 | clicking a video twice always restores the page |
| Zoom.ZoomView.ClickImage | js/main.js:298-306 | the page changes as `ImageClicked` describes |
| Zoom.ZoomView.ClickVideo | js/screenshot-loader.js:150-157 | an accepted click changes the page as `VideoClicked` describes; any other click changes nothing |
| Zoom.ZoomView.ClickOverlay | js/main.js:310-316 | the page changes as `OverlayClicked` describes |

## Left out

- The Tailwind configuration object (js/main.js:1-30): static data with no behaviour.
- The scroll-progress bar and `scrollToSection`'s offset arithmetic (js/main.js:38-44, 95-109). They are floating-point layout and a `window.scrollTo` call. Section boxes and scroll positions enter `UpdateScroll` as given real numbers.
- `requestAnimationFrame` scheduling: only the `ticking` flag is modelled, and the frame's run is the `UpdateScroll` call.
- The IntersectionObserver fade-in (js/main.js:148-163, 204-206): a browser callback with no state the page reads back.
- ScrollSpy.ScrollState.UpdateScroll: the regex over `item.onclick.toString()` is not modelled. Each nav item carries the section name the regex would capture, non-empty, or none. An item whose `onclick` is null makes the real handler throw and leaves `ticking` stuck at true; the model does not cover this.
- Tabs.TabGroup.ShowTab: `getElementById` is looked up among the group's panels only. An element with the id that is not one of those panels is not modelled.
- Tabs.TabGroup.ShowTab: the clicked `button` is taken to be one of the group's own buttons (`requires button < |buttons|`). The source accepts any element there (js/main.js:112, 125-126), and restyles it even when it is not a tab button.
- `initializeFAQ` (js/main.js:223-226): its body is empty.
- Components.Page.LoadAllComponents: `Promise.all` starts all fetches at once. The model attempts them one after another. The final container contents are the same because the containers are distinct, but the order of the error log entries may differ in the browser.
- Components.Page.InitializeAfterLoad: `window.screenshotLoader.init()` is recorded as an event. Its effect is modelled by `ScreenshotPage.InitializeAllScreenshots`. The HTML of the injected fragments is not parsed into elements.
- Networking, `Image` loading and `HEAD` requests are oracles passed as parameters, and there are no timeouts. An `Image` that never fires either event is not modelled, because the real promise would never settle.
- The autoplay `play()` retry and its one-shot interaction listeners (js/screenshot-loader.js:134-148), and the `style.*`/`cssText` strings: presentation only.
- The interleaving of the three `initializeAllScreenshots` runs: on DOM ready (js/screenshot-loader.js:200-205), through `window.screenshotLoader.init()` in `initializeAfterLoad` (js/main.js:214-216), and from the `componentsLoaded` listener (js/screenshot-loader.js:208), which `initializeAfterLoad` fires right after `init()` (js/main.js:219). The last two start together and can overlap at their `await`s. The model runs passes one at a time. `InitializedAllIdempotent` shows that a second pass changes nothing only when no image has loaded since the first. `ReloadReaddsLoading` shows that after an `onload` a second pass puts `screenshot-loading` back.
- `ScreenshotPage.OnImageLoad` counts the badges per container. The badge element itself, with its text and inline style, is not modelled.
- Zoom.ZoomView.ClickVideo: the controls-bar test (`hasAttribute('controls')`, `offsetY`) is the `accepted` parameter. The overlay is taken to exist, as it does after DOM ready.
- Zoom: handlers are attached only to `img[alt*="AISEE"]` elements present at DOM ready, and to replacement videos. The caller picks which element is clicked; the model does not enforce that selection.
- Text.Lower: `toLowerCase` is modelled on ASCII letters only. The paths and extensions involved are ASCII, but Unicode case mapping is not modelled.
- Text.ParseInt: decimal only. The `0x` hexadecimal prefix and non-ASCII white space are not accepted, and values are unbounded integers rather than floating-point numbers.
- Lookups such as `knownScreenshots[folder]` and `panelPairs[panelId]` are modelled as own-property lookups. Inherited `Object.prototype` names such as `"toString"` or `"__proto__"`, which the JavaScript lookup would also find, are not modelled.
- ScreenshotLoader.InitializedAll: its own contract states only the length. Its contents are stated element by element through `Initialized` and the lemmas about it.
