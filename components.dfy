/**
 * js/main.js, `loadComponent`, `loadAllComponents` and `initializeAfterLoad`:
 * the page is assembled from nine HTML fragments, each injected into its
 * container; a fragment that fails is logged and skipped, and once every
 * fragment has been attempted the page initializes and signals
 * `componentsLoaded`.
 */
module Components {
  /** One fragment and the id of the element it fills. */
  datatype Component = Component(url: string, containerId: string)

  const Manifest: seq<Component> := [
    Component("components/header.html", "header-container"),
    Component("components/section-start.html", "start-container"),
    Component("components/section-interface.html", "interface-container"),
    Component("components/section-video.html", "video-container"),
    Component("components/section-search.html", "search-container"),
    Component("components/section-reports.html", "reports-container"),
    Component("components/section-advanced.html", "advanced-container"),
    Component("components/section-faq.html", "faq-container"),
    Component("components/footer.html", "footer-container")]

  /**
   * What `fetch(url)` followed by `response.text()` yields: the body, whatever
   * the HTTP status, or a rejection.
   */
  datatype FetchOutcome = FetchRejected | Fetched(body: string)

  /** What the page reports, in order: `console.error` per failed fragment, the screenshot loader's `init`, the event. */
  datatype PageEvent = ComponentFailed(url: string) | ScreenshotsInitialized | ComponentsLoaded

  predicate DistinctContainers(comps: seq<Component>)
  {
    forall i, j :: 0 <= i < j < |comps| ==> comps[i].containerId != comps[j].containerId
  }

  lemma ManifestDistinct()
    ensures DistinctContainers(Manifest)
  {
  }

  /** The fragment is fetched and its container exists; otherwise the `try` block throws and the error is caught. */
  predicate Injects(c: Component, containers: map<string, string>, fetch: string -> FetchOutcome)
  {
    fetch(c.url).Fetched? && c.containerId in containers
  }

  /** The containers' contents after loading `comps` one after another. */
  function Assembled(containers: map<string, string>, comps: seq<Component>, fetch: string -> FetchOutcome): (r: map<string, string>)
    ensures r.Keys == containers.Keys
  {
    if comps == [] then containers
    else
      var before := Assembled(containers, comps[..|comps| - 1], fetch);
      var c := comps[|comps| - 1];
      if Injects(c, containers, fetch) then before[c.containerId := fetch(c.url).body] else before
  }

  /** The errors logged while loading `comps`, in order. */
  function Failures(containers: map<string, string>, comps: seq<Component>, fetch: string -> FetchOutcome): (r: seq<PageEvent>)
    ensures |r| <= |comps|
    ensures r == [] <==> forall k :: 0 <= k < |comps| ==> Injects(comps[k], containers, fetch)
    ensures forall e :: e in r ==> e.ComponentFailed?
  {
    if comps == [] then []
    else
      var c := comps[|comps| - 1];
      Failures(containers, comps[..|comps| - 1], fetch)
        + (if Injects(c, containers, fetch) then [] else [ComponentFailed(c.url)])
  }

  /** The positions of the fragments that are not injected. */
  function FailedIndices(containers: map<string, string>, comps: seq<Component>, fetch: string -> FetchOutcome): set<nat>
  {
    set k: nat | k < |comps| && !Injects(comps[k], containers, fetch)
  }

  lemma FailedIndicesSnoc(containers: map<string, string>, comps: seq<Component>, fetch: string -> FetchOutcome)
    requires comps != []
    ensures var n := |comps| - 1;
      FailedIndices(containers, comps, fetch)
        == FailedIndices(containers, comps[..n], fetch) + (if Injects(comps[n], containers, fetch) then {} else {n})
  {
    var n := |comps| - 1;
    forall k: nat | k < n
      ensures comps[..n][k] == comps[k]
    {
    }
  }

  /** One error per fragment that is not injected: the log is exactly as long as the set of failed positions. */
  lemma {:induction false} FailuresCount(containers: map<string, string>, comps: seq<Component>, fetch: string -> FetchOutcome)
    ensures |Failures(containers, comps, fetch)| == |FailedIndices(containers, comps, fetch)|
  {
    if comps == [] {
      assert FailedIndices(containers, comps, fetch) == {};
    } else {
      var n := |comps| - 1;
      FailuresCount(containers, comps[..n], fetch);
      FailedIndicesSnoc(containers, comps, fetch);
      assert n !in FailedIndices(containers, comps[..n], fetch);
    }
  }

  /** The log names every fragment that was not injected, and only those. */
  lemma {:induction false} FailuresNameFailed(containers: map<string, string>, comps: seq<Component>, fetch: string -> FetchOutcome)
    ensures forall k :: 0 <= k < |comps| && !Injects(comps[k], containers, fetch) ==>
      ComponentFailed(comps[k].url) in Failures(containers, comps, fetch)
    ensures forall e :: e in Failures(containers, comps, fetch) ==>
      exists k :: 0 <= k < |comps| && !Injects(comps[k], containers, fetch) && e == ComponentFailed(comps[k].url)
  {
    if comps != [] {
      var init := comps[..|comps| - 1];
      var c := comps[|comps| - 1];
      FailuresNameFailed(containers, init, fetch);
      var prev := Failures(containers, init, fetch);
      var tail := if Injects(c, containers, fetch) then [] else [ComponentFailed(c.url)];
      assert Failures(containers, comps, fetch) == prev + tail;
      forall k | 0 <= k < |comps| && !Injects(comps[k], containers, fetch)
        ensures ComponentFailed(comps[k].url) in prev + tail
      {
        if k < |init| {
          assert init[k] == comps[k];
          assert ComponentFailed(comps[k].url) in prev;
        } else {
          assert tail == [ComponentFailed(comps[k].url)];
        }
      }
      forall e | e in prev + tail
        ensures exists k :: 0 <= k < |comps| && !Injects(comps[k], containers, fetch) && e == ComponentFailed(comps[k].url)
      {
        if e in prev {
          var k :| 0 <= k < |init| && !Injects(init[k], containers, fetch) && e == ComponentFailed(init[k].url);
          assert init[k] == comps[k];
        } else {
          assert !Injects(comps[|comps| - 1], containers, fetch) && e == ComponentFailed(comps[|comps| - 1].url);
        }
      }
    }
  }

  /**
   * Failure isolation: each container ends up holding its own fragment when that
   * one loaded and what it held before otherwise, whatever happened to the others.
   */
  lemma {:induction false} AssembledAt(containers: map<string, string>, comps: seq<Component>, fetch: string -> FetchOutcome, id: string)
    requires DistinctContainers(comps)
    requires id in containers
    ensures forall k :: 0 <= k < |comps| && comps[k].containerId == id ==>
      Assembled(containers, comps, fetch)[id] == if fetch(comps[k].url).Fetched? then fetch(comps[k].url).body else containers[id]
    ensures (forall k :: 0 <= k < |comps| ==> comps[k].containerId != id) ==>
      Assembled(containers, comps, fetch)[id] == containers[id]
  {
    if comps != [] {
      var init := comps[..|comps| - 1];
      assert DistinctContainers(init);
      AssembledAt(containers, init, fetch, id);
      forall k | 0 <= k < |init| ensures init[k] == comps[k] { }
    }
  }

  /** For the page's own nine fragments: one that fails leaves its container as it was and does not disturb the others. */
  lemma ManifestIsolation(containers: map<string, string>, fetch: string -> FetchOutcome, k: nat)
    requires k < |Manifest| && Manifest[k].containerId in containers
    ensures Assembled(containers, Manifest, fetch)[Manifest[k].containerId] ==
      if fetch(Manifest[k].url).Fetched? then fetch(Manifest[k].url).body else containers[Manifest[k].containerId]
  {
    ManifestDistinct();
    AssembledAt(containers, Manifest, fetch, Manifest[k].containerId);
  }

  /** The page's containers and what it has reported. */
  class Page {
    /** `innerHTML` of each element by id */
    var containers: map<string, string>
    var events: seq<PageEvent>

    constructor (containers: map<string, string>)
      ensures this.containers == containers && events == []
    {
      this.containers := containers;
      events := [];
    }

    method LoadComponent(c: Component, fetch: string -> FetchOutcome)
      modifies this`containers, this`events
      ensures Injects(c, old(containers), fetch) ==>
        containers == old(containers)[c.containerId := fetch(c.url).body] && events == old(events)
      ensures !Injects(c, old(containers), fetch) ==>
        containers == old(containers) && events == old(events) + [ComponentFailed(c.url)]
    {
      var response := fetch(c.url);
      if response.FetchRejected? || c.containerId !in containers {
        events := events + [ComponentFailed(c.url)];
        return;
      }
      containers := containers[c.containerId := response.body];
    }

    /** `screenshotLoaderPresent` is whether `window.screenshotLoader` is set. */
    method InitializeAfterLoad(screenshotLoaderPresent: bool)
      modifies this`events
      ensures events == old(events) + (if screenshotLoaderPresent then [ScreenshotsInitialized] else []) + [ComponentsLoaded]
    {
      if screenshotLoaderPresent {
        events := events + [ScreenshotsInitialized];
      }
      events := events + [ComponentsLoaded];
    }

    /** `loadComponent` for each of `comps`, one after another. */
    method LoadComponents(comps: seq<Component>, fetch: string -> FetchOutcome)
      modifies this`containers, this`events
      ensures containers == Assembled(old(containers), comps, fetch)
      ensures events == old(events) + Failures(old(containers), comps, fetch)
    {
      var i := 0;
      while i < |comps|
        invariant 0 <= i <= |comps|
        invariant containers == Assembled(old(containers), comps[..i], fetch)
        invariant events == old(events) + Failures(old(containers), comps[..i], fetch)
      {
        assert comps[..i + 1][..i] == comps[..i];
        LoadComponent(comps[i], fetch);
        i := i + 1;
      }
      assert comps[..i] == comps;
    }

    /** The fragments are loaded one after another; see the notes on `Promise.all`. */
    method LoadAllComponents(fetch: string -> FetchOutcome, screenshotLoaderPresent: bool)
      modifies this`containers, this`events
      ensures containers == Assembled(old(containers), Manifest, fetch)
      ensures events == old(events) + Failures(old(containers), Manifest, fetch)
        + (if screenshotLoaderPresent then [ScreenshotsInitialized] else []) + [ComponentsLoaded]
      ensures multiset(events)[ComponentsLoaded] == multiset(old(events))[ComponentsLoaded] + 1
    {
      LoadComponents(Manifest, fetch);
      ghost var failures := Failures(old(containers), Manifest, fetch);
      ghost var init := if screenshotLoaderPresent then [ScreenshotsInitialized] else [];
      InitializeAfterLoad(screenshotLoaderPresent);
      assert ComponentsLoaded !in failures && ComponentsLoaded !in init;
      assert events == old(events) + failures + init + [ComponentsLoaded];
      assert multiset(events) == multiset(old(events)) + multiset(failures) + multiset(init) + multiset{ComponentsLoaded};
    }
  }
}
