/**
 * Advanced interactions (src/js/advanced-interactions.js): the one-shot observers (number counters,
 * fade-in, typewriter, lazy backgrounds), the section reveal, the typewriter itself, the anchor
 * routing of the offset smooth scroll, the navbar scroll state, and which features `init` turns on.
 */
module AdvancedInteractions {
  import opened Dom
  import opened Viewport
  import MobileExperience

  // ---------------------------------------------------------------------------
  // One-shot observers that start something
  // ---------------------------------------------------------------------------

  /** What a callback starts for each target it handles, read from the target before `effect`
      changes it, in delivery order. */
  function Launches<T>(elems: map<ElemId, Element>, batch: seq<Entry>, effect: Element -> Element, read: Element -> T)
    : (r: seq<(ElemId, T)>)
    ensures |r| <= |batch|
  {
    if batch == [] then []
    else
      var init := batch[..|batch| - 1];
      var m := Run(elems, init, effect);
      var e := batch[|batch| - 1];
      Launches(elems, init, effect, read) + (if e.isIntersecting && e.target in m then [(e.target, read(m[e.target]))] else [])
  }

  /** Something is started for an element exactly when an intersecting entry names it. */
  lemma {:induction false} LaunchesExactly<T>(elems: map<ElemId, Element>, batch: seq<Entry>, effect: Element -> Element,
                                               read: Element -> T, x: ElemId)
    requires x in elems
    ensures (exists k :: 0 <= k < |Launches(elems, batch, effect, read)| && Launches(elems, batch, effect, read)[k].0 == x)
      <==> x in HitSet(batch)
  {
    if batch != [] {
      var init := batch[..|batch| - 1];
      var e := batch[|batch| - 1];
      var m := Run(elems, init, effect);
      var prev := Launches(elems, init, effect, read);
      var tail := if e.isIntersecting && e.target in m then [(e.target, read(m[e.target]))] else [];
      var all := Launches(elems, batch, effect, read);
      assert all == prev + tail;
      LaunchesExactly(elems, init, effect, read, x);
      assert HitSet(batch) == HitSet(init) + (if e.isIntersecting then {e.target} else {});
      if x in HitSet(init) {
        var k :| 0 <= k < |prev| && prev[k].0 == x;
        assert all[k] == prev[k];
      } else if x in HitSet(batch) {
        assert e.isIntersecting && e.target == x && x in m;
        assert tail == [(x, read(m[x]))];
        assert all[|prev|] == tail[0];
        assert 0 <= |prev| < |all| && all[|prev|].0 == x;
        assert exists j :: 0 <= j < |Launches(elems, batch, effect, read)| && Launches(elems, batch, effect, read)[j].0 == x;
      } else {
        assert !exists j :: 0 <= j < |Launches(elems, init, effect, read)| && Launches(elems, init, effect, read)[j].0 == x;
        assert forall j :: 0 <= j < |prev| ==> Launches(elems, init, effect, read)[j].0 != x;
        forall k | 0 <= k < |all| ensures all[k].0 != x {
          if k < |prev| {
            assert all[k] == prev[k];
          } else {
            assert all[k] == tail[0] && e.isIntersecting;
          }
        }
      }
    }
  }

  /** Everything started names an element an intersecting entry reported. */
  lemma {:induction false} LaunchesFromHits<T>(elems: map<ElemId, Element>, batch: seq<Entry>, effect: Element -> Element,
                                                read: Element -> T, k: nat)
    requires k < |Launches(elems, batch, effect, read)|
    ensures Launches(elems, batch, effect, read)[k].0 in HitSet(batch)
  {
    var init := batch[..|batch| - 1];
    var prev := Launches(elems, init, effect, read);
    if k < |prev| {
      LaunchesFromHits(elems, init, effect, read, k);
    } else {
      assert batch[|batch| - 1].isIntersecting;
    }
  }

  /** The callback shape of the counter and typewriter observers: for each intersecting entry the
      target's settings are read and its animation started (`effect` is what starting it does to the
      element at once), then the target is unobserved. */
  method DeliverLaunching<T>(page: Page, observer: IntersectionObserver, batch: seq<Entry>,
                             effect: Element -> Element, read: Element -> T)
    returns (launched: seq<(ElemId, T)>)
    modifies page`elems, observer
    ensures page.elems == Run(old(page.elems), batch, effect)
    ensures observer.observed == old(observer.observed) - HitSet(batch)
    ensures launched == Launches(old(page.elems), batch, effect, read)
  {
    launched := [];
    var i := 0;
    while i < |batch|
      invariant 0 <= i <= |batch|
      invariant page.elems == Run(old(page.elems), batch[..i], effect)
      invariant observer.observed == old(observer.observed) - HitSet(batch[..i])
      invariant launched == Launches(old(page.elems), batch[..i], effect, read)
    {
      var entry := batch[i];
      if entry.isIntersecting {
        if entry.target in page.elems {
          var element := page.elems[entry.target];
          launched := launched + [(entry.target, read(element))];
          page.elems := page.elems[entry.target := effect(element)];
        }
        observer.Unobserve(entry.target);
      }
      assert batch[..i + 1][..i] == batch[..i];
      i := i + 1;
    }
    assert batch[..|batch|] == batch;
  }

  /** A callback whose effect leaves elements alone leaves the page alone. */
  lemma {:induction false} RunWithoutEffect(elems: map<ElemId, Element>, batch: seq<Entry>, effect: Element -> Element)
    requires forall e :: effect(e) == e
    ensures Run(elems, batch, effect) == elems
  {
    if batch != [] {
      RunWithoutEffect(elems, batch[..|batch| - 1], effect);
    }
  }

  // ---------------------------------------------------------------------------
  // Number counters
  // ---------------------------------------------------------------------------

  /** The raw arguments animateValue is started with, before parseInt reads them: the end value is
      data-target or else the text, the duration data-duration or else 2000, the start value
      data-start or else 0. */
  datatype CounterRun = CounterRun(end: string, duration: string, start: string)

  function CounterSettings(e: Element): (r: CounterRun)
    ensures r.end == (if HasTruthyAttr(e, "data-target") then e.attrs["data-target"] else e.text)
    ensures r.duration == (if HasTruthyAttr(e, "data-duration") then e.attrs["data-duration"] else "2000")
    ensures r.start == (if HasTruthyAttr(e, "data-start") then e.attrs["data-start"] else "0")
  {
    CounterRun(AttrOr(e, "data-target", e.text), AttrOr(e, "data-duration", "2000"), AttrOr(e, "data-start", "0"))
  }

  /** animateNumbers: every `.counter` is observed; one that becomes visible has its animation
      started once and is unobserved. `animations` lists the animations started, in order. */
  class CounterAnimations {
    const page: Page
    const observer: IntersectionObserver
    var animations: seq<(ElemId, CounterRun)>

    constructor (page: Page, counters: seq<ElemId>)
      requires Distinct(counters)
      modifies page`elems
      ensures this.page == page && fresh(observer) && animations == []
      ensures observer.observed == Elements(counters) && page.elems == old(page.elems)
    {
      this.page := page;
      observer := new IntersectionObserver();
      animations := [];
      new;
      ObserveEach(page, observer, counters, e => e);
      assert forall x :: x in page.elems ==> page.elems[x] == old(page.elems)[x];
    }

    method Deliver(batch: seq<Entry>)
      modifies page`elems, observer, this`animations
      ensures page.elems == old(page.elems)
      ensures observer.observed == old(observer.observed) - HitSet(batch)
      ensures animations == old(animations) + Launches(old(page.elems), batch, e => e, CounterSettings)
    {
      var started := DeliverLaunching(page, observer, batch, e => e, CounterSettings);
      RunWithoutEffect(old(page.elems), batch, e => e);
      animations := animations + started;
    }
  }

  // ---------------------------------------------------------------------------
  // Fade-in
  // ---------------------------------------------------------------------------

  function FadeIn(e: Element): Element { AddClass(e, "visible") }

  /** fadeInOnScroll: `.stagger-animation` and `.fade-in` elements get `visible` the first time
      they intersect, and are then unobserved. */
  class FadeInOnScroll {
    const page: Page
    const observer: IntersectionObserver

    constructor (page: Page, elements: seq<ElemId>)
      requires Distinct(elements)
      modifies page`elems
      ensures this.page == page && fresh(observer)
      ensures observer.observed == Elements(elements) && page.elems == old(page.elems)
    {
      this.page := page;
      observer := new IntersectionObserver();
      new;
      ObserveEach(page, observer, elements, e => e);
      assert forall x :: x in page.elems ==> page.elems[x] == old(page.elems)[x];
    }

    method Deliver(batch: seq<Entry>)
      modifies page`elems, observer
      ensures page.elems == Run(old(page.elems), batch, FadeIn)
      ensures observer.observed == old(observer.observed) - HitSet(batch)
    {
      DeliverOneShot(page, observer, batch, FadeIn);
    }
  }

  /** Within a batch an element fades in once however many entries name it; one no intersecting
      entry names is left alone. */
  lemma FadedInOnHit(elems: map<ElemId, Element>, batch: seq<Entry>, x: ElemId)
    requires x in elems
    ensures Run(elems, batch, FadeIn)[x] == if x in HitSet(batch) then elems[x].(classes := elems[x].classes + {"visible"}) else elems[x]
  {
    RunIdempotent(elems, batch, FadeIn, x);
  }

  // ---------------------------------------------------------------------------
  // Typewriter
  // ---------------------------------------------------------------------------

  /** The text shown once `ticks` timer callbacks have run: `type` runs once at the start and once
      per callback, and each run adds one character while any is left. */
  function Typed(text: string, ticks: nat): (r: string)
    ensures r <= text
    ensures |r| == if ticks + 1 < |text| then ticks + 1 else |text|
  {
    text[..if ticks + 1 < |text| then ticks + 1 else |text|]
  }

  /** Each more callback shows one more character until the text is complete, and then none. */
  lemma TypedStep(text: string, ticks: nat)
    ensures Typed(text, ticks + 1) == if ticks + 1 < |text| then Typed(text, ticks) + [text[ticks + 1]] else text
  {
    if ticks + 1 < |text| {
      assert text[..ticks + 2] == text[..ticks + 1] + [text[ticks + 1]];
    }
  }

  /** typewriterEffect(element, text): the closure's counter `i`, whether a `type` timer is pending,
      and (ghost) how many timer callbacks have run. */
  class Typewriter {
    const page: Page
    const element: ElemId
    const text: string
    var i: nat
    var pending: bool
    ghost var ticks: nat

    ghost predicate Valid()
      reads this, page
    {
      && element in page.elems
      && i == |Typed(text, ticks)|
      && page.elems[element].text == Typed(text, ticks)
      && (pending <==> ticks < |text|)
    }

    /** The text is cleared and `type` runs at once. */
    constructor (page: Page, element: ElemId, text: string)
      requires element in page.elems
      modifies page`elems
      ensures this.page == page && this.element == element && this.text == text
      ensures Valid() && ticks == 0
      ensures page.elems == old(page.elems)[element := old(page.elems)[element].(text := Typed(text, 0))]
    {
      this.page := page;
      this.element := element;
      this.text := text;
      i := 0;
      pending := false;
      ticks := 0;
      new;
      page.elems := page.elems[element := page.elems[element].(text := "")];
      Type();
    }

    /** One run of `type`: append the next character and schedule the next run, while one is left. */
    method Type()
      requires element in page.elems && i <= |text| && page.elems[element].text == text[..i]
      modifies page`elems, this`i, this`pending
      ensures page.elems.Keys == old(page.elems).Keys && element in page.elems
      ensures i <= |text| && page.elems[element].text == text[..i]
      ensures old(i) < |text| ==> i == old(i) + 1 && pending
      ensures old(i) == |text| ==> i == old(i) && !pending
      ensures forall x :: x in old(page.elems) ==>
        page.elems[x] == if x == element then old(page.elems)[x].(text := text[..i]) else old(page.elems)[x]
    {
      if i < |text| {
        var e := page.elems[element];
        assert text[..i + 1] == text[..i] + [text[i]];
        page.elems := page.elems[element := e.(text := e.text + [text[i]])];
        i := i + 1;
        pending := true;
      } else {
        pending := false;
      }
    }

    /** The pending timer fires. Once as many callbacks have run as the text is long, the text is
        complete and nothing more is scheduled. */
    method OnTimer()
      requires Valid() && pending
      modifies page`elems, this`i, this`pending, this`ticks
      ensures Valid() && ticks == old(ticks) + 1
      ensures page.elems.Keys == old(page.elems).Keys
      ensures forall x :: x in old(page.elems) ==>
        page.elems[x] == if x == element then old(page.elems)[x].(text := Typed(text, ticks)) else old(page.elems)[x]
      ensures ticks == |text| ==> page.elems[element].text == text && !pending
    {
      pending := false;
      TypedStep(text, ticks);
      ticks := ticks + 1;
      Type();
    }
  }

  /** The text a `.typewriter` element types: data-text, or else its own text. */
  function TypewriterText(e: Element): string
  {
    AttrOr(e, "data-text", e.text)
  }

  /** The raw speed parseInt reads: data-speed, or else 100. */
  function TypewriterSpeed(e: Element): string
  {
    AttrOr(e, "data-speed", "100")
  }

  /** The text and raw speed a typewriter is started with. */
  datatype TypewriterRun = TypewriterRun(text: string, speed: string)

  function TypewriterSettings(e: Element): (r: TypewriterRun)
    ensures r.text == if HasTruthyAttr(e, "data-text") then e.attrs["data-text"] else e.text
    ensures r.speed == if HasTruthyAttr(e, "data-speed") then e.attrs["data-speed"] else "100"
  {
    TypewriterRun(TypewriterText(e), TypewriterSpeed(e))
  }

  /** What starting a typewriter does to its element at once: the state the Typewriter constructor
      leaves, with no timer callback run yet. */
  function StartTypewriter(e: Element): (r: Element)
    ensures r == e.(text := r.text)
    ensures r.text <= TypewriterSettings(e).text
    ensures |r.text| == if TypewriterSettings(e).text == [] then 0 else 1
  {
    e.(text := Typed(TypewriterText(e), 0))
  }

  /** initTypewriter: every `.typewriter` is observed; one that becomes visible starts typing once
      and is unobserved. `runs` lists the typewriters started, in order. */
  class TypewriterObserver {
    const page: Page
    const observer: IntersectionObserver
    var runs: seq<(ElemId, TypewriterRun)>

    constructor (page: Page, elements: seq<ElemId>)
      requires Distinct(elements)
      modifies page`elems
      ensures this.page == page && fresh(observer) && runs == []
      ensures observer.observed == Elements(elements) && page.elems == old(page.elems)
    {
      this.page := page;
      observer := new IntersectionObserver();
      runs := [];
      new;
      ObserveEach(page, observer, elements, e => e);
      assert forall x :: x in page.elems ==> page.elems[x] == old(page.elems)[x];
    }

    method Deliver(batch: seq<Entry>)
      modifies page`elems, observer, this`runs
      ensures page.elems == Run(old(page.elems), batch, StartTypewriter)
      ensures observer.observed == old(observer.observed) - HitSet(batch)
      ensures runs == old(runs) + Launches(old(page.elems), batch, StartTypewriter, TypewriterSettings)
    {
      var started := DeliverLaunching(page, observer, batch, StartTypewriter, TypewriterSettings);
      runs := runs + started;
    }
  }

  // ---------------------------------------------------------------------------
  // Section reveal
  // ---------------------------------------------------------------------------

  function HideSection(e: Element): Element { AddClass(e, "section-hidden") }

  function ShowSection(e: Element): Element { AddClass(e, "section-visible") }

  /** revealSections: every `section` is hidden up front and observed; an intersecting section gets
      `section-visible`. Sections are never unobserved. */
  class SectionReveal {
    const page: Page
    const observer: IntersectionObserver

    constructor (page: Page, sections: seq<ElemId>)
      requires Distinct(sections)
      modifies page`elems
      ensures this.page == page && fresh(observer)
      ensures observer.observed == Elements(sections) && page.elems.Keys == old(page.elems).Keys
      ensures forall x :: x in old(page.elems) ==>
        page.elems[x] == if x in sections then HideSection(old(page.elems)[x]) else old(page.elems)[x]
    {
      this.page := page;
      observer := new IntersectionObserver();
      new;
      ObserveEach(page, observer, sections, HideSection);
    }

    method Deliver(batch: seq<Entry>)
      modifies page`elems
      ensures page.elems == Run(old(page.elems), batch, ShowSection)
    {
      var i := 0;
      while i < |batch|
        invariant 0 <= i <= |batch|
        invariant page.elems == Run(old(page.elems), batch[..i], ShowSection)
      {
        var entry := batch[i];
        if entry.isIntersecting && entry.target in page.elems {
          page.elems := page.elems[entry.target := ShowSection(page.elems[entry.target])];
        }
        assert batch[..i + 1][..i] == batch[..i];
        i := i + 1;
      }
      assert batch[..|batch|] == batch;
    }
  }

  /** A section gains `section-visible` exactly when an entry for it intersects, however many do;
      nothing else about it changes, so `section-hidden` is never taken away. */
  lemma {:induction false} SectionsAfter(elems: map<ElemId, Element>, batch: seq<Entry>, x: ElemId)
    requires x in elems
    ensures Run(elems, batch, ShowSection)[x].classes ==
      if x in HitSet(batch) then elems[x].classes + {"section-visible"} else elems[x].classes
    ensures Run(elems, batch, ShowSection)[x] == elems[x].(classes := Run(elems, batch, ShowSection)[x].classes)
    ensures "section-hidden" in elems[x].classes ==> "section-hidden" in Run(elems, batch, ShowSection)[x].classes
  {
    RunIdempotent(elems, batch, ShowSection, x);
  }

  /** Across batches, hits after the first leave a section as it is. */
  lemma RevealSettles(elems: map<ElemId, Element>, first: seq<Entry>, later: seq<Entry>, x: ElemId)
    requires x in elems && x in HitSet(first)
    ensures Run(Run(elems, first, ShowSection), later, ShowSection)[x] == Run(elems, first, ShowSection)[x]
  {
    var m := Run(elems, first, ShowSection);
    SectionsAfter(elems, first, x);
    SectionsAfter(m, later, x);
  }

  // ---------------------------------------------------------------------------
  // Lazy backgrounds
  // ---------------------------------------------------------------------------

  /** `element.dataset.bg` inside a template literal: the attribute's value, or "undefined" once it
      has been removed. */
  function DataBg(e: Element): string
  {
    if "data-bg" in e.attrs then e.attrs["data-bg"] else "undefined"
  }

  /** The background is set to `url(data-bg)` and the attribute is removed. */
  function LoadBackground(e: Element): (r: Element)
    ensures "background-image" in r.style && r.style["background-image"] == "url(" + DataBg(e) + ")"
    ensures "data-bg" !in r.attrs && r.attrs == e.attrs - {"data-bg"}
    ensures r.classes == e.classes && r.text == e.text && r.src == e.src
  {
    RemoveAttr(SetStyle(e, "background-image", "url(" + DataBg(e) + ")"), "data-bg")
  }

  /** Why the target must be unobserved: loading a background a second time would replace it by
      `url(undefined)`. */
  lemma BackgroundLoadsOnlyOnce(e: Element)
    ensures LoadBackground(LoadBackground(e)).style["background-image"] == "url(undefined)"
    ensures "data-bg" in e.attrs && e.attrs["data-bg"] != "undefined" ==>
      LoadBackground(LoadBackground(e)) != LoadBackground(e)
  {
    var once := LoadBackground(e);
    if "data-bg" in e.attrs && e.attrs["data-bg"] != "undefined" {
      var u := "url(" + e.attrs["data-bg"] + ")";
      assert once.style["background-image"] == u;
      if |u| == |"url(undefined)"| {
        assert u[4..|u| - 1] == e.attrs["data-bg"];
      }
    }
  }

  /** lazyBackgrounds: every `[data-bg]` element is observed, and its background is loaded the
      first time it intersects; the element is then unobserved. */
  class BackgroundLoader {
    const page: Page
    const observer: IntersectionObserver

    constructor (page: Page, elements: seq<ElemId>)
      requires Distinct(elements)
      modifies page`elems
      ensures this.page == page && fresh(observer)
      ensures observer.observed == Elements(elements) && page.elems == old(page.elems)
    {
      this.page := page;
      observer := new IntersectionObserver();
      new;
      ObserveEach(page, observer, elements, e => e);
      assert forall x :: x in page.elems ==> page.elems[x] == old(page.elems)[x];
    }

    method Deliver(batch: seq<Entry>)
      modifies page`elems, observer
      ensures page.elems == Run(old(page.elems), batch, LoadBackground)
      ensures observer.observed == old(observer.observed) - HitSet(batch)
    {
      DeliverOneShot(page, observer, batch, LoadBackground);
    }
  }

  // ---------------------------------------------------------------------------
  // Smooth scroll with offset
  // ---------------------------------------------------------------------------

  /** The height of the fixed navigation that a target is scrolled below. */
  const NavOffset := 80

  /** What a click on an `a[href^="#"]` does: whether the default is prevented and where the window
      scrolls to. */
  datatype AnchorOutcome = AnchorOutcome(prevented: bool, scrollTo: Option<int>)

  /** The click listener. `targetTop` is the viewport top of `document.querySelector(href)`, or None
      when there is no such element. */
  function AnchorClick(href: string, targetTop: Option<int>, pageYOffset: int): (r: AnchorOutcome)
    ensures r.prevented <==> r.scrollTo.Some?
    ensures (href == "#" || href == "#top") ==> r.scrollTo == Some(0)
    ensures href != "#" && href != "#top" ==> (r.prevented <==> targetTop.Some?)
    ensures href != "#" && href != "#top" && targetTop.Some? ==>
      r.scrollTo.Some? && targetTop.value + pageYOffset == r.scrollTo.value + NavOffset
  {
    if href == "#" || href == "#top" then AnchorOutcome(true, Some(0))
    else if targetTop.Some? then AnchorOutcome(true, Some(targetTop.value + pageYOffset - NavOffset))
    else AnchorOutcome(false, None)
  }

  /** `#top` goes to the top of the page even when an element with that id exists. */
  lemma TopIgnoresTarget(targetTop: Option<int>, pageYOffset: int)
    ensures AnchorClick("#top", targetTop, pageYOffset) == AnchorClick("#", None, 0)
  {
  }

  // ---------------------------------------------------------------------------
  // Navbar scroll state
  // ---------------------------------------------------------------------------

  const NavbarThreshold := 100

  /** navbarScrollEffect's scroll listener on the first `nav`. */
  method OnNavbarScroll(page: Page, nav: Option<ElemId>, scrollY: int)
    modifies page`elems
    ensures page.elems == MobileExperience.WithScrollClass(old(page.elems), nav, scrollY, NavbarThreshold)
    ensures nav.Some? && nav.value in page.elems ==> ("scrolled" in page.elems[nav.value].classes <==> scrollY > NavbarThreshold)
  {
    if nav.Some? && nav.value in page.elems {
      var e := page.elems[nav.value];
      page.elems := page.elems[nav.value := if scrollY > NavbarThreshold then AddClass(e, "scrolled") else RemoveClass(e, "scrolled")];
    }
  }

  /** The mobile navigation toggles the same class on the same `nav` at 50: between 50 and 100 the
      class depends on which scroll listener runs last; elsewhere the two agree. */
  lemma ScrollThresholdsConflict(elems: map<ElemId, Element>, nav: ElemId, scrollY: int)
    requires nav in elems
    ensures var mobileLast := MobileExperience.WithScrollClass(
              MobileExperience.WithScrollClass(elems, Some(nav), scrollY, NavbarThreshold), Some(nav), scrollY, 50);
            var navbarLast := MobileExperience.WithScrollClass(
              MobileExperience.WithScrollClass(elems, Some(nav), scrollY, 50), Some(nav), scrollY, NavbarThreshold);
            (mobileLast == navbarLast <==> scrollY <= 50 || scrollY > NavbarThreshold)
  {
    var a := MobileExperience.WithScrollClass(elems, Some(nav), scrollY, NavbarThreshold);
    var mobileLast := MobileExperience.WithScrollClass(a, Some(nav), scrollY, 50);
    var b := MobileExperience.WithScrollClass(elems, Some(nav), scrollY, 50);
    var navbarLast := MobileExperience.WithScrollClass(b, Some(nav), scrollY, NavbarThreshold);
    if 50 < scrollY <= NavbarThreshold {
      assert "scrolled" in mobileLast[nav].classes && "scrolled" !in navbarLast[nav].classes;
    } else {
      assert mobileLast[nav] == navbarLast[nav];
    }
  }

  // ---------------------------------------------------------------------------
  // Feature selection
  // ---------------------------------------------------------------------------

  datatype Feature =
    | MagneticButtons | Parallax | CardTilt | FadeInFeature | TypewriterFeature | RevealFeature
    | NavbarFeature | ScrollProgress | ImageZoom
    | CounterFeature | SmoothScroll | LazyBackgrounds | Ripple | ToastStyles

  /** The features with their own reduced-motion fallback, which `init` always turns on. */
  predicate AlwaysOn(f: Feature)
  {
    f.CounterFeature? || f.SmoothScroll? || f.LazyBackgrounds? || f.Ripple? || f.ToastStyles?
  }

  /** The features `init` sets up, in order: the visual ones only without reduced motion, then the
      ones that always run. */
  function Features(prefersReducedMotion: bool): (r: seq<Feature>)
    ensures forall i, j :: 0 <= i < j < |r| && AlwaysOn(r[i]) ==> AlwaysOn(r[j])
  {
    var visual := [MagneticButtons, Parallax, CardTilt, FadeInFeature, TypewriterFeature, RevealFeature,
                   NavbarFeature, ScrollProgress, ImageZoom];
    var always := [CounterFeature, SmoothScroll, LazyBackgrounds, Ripple, ToastStyles];
    (if prefersReducedMotion then [] else visual) + always
  }

  /** Under reduced motion exactly the features with a fallback run; otherwise every feature runs,
      each once. */
  lemma FeaturesSelected(prefersReducedMotion: bool)
    ensures forall f :: f in Features(prefersReducedMotion) <==> !prefersReducedMotion || AlwaysOn(f)
  {
    var r := Features(prefersReducedMotion);
    forall f ensures f in r <==> !prefersReducedMotion || AlwaysOn(f) {
      match f {
        case MagneticButtons => assert !prefersReducedMotion ==> r[0] == f;
        case Parallax => assert !prefersReducedMotion ==> r[1] == f;
        case CardTilt => assert !prefersReducedMotion ==> r[2] == f;
        case FadeInFeature => assert !prefersReducedMotion ==> r[3] == f;
        case TypewriterFeature => assert !prefersReducedMotion ==> r[4] == f;
        case RevealFeature => assert !prefersReducedMotion ==> r[5] == f;
        case NavbarFeature => assert !prefersReducedMotion ==> r[6] == f;
        case ScrollProgress => assert !prefersReducedMotion ==> r[7] == f;
        case ImageZoom => assert !prefersReducedMotion ==> r[8] == f;
        case CounterFeature => assert r[|r| - 5] == f;
        case SmoothScroll => assert r[|r| - 4] == f;
        case LazyBackgrounds => assert r[|r| - 3] == f;
        case Ripple => assert r[|r| - 2] == f;
        case ToastStyles => assert r[|r| - 1] == f;
      }
    }
  }

  /** The position of a feature in `init`'s full list. */
  function Position(f: Feature): nat
  {
    match f
    case MagneticButtons => 0 case Parallax => 1 case CardTilt => 2 case FadeInFeature => 3
    case TypewriterFeature => 4 case RevealFeature => 5 case NavbarFeature => 6 case ScrollProgress => 7
    case ImageZoom => 8 case CounterFeature => 9 case SmoothScroll => 10 case LazyBackgrounds => 11
    case Ripple => 12 case ToastStyles => 13
  }

  /** No feature is set up twice. */
  lemma FeaturesOnce(prefersReducedMotion: bool)
    ensures Distinct(Features(prefersReducedMotion))
  {
    var r := Features(prefersReducedMotion);
    var offset := if prefersReducedMotion then 9 else 0;
    assert forall i :: 0 <= i < |r| ==> Position(r[i]) == i + offset;
  }
}
