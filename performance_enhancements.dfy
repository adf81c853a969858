/**
 * Performance and UI enhancements (src/js/performance-enhancements.js): the shared lazy-load and
 * animation observer, the scroll-to-top button, prefetching of visible links, and the mobile
 * menu's ARIA state and focus trap.
 */
module PerformanceEnhancements {
  import opened Dom
  import opened Viewport

  // ---------------------------------------------------------------------------
  // The shared observer
  // ---------------------------------------------------------------------------

  /** observerCallback's effect on an intersecting target: lazy source first, then `animated` for
      an `animate-on-scroll` element. */
  function RevealTarget(e: Element): (r: Element)
    ensures r.src == MoveDataSrc(e).src && r.attrs == MoveDataSrc(e).attrs
    ensures r.classes == if "animate-on-scroll" in e.classes then e.classes + {"animated"} else e.classes
    ensures r.style == e.style && r.text == e.text
  {
    var e1 := MoveDataSrc(e);
    if "animate-on-scroll" in e1.classes then AddClass(e1, "animated") else e1
  }

  /** A target revealed twice is revealed once. */
  lemma RevealTargetIdempotent(e: Element)
    ensures RevealTarget(RevealTarget(e)) == RevealTarget(e)
  {
    MoveDataSrcIdempotent(e);
    var once := RevealTarget(e);
    assert MoveDataSrc(once) == once;
  }

  /** The observer created when the script loads; its targets are registered on DOMContentLoaded. */
  class SharedObserver {
    const page: Page
    const observer: IntersectionObserver

    constructor (page: Page)
      ensures this.page == page && fresh(observer) && observer.observed == {}
    {
      this.page := page;
      observer := new IntersectionObserver();
    }

    /** DOMContentLoaded: the `img[data-src]` images and the `.animate-on-scroll` elements are observed. */
    method OnContentLoaded(images: seq<ElemId>, animated: seq<ElemId>)
      requires Distinct(images) && Distinct(animated)
      modifies page`elems, observer
      ensures observer.observed == old(observer.observed) + Elements(images) + Elements(animated)
      ensures page.elems == old(page.elems)
    {
      ObserveEach(page, observer, images, e => e);
      ObserveEach(page, observer, animated, e => e);
      assert forall x :: x in page.elems ==> page.elems[x] == old(page.elems)[x];
    }

    /** observerCallback */
    method Deliver(batch: seq<Entry>)
      modifies page`elems, observer
      ensures page.elems == Run(old(page.elems), batch, RevealTarget)
      ensures observer.observed == old(observer.observed) - HitSet(batch)
    {
      DeliverOneShot(page, observer, batch, RevealTarget);
    }
  }

  /** Within a batch, a target is revealed once however many of its entries intersect, and a target
      no entry intersects is left alone. */
  lemma RevealedOnHit(elems: map<ElemId, Element>, batch: seq<Entry>, x: ElemId)
    requires x in elems
    ensures Run(elems, batch, RevealTarget)[x] == if x in HitSet(batch) then RevealTarget(elems[x]) else elems[x]
  {
    RevealTargetIdempotent(elems[x]);
    RunIdempotent(elems, batch, RevealTarget, x);
  }

  // ---------------------------------------------------------------------------
  // Scroll-to-top button
  // ---------------------------------------------------------------------------

  const ScrollToTopThreshold := 300

  /** The scroll listener of the scroll-to-top button. */
  method ToggleScrollToTop(page: Page, button: ElemId, scrollY: int)
    requires button in page.elems
    modifies page`elems
    ensures page.elems == old(page.elems)[button := ToggleClass(old(page.elems)[button], "visible", scrollY > ScrollToTopThreshold)]
    ensures "visible" in page.elems[button].classes <==> scrollY > ScrollToTopThreshold
  {
    if scrollY > ScrollToTopThreshold {
      page.elems := page.elems[button := AddClass(page.elems[button], "visible")];
    } else {
      page.elems := page.elems[button := RemoveClass(page.elems[button], "visible")];
    }
  }

  // ---------------------------------------------------------------------------
  // Prefetch of visible links
  // ---------------------------------------------------------------------------

  /** A link qualifies for prefetching: it has an href on the page's origin without a fragment. */
  predicate Qualifies(elems: map<ElemId, Element>, origin: string, x: ElemId)
  {
    x in elems && elems[x].href != "" && ShouldPrefetch(elems[x].href, origin)
  }

  /** The hrefs prefetched for a batch, in order: one per intersecting entry of a qualifying link. */
  function PrefetchedHrefs(elems: map<ElemId, Element>, origin: string, batch: seq<Entry>): (r: seq<string>)
    ensures |r| <= |batch|
  {
    if batch == [] then []
    else
      var e := batch[|batch| - 1];
      PrefetchedHrefs(elems, origin, batch[..|batch| - 1]) +
        (if e.isIntersecting && Qualifies(elems, origin, e.target) then [elems[e.target].href] else [])
  }

  /** The links a batch unobserves: the targets of intersecting entries that qualify. */
  function PrefetchedLinks(elems: map<ElemId, Element>, origin: string, batch: seq<Entry>): (r: set<ElemId>)
    ensures r <= HitSet(batch)
  {
    if batch == [] then {}
    else
      var e := batch[|batch| - 1];
      PrefetchedLinks(elems, origin, batch[..|batch| - 1]) +
        (if e.isIntersecting && Qualifies(elems, origin, e.target) then {e.target} else {})
  }

  /** The unobserved links are exactly the qualifying links some entry of the batch reports intersecting. */
  lemma {:induction false} PrefetchedLinksExactly(elems: map<ElemId, Element>, origin: string, batch: seq<Entry>, x: ElemId)
    ensures x in PrefetchedLinks(elems, origin, batch) <==> x in HitSet(batch) && Qualifies(elems, origin, x)
  {
    if batch != [] {
      PrefetchedLinksExactly(elems, origin, batch[..|batch| - 1], x);
    }
  }

  /** One `<link rel="prefetch">` (no `as`) per href. */
  function PlainPrefetches(hrefs: seq<string>): (r: seq<HeadNode>)
    ensures |r| == |hrefs|
  {
    if hrefs == [] then [] else PlainPrefetches(hrefs[..|hrefs| - 1]) + [PrefetchLink(hrefs[|hrefs| - 1], false)]
  }

  /** The k-th link prefetches the k-th href, without `as`. */
  lemma {:induction false} PlainPrefetchesAt(hrefs: seq<string>, k: nat)
    requires k < |hrefs|
    ensures PlainPrefetches(hrefs)[k] == PrefetchLink(hrefs[k], false)
  {
    if k < |hrefs| - 1 {
      PlainPrefetchesAt(hrefs[..|hrefs| - 1], k);
    }
  }

  lemma PlainPrefetchesAppend(hrefs: seq<string>, h: string)
    ensures PlainPrefetches(hrefs + [h]) == PlainPrefetches(hrefs) + [PrefetchLink(h, false)]
  {
    assert (hrefs + [h])[..|hrefs|] == hrefs;
  }

  /** One more entry of a batch adds at most one href. */
  lemma HrefsStep(elems: map<ElemId, Element>, origin: string, batch: seq<Entry>, i: nat)
    requires i < |batch|
    ensures PrefetchedHrefs(elems, origin, batch[..i + 1]) ==
      PrefetchedHrefs(elems, origin, batch[..i]) +
        (if batch[i].isIntersecting && Qualifies(elems, origin, batch[i].target) then [elems[batch[i].target].href] else [])
  {
    assert batch[..i + 1][..i] == batch[..i];
  }

  /** One more entry of a batch unobserves at most one link. */
  lemma LinksStep(elems: map<ElemId, Element>, origin: string, batch: seq<Entry>, i: nat)
    requires i < |batch|
    ensures PrefetchedLinks(elems, origin, batch[..i + 1]) ==
      PrefetchedLinks(elems, origin, batch[..i]) +
        (if batch[i].isIntersecting && Qualifies(elems, origin, batch[i].target) then {batch[i].target} else {})
  {
    assert batch[..i + 1][..i] == batch[..i];
  }

  /** Sequence concatenation is associative. */
  lemma ConcatAssoc<T>(a: seq<T>, b: seq<T>, c: seq<T>)
    ensures (a + b) + c == a + (b + c)
  {
  }

  /** The callback's loop invariant on the head survives one more entry. */
  lemma HeadStep(elems: map<ElemId, Element>, origin: string, batch: seq<Entry>, i: nat,
                 head0: seq<HeadNode>, head: seq<HeadNode>, added: seq<HeadNode>)
    requires i < |batch|
    requires head == head0 + PlainPrefetches(PrefetchedHrefs(elems, origin, batch[..i]))
    requires added == if batch[i].isIntersecting && Qualifies(elems, origin, batch[i].target)
      then [PrefetchLink(elems[batch[i].target].href, false)] else []
    ensures head + added == head0 + PlainPrefetches(PrefetchedHrefs(elems, origin, batch[..i + 1]))
  {
    HrefsStep(elems, origin, batch, i);
    var hrefs := PrefetchedHrefs(elems, origin, batch[..i]);
    if batch[i].isIntersecting && Qualifies(elems, origin, batch[i].target) {
      var h := elems[batch[i].target].href;
      PlainPrefetchesAppend(hrefs, h);
      ConcatAssoc(head0, PlainPrefetches(hrefs), added);
    } else {
      assert hrefs + [] == hrefs;
    }
  }

  /** The callback's loop invariant on the observed links survives one more entry. */
  lemma ObservedStep(elems: map<ElemId, Element>, origin: string, batch: seq<Entry>, i: nat,
                     observed0: set<ElemId>, before: set<ElemId>, after: set<ElemId>)
    requires i < |batch|
    requires before == observed0 - PrefetchedLinks(elems, origin, batch[..i])
    requires after == before - if batch[i].isIntersecting && Qualifies(elems, origin, batch[i].target) then {batch[i].target} else {}
    ensures after == observed0 - PrefetchedLinks(elems, origin, batch[..i + 1])
  {
    LinksStep(elems, origin, batch, i);
  }

  /** Only qualifying links are prefetched: every prefetched href is on the origin and fragment-free. */
  lemma {:induction false} PrefetchedHrefsQualify(elems: map<ElemId, Element>, origin: string, batch: seq<Entry>)
    ensures forall h :: h in PrefetchedHrefs(elems, origin, batch) ==> h != "" && ShouldPrefetch(h, origin)
  {
    if batch != [] {
      PrefetchedHrefsQualify(elems, origin, batch[..|batch| - 1]);
    }
  }

  /** Later entries only add hrefs after the ones already prefetched. */
  lemma {:induction false} PrefetchedHrefsPrefix(elems: map<ElemId, Element>, origin: string, batch: seq<Entry>, j: nat)
    requires j <= |batch|
    ensures PrefetchedHrefs(elems, origin, batch[..j]) <= PrefetchedHrefs(elems, origin, batch)
  {
    if j < |batch| {
      var init := batch[..|batch| - 1];
      assert init[..j] == batch[..j];
      PrefetchedHrefsPrefix(elems, origin, init, j);
    } else {
      assert batch[..j] == batch;
    }
  }

  /** Every visible qualifying link is prefetched, in batch order: the href of such an entry `k`
      comes right after the hrefs of the entries before it. */
  lemma PrefetchedHrefsComplete(elems: map<ElemId, Element>, origin: string, batch: seq<Entry>, k: nat)
    requires k < |batch| && batch[k].isIntersecting && Qualifies(elems, origin, batch[k].target)
    ensures var n := |PrefetchedHrefs(elems, origin, batch[..k])|;
      n < |PrefetchedHrefs(elems, origin, batch)| && PrefetchedHrefs(elems, origin, batch)[n] == elems[batch[k].target].href
  {
    HrefsStep(elems, origin, batch, k);
    PrefetchedHrefsPrefix(elems, origin, batch, k + 1);
  }

  /** There is no de-duplication: two visible anchors with the same href prefetch it twice. */
  lemma SameHrefPrefetchedTwice()
    ensures var a := Element("A", {}, map[], map[], "", "", "", "https://a.de/k");
      var elems := map[1 := a, 2 := a];
      PrefetchedHrefs(elems, "https://a.de", [Entry(1, true), Entry(2, true)]) ==
        ["https://a.de/k", "https://a.de/k"]
  {
    var a := Element("A", {}, map[], map[], "", "", "", "https://a.de/k");
    var elems := map[1 := a, 2 := a];
    assert ShouldPrefetch(a.href, "https://a.de") by {
      assert a.href[..|"https://a.de"|] == "https://a.de";
    }
    var b := [Entry(1, true), Entry(2, true)];
    assert b[..1] == [Entry(1, true)] && b[..1][..0] == [];
  }

  /** prefetchVisibleLinks: every `a[href]` is observed; a qualifying link is prefetched and
      unobserved when it becomes visible, other links stay observed. */
  class LinkPrefetcher {
    const page: Page
    const origin: string
    const observer: IntersectionObserver

    constructor (page: Page, origin: string, anchors: seq<ElemId>)
      requires Distinct(anchors)
      modifies page`elems
      ensures this.page == page && this.origin == origin && fresh(observer)
      ensures observer.observed == Elements(anchors) && page.elems == old(page.elems)
    {
      this.page := page;
      this.origin := origin;
      observer := new IntersectionObserver();
      new;
      ObserveEach(page, observer, anchors, e => e);
      assert forall x :: x in page.elems ==> page.elems[x] == old(page.elems)[x];
    }

    /** The callback's work for one entry: the links it appends and the observer update. */
    method PrefetchEntry(elems: map<ElemId, Element>, entry: Entry) returns (added: seq<HeadNode>)
      modifies observer
      ensures var q := entry.isIntersecting && Qualifies(elems, origin, entry.target);
        added == (if q then [PrefetchLink(elems[entry.target].href, false)] else []) &&
        observer.observed == old(observer.observed) - (if q then {entry.target} else {})
    {
      added := [];
      if entry.isIntersecting && entry.target in elems {
        var href := elems[entry.target].href;
        if href != "" && StartsWith(href, origin) && '#' !in href {
          added := [PrefetchLink(href, false)];
          observer.Unobserve(entry.target);
        }
      }
    }

    method Deliver(batch: seq<Entry>)
      modifies page`head, observer
      ensures page.head == old(page.head) + PlainPrefetches(PrefetchedHrefs(page.elems, origin, batch))
      ensures observer.observed == old(observer.observed) - PrefetchedLinks(page.elems, origin, batch)
    {
      var elems := page.elems;
      var head := page.head;
      var i := 0;
      while i < |batch|
        invariant 0 <= i <= |batch| && page.elems == elems && page.head == old(page.head)
        invariant head == old(page.head) + PlainPrefetches(PrefetchedHrefs(elems, origin, batch[..i]))
        invariant observer.observed == old(observer.observed) - PrefetchedLinks(elems, origin, batch[..i])
      {
        ghost var before := observer.observed;
        var added := PrefetchEntry(elems, batch[i]);
        HeadStep(elems, origin, batch, i, old(page.head), head, added);
        ObservedStep(elems, origin, batch, i, old(observer.observed), before, observer.observed);
        head := head + added;
        i := i + 1;
      }
      page.head := head;
      assert batch[..|batch|] == batch;
    }
  }

  /** A link that does not qualify stays observed through any batch. */
  lemma NonQualifyingStaysObserved(elems: map<ElemId, Element>, origin: string, batch: seq<Entry>, observed: set<ElemId>, x: ElemId)
    requires x in observed && !Qualifies(elems, origin, x)
    ensures x in observed - PrefetchedLinks(elems, origin, batch)
  {
    PrefetchedLinksExactly(elems, origin, batch, x);
  }

  // ---------------------------------------------------------------------------
  // Mobile menu: ARIA state and focus trap
  // ---------------------------------------------------------------------------

  /** The outcome of one keydown in the focus trap. */
  datatype FocusStep = FocusStep(prevented: bool, focus: ElemId, clickButton: bool)

  /** trapFocus: while the menu is active, Tab on the last focusable wraps to the first and
      Shift+Tab on the first wraps to the last; Escape clicks and focuses the menu button. */
  function TrapFocus(menuActive: bool, key: string, shift: bool, focusables: seq<ElemId>, current: ElemId, menuBtn: ElemId): (r: FocusStep)
    ensures !menuActive ==> r == FocusStep(false, current, false)
    ensures r.clickButton <==> menuActive && key == "Escape"
  {
    if !menuActive then FocusStep(false, current, false)
    else
      var tab :=
        if key == "Tab" && |focusables| > 0 then
          if shift && current == focusables[0] then FocusStep(true, focusables[|focusables| - 1], false)
          else if !shift && current == focusables[|focusables| - 1] then FocusStep(true, focusables[0], false)
          else FocusStep(false, current, false)
        else FocusStep(false, current, false);
      if key == "Escape" then tab.(focus := menuBtn, clickButton := true) else tab
  }

  /** Focus wraps around at both ends of the menu, and nowhere else: Tab elsewhere, Shift+Tab
      elsewhere and every other key but Escape leave the focus and the default alone. */
  lemma FocusWrapsAround(key: string, shift: bool, focusables: seq<ElemId>, current: ElemId, menuBtn: ElemId)
    requires |focusables| > 0
    ensures var r := TrapFocus(true, key, shift, focusables, current, menuBtn);
      (key == "Tab" && !shift && current == focusables[|focusables| - 1] ==> r == FocusStep(true, focusables[0], false)) &&
      (key == "Tab" && shift && current == focusables[0] ==> r == FocusStep(true, focusables[|focusables| - 1], false)) &&
      (key == "Tab" && !shift && current != focusables[|focusables| - 1] ==> r == FocusStep(false, current, false)) &&
      (key == "Tab" && shift && current != focusables[0] ==> r == FocusStep(false, current, false)) &&
      (key != "Tab" && key != "Escape" ==> r == FocusStep(false, current, false)) &&
      (key == "Escape" ==> r.focus == menuBtn && r.clickButton && !r.prevented)
  {
  }

  const OpenLabel := "Menü öffnen"
  const CloseLabel := "Menü schließen"

  /** The menu button and the menu after updateMenuState(isOpen): the button announces the state
      and the label of the action it offers, the menu is hidden from assistive technology exactly
      when it is closed; nothing else about either element changes. */
  function MenuState(btn: Element, menu: Element, isOpen: bool): (r: (Element, Element))
    ensures "aria-expanded" in r.0.attrs && "aria-label" in r.0.attrs && "aria-hidden" in r.1.attrs
    ensures r.0.attrs["aria-expanded"] == BoolString(isOpen) && r.1.attrs["aria-hidden"] == BoolString(!isOpen)
    ensures r.0.attrs["aria-expanded"] != r.1.attrs["aria-hidden"]
    ensures r.0.attrs["aria-label"] == if isOpen then CloseLabel else OpenLabel
    ensures r.0 == btn.(attrs := r.0.attrs) && r.1 == menu.(attrs := r.1.attrs)
    ensures r.0.attrs.Keys == btn.attrs.Keys + {"aria-expanded", "aria-label"}
    ensures r.1.attrs.Keys == menu.attrs.Keys + {"aria-hidden"}
    ensures forall k :: k in btn.attrs && k != "aria-expanded" && k != "aria-label" ==> r.0.attrs[k] == btn.attrs[k]
    ensures forall k :: k in menu.attrs && k != "aria-hidden" ==> r.1.attrs[k] == menu.attrs[k]
  {
    (SetAttr(SetAttr(btn, "aria-expanded", BoolString(isOpen)), "aria-label", if isOpen then CloseLabel else OpenLabel),
     SetAttr(menu, "aria-hidden", BoolString(!isOpen)))
  }

  /** Updating the state twice with the same value is updating it once. */
  lemma MenuStateIdempotent(btn: Element, menu: Element, isOpen: bool)
    ensures var (b, m) := MenuState(btn, menu, isOpen);
      MenuState(b, m, isOpen) == (b, m)
  {
    var (b, m) := MenuState(btn, menu, isOpen);
    var (b2, m2) := MenuState(b, m, isOpen);
    assert b2.attrs == b.attrs;
    assert m2.attrs == m.attrs;
  }

  /** enhanceMobileMenu for a page that has both the menu button and the menu (it does nothing
      otherwise). `trapInstalled` says whether trapFocus is a keydown listener; `focused` is
      document.activeElement; `pendingFocus` is the first menu link the 100 ms timer will focus. */
  class MenuFocusTrap {
    const page: Page
    const menuBtn: ElemId
    const mobileMenu: ElemId
    var trapInstalled: bool
    var focused: ElemId
    var pendingFocus: Option<ElemId>

    predicate Valid()
      reads this, page
    {
      menuBtn in page.elems && mobileMenu in page.elems && menuBtn != mobileMenu
    }

    /** The initial ARIA attributes are those of a closed menu. */
    constructor (page: Page, menuBtn: ElemId, mobileMenu: ElemId, focused: ElemId)
      requires menuBtn in page.elems && mobileMenu in page.elems && menuBtn != mobileMenu
      modifies page`elems
      ensures this.page == page && this.menuBtn == menuBtn && this.mobileMenu == mobileMenu && Valid()
      ensures !trapInstalled && this.focused == focused && pendingFocus == None
      ensures var (b, m) := MenuState(old(page.elems)[menuBtn], old(page.elems)[mobileMenu], false);
        page.elems == old(page.elems)[menuBtn := b][mobileMenu := m]
    {
      this.page := page;
      this.menuBtn := menuBtn;
      this.mobileMenu := mobileMenu;
      trapInstalled := false;
      this.focused := focused;
      pendingFocus := None;
      new;
      var btn := SetAttr(page.elems[menuBtn], "aria-expanded", "false");
      btn := SetAttr(btn, "aria-label", OpenLabel);
      var menu := SetAttr(page.elems[mobileMenu], "aria-hidden", "true");
      page.elems := page.elems[menuBtn := btn][mobileMenu := menu];
    }

    /** updateMenuState(isOpen); `firstLink` is the menu's first `<a>`, if any. */
    method UpdateMenuState(isOpen: bool, firstLink: Option<ElemId>)
      requires Valid()
      modifies page`elems, this`trapInstalled, this`pendingFocus
      ensures Valid() && trapInstalled == isOpen
      ensures var (b, m) := MenuState(old(page.elems)[menuBtn], old(page.elems)[mobileMenu], isOpen);
        page.elems == old(page.elems)[menuBtn := b][mobileMenu := m]
      ensures pendingFocus == if isOpen && firstLink.Some? then firstLink else old(pendingFocus)
    {
      var btn := SetAttr(page.elems[menuBtn], "aria-expanded", BoolString(isOpen));
      btn := SetAttr(btn, "aria-label", if isOpen then CloseLabel else OpenLabel);
      var menu := SetAttr(page.elems[mobileMenu], "aria-hidden", BoolString(!isOpen));
      page.elems := page.elems[menuBtn := btn][mobileMenu := menu];
      if isOpen {
        trapInstalled := true;
        if firstLink.Some? {
          pendingFocus := firstLink;
        }
      } else {
        trapInstalled := false;
      }
    }

    /** The button's onclick: after the menu has toggled, its state is read back from the menu's
        `active` class. */
    method OnMenuButtonClick(firstLink: Option<ElemId>)
      requires Valid()
      modifies page`elems, this`trapInstalled, this`pendingFocus
      ensures Valid() && (trapInstalled <==> "active" in old(page.elems)[mobileMenu].classes)
      ensures var (b, m) := MenuState(old(page.elems)[menuBtn], old(page.elems)[mobileMenu], trapInstalled);
        page.elems == old(page.elems)[menuBtn := b][mobileMenu := m]
    {
      var isOpen := "active" in page.elems[mobileMenu].classes;
      UpdateMenuState(isOpen, firstLink);
    }

    /** The 100 ms timer focuses the first menu link. */
    method OnFocusTimer()
      requires pendingFocus.Some?
      modifies this`focused, this`pendingFocus
      ensures focused == old(pendingFocus).value && pendingFocus == None
    {
      focused := pendingFocus.value;
      pendingFocus := None;
    }

    /** A keydown: only an installed trap reacts. `focusables` are the menu's focusable elements in
        document order. The second result says whether the menu button was clicked. */
    method OnKeyDown(key: string, shift: bool, focusables: seq<ElemId>) returns (prevented: bool, clicked: bool)
      requires Valid()
      modifies this`focused
      ensures !trapInstalled ==> !prevented && !clicked && focused == old(focused)
      ensures trapInstalled ==>
        var r := TrapFocus("active" in page.elems[mobileMenu].classes, key, shift, focusables, old(focused), menuBtn);
        prevented == r.prevented && clicked == r.clickButton && focused == r.focus
    {
      prevented, clicked := false, false;
      if !trapInstalled {
        return;
      }
      if "active" !in page.elems[mobileMenu].classes {
        return;
      }
      if key == "Tab" && |focusables| > 0 {
        var firstElement, lastElement := focusables[0], focusables[|focusables| - 1];
        if shift && focused == firstElement {
          prevented := true;
          focused := lastElement;
        } else if !shift && focused == lastElement {
          prevented := true;
          focused := firstElement;
        }
      }
      if key == "Escape" {
        clicked := true;
        focused := menuBtn;
      }
    }
  }
}
