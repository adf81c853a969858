/**
 * Mobile experience (src/js/mobile-experience.js): the mobile menu and its class, ARIA and body-style
 * mirrors, the nav scroll state, the lazy-image fallback observer, the scroll animations, the blur
 * logic of form inputs, and the active nav link.
 */
module MobileExperience {
  import opened Dom
  import opened Viewport

  // ---------------------------------------------------------------------------
  // Mobile navigation
  // ---------------------------------------------------------------------------

  /** The elements the menu touches: the button, the optional menu and overlay, and the body. */
  datatype NavIds = NavIds(menuBtn: ElemId, mobileMenu: Option<ElemId>, overlay: Option<ElemId>, body: ElemId)

  predicate Present(elems: map<ElemId, Element>, ids: NavIds)
  {
    ids.menuBtn in elems && ids.body in elems &&
    (ids.mobileMenu.Some? ==> ids.mobileMenu.value in elems) &&
    (ids.overlay.Some? ==> ids.overlay.value in elems)
  }

  /** `el?.classList.toggle(c, force)` for an optional element. */
  function ToggleIf(elems: map<ElemId, Element>, id: Option<ElemId>, c: string, force: bool): (r: map<ElemId, Element>)
    ensures r.Keys == elems.Keys
  {
    if id.Some? && id.value in elems then elems[id.value := ToggleClass(elems[id.value], c, force)] else elems
  }

  lemma ToggleIfAt(elems: map<ElemId, Element>, id: Option<ElemId>, c: string, force: bool, x: ElemId)
    requires x in elems
    ensures ToggleIf(elems, id, c, force)[x] == if id == Some(x) then ToggleClass(elems[x], c, force) else elems[x]
  {
  }

  /** The elements after the menu is shown (open) or hidden (close) — the same steps with the
      opposite values. */
  function Shown(elems: map<ElemId, Element>, ids: NavIds, open: bool): (r: map<ElemId, Element>)
    requires Present(elems, ids)
    ensures r.Keys == elems.Keys
  {
    var e1 := elems[ids.menuBtn := SetAttr(ToggleClass(elems[ids.menuBtn], "active", open), "aria-expanded", BoolString(open))];
    var e2 := ToggleIf(e1, ids.mobileMenu, "active", open);
    var e3 := ToggleIf(e2, ids.overlay, "active", open);
    e3[ids.body := SetStyle(SetStyle(e3[ids.body], "overflow", if open then "hidden" else ""), "touch-action", if open then "none" else "")]
  }

  function Opened(elems: map<ElemId, Element>, ids: NavIds): map<ElemId, Element>
    requires Present(elems, ids)
  {
    Shown(elems, ids, true)
  }

  function Closed(elems: map<ElemId, Element>, ids: NavIds): map<ElemId, Element>
    requires Present(elems, ids)
  {
    Shown(elems, ids, false)
  }

  /** The document mirrors `isOpen`: the button, menu and overlay carry `active` exactly when it is
      open, aria-expanded is String(isOpen), and the body's overflow and touch-action are locked
      exactly when it is open. */
  predicate Mirrors(elems: map<ElemId, Element>, ids: NavIds, isOpen: bool)
    requires Present(elems, ids)
  {
    var btn, body := elems[ids.menuBtn], elems[ids.body];
    ("active" in btn.classes <==> isOpen) &&
    "aria-expanded" in btn.attrs && btn.attrs["aria-expanded"] == BoolString(isOpen) &&
    (ids.mobileMenu.Some? ==> ("active" in elems[ids.mobileMenu.value].classes <==> isOpen)) &&
    (ids.overlay.Some? ==> ("active" in elems[ids.overlay.value].classes <==> isOpen)) &&
    "overflow" in body.style && body.style["overflow"] == (if isOpen then "hidden" else "") &&
    "touch-action" in body.style && body.style["touch-action"] == (if isOpen then "none" else "")
  }

  function Touched(ids: NavIds): set<ElemId>
  {
    {ids.menuBtn, ids.body} +
    (if ids.mobileMenu.Some? then {ids.mobileMenu.value} else {}) +
    (if ids.overlay.Some? then {ids.overlay.value} else {})
  }

  /** After open or close the document mirrors the new state, whatever it was before, and no other
      element changes. */
  lemma ShownMirrors(elems: map<ElemId, Element>, ids: NavIds, open: bool)
    requires Present(elems, ids)
    ensures Present(Shown(elems, ids, open), ids)
    ensures Mirrors(Shown(elems, ids, open), ids, open)
    ensures forall x :: x in elems && x !in Touched(ids) ==> Shown(elems, ids, open)[x] == elems[x]
  {
    ShownPointwise(elems, ids, open, ids.menuBtn);
    ShownPointwise(elems, ids, open, ids.body);
    if ids.mobileMenu.Some? {
      ShownPointwise(elems, ids, open, ids.mobileMenu.value);
    }
    if ids.overlay.Some? {
      ShownPointwise(elems, ids, open, ids.overlay.value);
    }
    forall x | x in elems && x !in Touched(ids) ensures Shown(elems, ids, open)[x] == elems[x] {
      ShownPointwise(elems, ids, open, x);
    }
  }

  /** What open (or close) does to one element, field by field, by the roles the element plays:
      one toggle of `active` for any of the three roles, aria-expanded on the button, the two style
      properties on the body. */
  function ShownAt(ids: NavIds, open: bool, x: ElemId, e: Element): Element
  {
    var toggled := x == ids.menuBtn || ids.mobileMenu == Some(x) || ids.overlay == Some(x);
    e.(classes := if !toggled then e.classes else if open then e.classes + {"active"} else e.classes - {"active"},
       attrs := if x == ids.menuBtn then e.attrs["aria-expanded" := BoolString(open)] else e.attrs,
       style := if x == ids.body then e.style["overflow" := if open then "hidden" else ""]["touch-action" := if open then "none" else ""] else e.style)
  }

  /** The sequential steps of open (or close) amount to the field-by-field account. */
  lemma ShownPointwise(elems: map<ElemId, Element>, ids: NavIds, open: bool, x: ElemId)
    requires Present(elems, ids) && x in elems
    ensures Shown(elems, ids, open)[x] == ShownAt(ids, open, x, elems[x])
  {
    var e := elems[x];
    var e1 := elems[ids.menuBtn := SetAttr(ToggleClass(elems[ids.menuBtn], "active", open), "aria-expanded", BoolString(open))];
    var e2 := ToggleIf(e1, ids.mobileMenu, "active", open);
    var e3 := ToggleIf(e2, ids.overlay, "active", open);
    ToggleIfAt(e1, ids.mobileMenu, "active", open, x);
    ToggleIfAt(e2, ids.overlay, "active", open, x);
    var onBtn := x == ids.menuBtn || ids.mobileMenu == Some(x);
    var clsA := if open then e.classes + {"active"} else e.classes - {"active"};
    assert e1[x].classes == if x == ids.menuBtn then clsA else e.classes;
    assert e2[x].classes == if onBtn then clsA else e.classes;
    assert e3[x].classes == if onBtn || ids.overlay == Some(x) then clsA else e.classes;
    assert e3[x] == e.(classes := e3[x].classes, attrs := if x == ids.menuBtn then e.attrs["aria-expanded" := BoolString(open)] else e.attrs);
  }

  lemma ShownAtIdempotent(ids: NavIds, open: bool, x: ElemId, e: Element)
    ensures ShownAt(ids, open, x, ShownAt(ids, open, x, e)) == ShownAt(ids, open, x, e)
  {
  }

  /** Opening an open menu, or closing a closed one, changes nothing more. */
  lemma ShownIdempotent(elems: map<ElemId, Element>, ids: NavIds, open: bool)
    requires Present(elems, ids)
    ensures Shown(Shown(elems, ids, open), ids, open) == Shown(elems, ids, open)
  {
    var once := Shown(elems, ids, open);
    var twice := Shown(once, ids, open);
    forall x | x in once ensures twice[x] == once[x] {
      ShownPointwise(elems, ids, open, x);
      ShownPointwise(once, ids, open, x);
      ShownAtIdempotent(ids, open, x, elems[x]);
    }
  }

  /** `this.nav` after handleScroll. */
  function WithScrollClass(elems: map<ElemId, Element>, nav: Option<ElemId>, scrollY: int, threshold: int): (r: map<ElemId, Element>)
    ensures r.Keys == elems.Keys
    ensures nav.Some? && nav.value in elems ==> ("scrolled" in r[nav.value].classes <==> scrollY > threshold)
    ensures forall x :: x in elems && (nav.None? || x != nav.value) ==> r[x] == elems[x]
  {
    ToggleIf(elems, nav, "scrolled", scrollY > threshold)
  }

  /** MobileNavigation. Its listeners exist only when the page has a menu button (`init` returns
      early otherwise), so its handlers are modelled for a present button. `pendingCloses` counts
      the 150 ms close timers started by link clicks that have not fired yet. */
  class MobileNavigation {
    const page: Page
    const ids: NavIds
    const nav: Option<ElemId>
    var isOpen: bool
    var pendingCloses: nat

    predicate Valid()
      reads this, page
    {
      Present(page.elems, ids) && (nav.Some? ==> nav.value in page.elems)
    }

    /** The constructor with `init` for a page that has a menu button: initial scroll handling. */
    constructor (page: Page, ids: NavIds, nav: Option<ElemId>, scrollY: int)
      requires Present(page.elems, ids) && (nav.Some? ==> nav.value in page.elems)
      modifies page`elems
      ensures this.page == page && this.ids == ids && this.nav == nav
      ensures !isOpen && pendingCloses == 0 && Valid()
      ensures page.elems == WithScrollClass(old(page.elems), nav, scrollY, 50)
    {
      this.page := page;
      this.ids := ids;
      this.nav := nav;
      isOpen := false;
      pendingCloses := 0;
      new;
      HandleScroll(scrollY);
    }

    method Open()
      requires Valid()
      modifies this`isOpen, page`elems
      ensures isOpen && Valid()
      ensures page.elems == Opened(old(page.elems), ids)
      ensures Mirrors(page.elems, ids, isOpen)
    {
      isOpen := true;
      var btn := page.elems[ids.menuBtn];
      page.elems := page.elems[ids.menuBtn := SetAttr(AddClass(btn, "active"), "aria-expanded", "true")];
      if ids.mobileMenu.Some? {
        page.elems := ToggleIf(page.elems, ids.mobileMenu, "active", true);
      }
      if ids.overlay.Some? {
        page.elems := ToggleIf(page.elems, ids.overlay, "active", true);
      }
      var body := page.elems[ids.body];
      page.elems := page.elems[ids.body := SetStyle(SetStyle(body, "overflow", "hidden"), "touch-action", "none")];
      ShownMirrors(old(page.elems), ids, true);
    }

    method Close()
      requires Valid()
      modifies this`isOpen, page`elems
      ensures !isOpen && Valid()
      ensures page.elems == Closed(old(page.elems), ids)
      ensures Mirrors(page.elems, ids, isOpen)
    {
      isOpen := false;
      var btn := page.elems[ids.menuBtn];
      page.elems := page.elems[ids.menuBtn := SetAttr(RemoveClass(btn, "active"), "aria-expanded", "false")];
      if ids.mobileMenu.Some? {
        page.elems := ToggleIf(page.elems, ids.mobileMenu, "active", false);
      }
      if ids.overlay.Some? {
        page.elems := ToggleIf(page.elems, ids.overlay, "active", false);
      }
      var body := page.elems[ids.body];
      page.elems := page.elems[ids.body := SetStyle(SetStyle(body, "overflow", ""), "touch-action", "")];
      ShownMirrors(old(page.elems), ids, false);
    }

    /** A click on the menu button. */
    method Toggle()
      requires Valid()
      modifies this`isOpen, page`elems
      ensures isOpen == !old(isOpen) && Valid()
      ensures page.elems == Shown(old(page.elems), ids, isOpen)
      ensures Mirrors(page.elems, ids, isOpen)
    {
      if isOpen {
        Close();
      } else {
        Open();
      }
    }

    /** A click on the overlay. */
    method OnOverlayClick()
      requires Valid() && ids.overlay.Some?
      modifies this`isOpen, page`elems
      ensures !isOpen && page.elems == Closed(old(page.elems), ids) && Valid()
    {
      Close();
    }

    /** A keydown anywhere: only Escape on an open menu closes it. */
    method OnKeyDown(key: string)
      requires Valid()
      modifies this`isOpen, page`elems
      ensures Valid()
      ensures if key == "Escape" && old(isOpen) then !isOpen && page.elems == Closed(old(page.elems), ids)
              else isOpen == old(isOpen) && page.elems == old(page.elems)
    {
      if key == "Escape" && isOpen {
        Close();
      }
    }

    /** A resize: reaching the desktop width closes an open menu. */
    method OnResize(innerWidth: int)
      requires Valid()
      modifies this`isOpen, page`elems
      ensures Valid()
      ensures if innerWidth >= 769 && old(isOpen) then !isOpen && page.elems == Closed(old(page.elems), ids)
              else isOpen == old(isOpen) && page.elems == old(page.elems)
    {
      if innerWidth >= 769 && isOpen {
        Close();
      }
    }

    /** A click on a menu link starts a close timer. */
    method OnLinkClick()
      modifies this`pendingCloses
      ensures pendingCloses == old(pendingCloses) + 1
    {
      pendingCloses := pendingCloses + 1;
    }

    /** A link's close timer fires: the menu is closed whether or not it is still open. */
    method OnCloseTimer()
      requires Valid() && pendingCloses > 0
      modifies this`isOpen, this`pendingCloses, page`elems
      ensures !isOpen && pendingCloses == old(pendingCloses) - 1 && Valid()
      ensures page.elems == Closed(old(page.elems), ids)
    {
      pendingCloses := pendingCloses - 1;
      Close();
    }

    /** handleScroll at a vertical scroll offset. */
    method HandleScroll(scrollY: int)
      requires nav.Some? ==> nav.value in page.elems
      modifies page`elems
      ensures page.elems == WithScrollClass(old(page.elems), nav, scrollY, 50)
    {
      if nav.Some? {
        var n := nav.value;
        if scrollY > 50 {
          page.elems := page.elems[n := AddClass(page.elems[n], "scrolled")];
        } else {
          page.elems := page.elems[n := RemoveClass(page.elems[n], "scrolled")];
        }
      }
    }
  }

  // ---------------------------------------------------------------------------
  // Lazy images
  // ---------------------------------------------------------------------------

  /** The fallback observer's effect on an intersecting image. */
  function LoadLazyImage(e: Element): (r: Element)
    ensures "loaded" in r.classes && r.classes == e.classes + {"loaded"}
    ensures r.src == if HasTruthyAttr(e, "data-src") then e.attrs["data-src"] else e.src
    ensures r.attrs == e.attrs && r.style == e.style && r.text == e.text
  {
    AddClass(if HasTruthyAttr(e, "data-src") then e.(src := e.attrs["data-src"]) else e, "loaded")
  }

  /** Loading an image twice is loading it once (data-src stays, so the second copy is a no-op). */
  lemma LoadLazyImageIdempotent(e: Element)
    ensures LoadLazyImage(LoadLazyImage(e)) == LoadLazyImage(e)
  {
  }

  /** LazyImages: with native lazy loading an image gets `loaded` when it loads; without it an
      observer is set up that loads each image when it first becomes visible. */
  class LazyImages {
    const page: Page
    const native: bool
    const observer: IntersectionObserver

    constructor (page: Page, images: seq<ElemId>, native: bool)
      requires Distinct(images)
      modifies page`elems
      ensures this.page == page && this.native == native && fresh(observer)
      ensures page.elems == old(page.elems)
      ensures observer.observed == if native then {} else Elements(images)
    {
      this.page := page;
      this.native := native;
      observer := new IntersectionObserver();
      new;
      if !native {
        ObserveEach(page, observer, images, e => e);
        assert forall x :: x in page.elems ==> page.elems[x] == old(page.elems)[x];
      }
    }

    /** The native branch's load listener. */
    method OnLoad(img: ElemId)
      requires native && img in page.elems
      modifies page`elems
      ensures page.elems == old(page.elems)[img := AddClass(old(page.elems)[img], "loaded")]
    {
      page.elems := page.elems[img := AddClass(page.elems[img], "loaded")];
    }

    /** The fallback observer's callback. */
    method Deliver(batch: seq<Entry>)
      requires !native
      modifies page`elems, observer
      ensures page.elems == Run(old(page.elems), batch, LoadLazyImage)
      ensures observer.observed == old(observer.observed) - HitSet(batch)
    {
      DeliverOneShot(page, observer, batch, LoadLazyImage);
    }
  }

  // ---------------------------------------------------------------------------
  // Scroll animations
  // ---------------------------------------------------------------------------

  function MarkAnimated(e: Element): Element { AddClass(e, "animate-on-scroll") }

  function ShowAnimated(e: Element): Element { AddClass(e, "animate-visible") }

  /** ScrollAnimations: nothing happens under reduced motion; otherwise every element is marked and
      observed, and shown the first time it intersects. */
  class ScrollAnimations {
    const page: Page
    const observer: IntersectionObserver

    constructor (page: Page, elements: seq<ElemId>, reducedMotion: bool)
      requires Distinct(elements)
      modifies page`elems
      ensures this.page == page && fresh(observer)
      ensures reducedMotion ==> observer.observed == {} && page.elems == old(page.elems)
      ensures !reducedMotion ==> observer.observed == Elements(elements) && page.elems.Keys == old(page.elems).Keys
      ensures !reducedMotion ==> forall x :: x in old(page.elems) ==>
        page.elems[x] == if x in elements then MarkAnimated(old(page.elems)[x]) else old(page.elems)[x]
    {
      this.page := page;
      observer := new IntersectionObserver();
      new;
      if !reducedMotion {
        ObserveEach(page, observer, elements, MarkAnimated);
      }
    }

    method Deliver(batch: seq<Entry>)
      modifies page`elems, observer
      ensures page.elems == Run(old(page.elems), batch, ShowAnimated)
      ensures observer.observed == old(observer.observed) - HitSet(batch)
    {
      DeliverOneShot(page, observer, batch, ShowAnimated);
    }
  }

  /** An element is shown when some entry of the batch intersects it, and left as it was otherwise. */
  lemma ShownOnHit(elems: map<ElemId, Element>, batch: seq<Entry>, x: ElemId)
    requires x in elems
    ensures Run(elems, batch, ShowAnimated)[x] == if x in HitSet(batch) then ShowAnimated(elems[x]) else elems[x]
  {
    RunIdempotent(elems, batch, ShowAnimated, x);
  }

  // ---------------------------------------------------------------------------
  // Form enhancement
  // ---------------------------------------------------------------------------

  /** Inputs other than checkboxes and radios get a 16px font, which keeps iOS from zooming. */
  predicate GetsLargeFont(e: Element)
  {
    TypeOf(e) != "checkbox" && TypeOf(e) != "radio"
  }

  /** One input after the set-up loop. */
  function Enhanced(e: Element): (r: Element)
    ensures r.classes == (if e.value != "" then e.classes + {"has-value"} else e.classes)
    ensures r.style == (if GetsLargeFont(e) then e.style["font-size" := "16px"] else e.style)
    ensures r.attrs == e.attrs && r.value == e.value
  {
    var e1 := if e.value != "" then AddClass(e, "has-value") else e;
    if TypeOf(e1) != "checkbox" && TypeOf(e1) != "radio" then SetStyle(e1, "font-size", "16px") else e1
  }

  /** The type keyword is read without regard to case: `<input type="CHECKBOX">` keeps its font. */
  lemma UpperCaseCheckboxKeepsFont()
    ensures !GetsLargeFont(InputOfType("CHECKBOX"))
  {
    TypeKeywordsIgnoreCase();
  }

  /** FormEnhancement for the inputs of the page's forms; `parentOf` maps an input to its parent element. */
  class FormEnhancement {
    const page: Page
    const parentOf: map<ElemId, ElemId>

    constructor (page: Page, parentOf: map<ElemId, ElemId>)
      ensures this.page == page && this.parentOf == parentOf
    {
      this.page := page;
      this.parentOf := parentOf;
    }

    /** The set-up loop: a non-empty value marks `has-value`, and the font size is fixed. */
    method Init(inputs: seq<ElemId>)
      requires Distinct(inputs)
      modifies page`elems
      ensures page.elems.Keys == old(page.elems).Keys
      ensures forall x :: x in old(page.elems) && x !in inputs ==> page.elems[x] == old(page.elems)[x]
      ensures forall x :: x in old(page.elems) && x in inputs ==>
        var e, e' := old(page.elems)[x], page.elems[x];
        e'.classes == (if e.value != "" then e.classes + {"has-value"} else e.classes) &&
        e'.style == (if GetsLargeFont(e) then e.style["font-size" := "16px"] else e.style) &&
        e'.attrs == e.attrs && e'.value == e.value
    {
      UpdateEach(page, inputs, (x: ElemId, e: Element) => Enhanced(e));
    }

    method OnFocus(id: ElemId)
      modifies page`elems
      ensures page.elems == if id in parentOf && parentOf[id] in old(page.elems)
        then old(page.elems)[parentOf[id] := AddClass(old(page.elems)[parentOf[id]], "focused")]
        else old(page.elems)
    {
      if id in parentOf && parentOf[id] in page.elems {
        var p := parentOf[id];
        page.elems := page.elems[p := AddClass(page.elems[p], "focused")];
      }
    }

    /** The blur listener: the parent loses `focused`, and the input has `has-value` exactly when its
        untrimmed value is non-empty. */
    method OnBlur(id: ElemId)
      requires id in page.elems
      modifies page`elems
      ensures page.elems.Keys == old(page.elems).Keys
      ensures ("has-value" in page.elems[id].classes <==> old(page.elems)[id].value != "")
      ensures id in parentOf && parentOf[id] != id && parentOf[id] in old(page.elems) ==>
        "focused" !in page.elems[parentOf[id]].classes
      ensures forall x :: x in old(page.elems) && x != id && (id !in parentOf || x != parentOf[id]) ==>
        page.elems[x] == old(page.elems)[x]
      ensures page.elems[id].value == old(page.elems)[id].value
      ensures var e := old(page.elems)[id];
        var e' := if id in parentOf && parentOf[id] == id then RemoveClass(e, "focused") else e;
        page.elems[id] == if e.value != "" then AddClass(e', "has-value") else RemoveClass(e', "has-value")
      ensures id in parentOf && parentOf[id] != id && parentOf[id] in old(page.elems) ==>
        page.elems[parentOf[id]] == RemoveClass(old(page.elems)[parentOf[id]], "focused")
    {
      if id in parentOf && parentOf[id] in page.elems {
        var p := parentOf[id];
        page.elems := page.elems[p := RemoveClass(page.elems[p], "focused")];
      }
      var input := page.elems[id];
      if input.value != "" {
        page.elems := page.elems[id := AddClass(input, "has-value")];
      } else {
        page.elems := page.elems[id := RemoveClass(input, "has-value")];
      }
    }
  }

  // ---------------------------------------------------------------------------
  // Active nav link
  // ---------------------------------------------------------------------------

  /** `s.split('/').pop()`: what follows the last '/', or all of `s` when it has none. */
  function LastSegment(s: string): (r: string)
    ensures |r| <= |s| && r == s[|s| - |r|..]
    ensures forall k :: 0 <= k < |r| ==> r[k] != '/'
    ensures |r| < |s| ==> s[|s| - |r| - 1] == '/'
  {
    if s == [] then []
    else if s[|s| - 1] == '/' then []
    else LastSegment(s[..|s| - 1]) + [s[|s| - 1]]
  }

  /** The segment after the last '/' of `s` is the one `split('/').pop()` returns. */
  lemma LastSegmentAfterLastSlash(s: string, k: nat)
    requires k < |s| && s[k] == '/' && forall j :: k < j < |s| ==> s[j] != '/'
    ensures LastSegment(s) == s[k + 1..]
  {
  }

  /** Without a '/', the whole string is the last segment. */
  lemma LastSegmentWithoutSlash(s: string)
    requires forall j :: 0 <= j < |s| ==> s[j] != '/'
    ensures LastSegment(s) == s
  {
  }

  /** The current page's file name; an empty last segment ("/" or "dir/") means index.html. */
  function CurrentFile(pathname: string): (r: string)
    ensures r != ""
    ensures r == if LastSegment(pathname) == "" then "index.html" else LastSegment(pathname)
  {
    var f := LastSegment(pathname);
    if f != "" then f else "index.html"
  }

  /** The highlight condition as written, with both disjuncts. */
  predicate LinkIsActive(href: string, pathname: string)
  {
    var linkPath, currentFile := LastSegment(href), CurrentFile(pathname);
    linkPath == currentFile || (linkPath == "index.html" && (currentFile == "" || currentFile == "index.html"))
  }

  /** The second disjunct adds nothing: a link is active exactly when its last segment equals the
      current file (`currentFile === ''` is never true, and the index.html case is the first one). */
  lemma ActiveIffSameFile(href: string, pathname: string)
    ensures LinkIsActive(href, pathname) <==> LastSegment(href) == CurrentFile(pathname)
  {
  }

  /** One `.nav-link` after the highlight check: a link whose href names the current file gains
      `active`; nothing loses it. */
  function Highlighted(link: Element, pathname: string): (r: Element)
    ensures HasTruthyAttr(link, "href") && LastSegment(link.attrs["href"]) == CurrentFile(pathname) ==> r == AddClass(link, "active")
    ensures !(HasTruthyAttr(link, "href") && LastSegment(link.attrs["href"]) == CurrentFile(pathname)) ==> r == link
    ensures link.classes <= r.classes
  {
    if HasTruthyAttr(link, "href") then
      var linkPath, currentFile := LastSegment(link.attrs["href"]), CurrentFile(pathname);
      ActiveIffSameFile(link.attrs["href"], pathname);
      if linkPath == currentFile || (linkPath == "index.html" && (currentFile == "" || currentFile == "index.html"))
      then AddClass(link, "active") else link
    else link
  }

  /** The highlight loop over the `.nav-link` elements. */
  method HighlightActiveLinks(page: Page, links: seq<ElemId>, pathname: string)
    requires Distinct(links)
    modifies page`elems
    ensures page.elems.Keys == old(page.elems).Keys
    ensures forall x :: x in old(page.elems) ==>
      page.elems[x] == if x in links then Highlighted(old(page.elems)[x], pathname) else old(page.elems)[x]
  {
    UpdateEach(page, links, (x: ElemId, link: Element) => Highlighted(link, pathname));
  }
}
