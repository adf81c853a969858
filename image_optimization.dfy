/**
 * Image optimisation (src/js/image-optimization.js): loading hints, `sizes` from `data-sizes`,
 * progressive low-to-high source swaps, the error fallback, aspect-ratio wrappers and the WebP
 * class on the document element. The WebP probe and `CSS.supports` are boolean inputs.
 */
module ImageOptimization {
  import opened Dom

  // ---------------------------------------------------------------------------
  // Native lazy loading
  // ---------------------------------------------------------------------------

  /** The hints addNativeLazyLoading gives one image without a `loading` attribute: an image
      below the fold loads lazily and decodes asynchronously, one above it is fetched first. */
  function LoadingHint(e: Element, aboveFold: bool): (r: Element)
    ensures r == e.(attrs := r.attrs)
    ensures r.attrs == if aboveFold then e.attrs["fetchpriority" := "high"]
                       else e.attrs["loading" := "lazy"]["decoding" := "async"]
  {
    if !aboveFold then SetAttr(SetAttr(e, "loading", "lazy"), "decoding", "async")
    else SetAttr(e, "fetchpriority", "high")
  }

  /** Exactly one branch is taken: an image is either lazy or high priority, never both, and a lazy
      image carries `loading`, so no later selection of `img:not([loading])` picks it again. */
  lemma LoadingHintExclusive(e: Element, aboveFold: bool)
    requires "loading" !in e.attrs && "fetchpriority" !in e.attrs
    ensures var r := LoadingHint(e, aboveFold);
      ("loading" in r.attrs && r.attrs["loading"] == "lazy" && r.attrs["decoding"] == "async") <==> !aboveFold
    ensures var r := LoadingHint(e, aboveFold);
      ("fetchpriority" in r.attrs && r.attrs["fetchpriority"] == "high") <==> aboveFold
  {
  }

  /** addNativeLazyLoading over the page's images. `top` is each image's bounding-box top and
      `innerHeight` the viewport height; an image is above the fold when its top is above the
      viewport's bottom edge. Images that already have `loading` are not selected. */
  method AddNativeLazyLoading(page: Page, images: seq<ElemId>, top: ElemId -> int, innerHeight: int)
    requires Distinct(images)
    modifies page`elems
    ensures page.elems.Keys == old(page.elems).Keys
    ensures forall x :: x in old(page.elems) ==>
      page.elems[x] == if x in images && "loading" !in old(page.elems)[x].attrs
                       then LoadingHint(old(page.elems)[x], top(x) < innerHeight)
                       else old(page.elems)[x]
  {
    UpdateEach(page, images, (x: ElemId, e: Element) => if "loading" in e.attrs then e else LoadingHint(e, top(x) < innerHeight));
  }

  // ---------------------------------------------------------------------------
  // Responsive images
  // ---------------------------------------------------------------------------

  /** enhanceResponsiveImages for one image: `sizes` is copied from a non-empty `data-sizes`. */
  function CopySizes(e: Element): (r: Element)
    ensures HasTruthyAttr(e, "data-sizes") ==> r.attrs == e.attrs["sizes" := e.attrs["data-sizes"]]
    ensures !HasTruthyAttr(e, "data-sizes") ==> r == e
    ensures r == e.(attrs := r.attrs)
  {
    if HasTruthyAttr(e, "data-sizes") then SetAttr(e, "sizes", e.attrs["data-sizes"]) else e
  }

  /** Copying twice is copying once, and `data-sizes` itself is kept. */
  lemma CopySizesIdempotent(e: Element)
    ensures CopySizes(CopySizes(e)) == CopySizes(e)
    ensures HasTruthyAttr(CopySizes(e), "data-sizes") <==> HasTruthyAttr(e, "data-sizes")
  {
    if HasTruthyAttr(e, "data-sizes") {
      assert CopySizes(e).attrs["data-sizes"] == e.attrs["data-sizes"];
      assert CopySizes(CopySizes(e)).attrs == CopySizes(e).attrs;
    }
  }

  method EnhanceResponsiveImages(page: Page, images: seq<ElemId>)
    requires Distinct(images)
    modifies page`elems
    ensures page.elems.Keys == old(page.elems).Keys
    ensures forall x :: x in old(page.elems) ==>
      page.elems[x] == if x in images then CopySizes(old(page.elems)[x]) else old(page.elems)[x]
  {
    UpdateEach(page, images, (x: ElemId, e: Element) => CopySizes(e));
  }

  // ---------------------------------------------------------------------------
  // Progressive images
  // ---------------------------------------------------------------------------

  /** The high-quality source, read before the low one overwrites `src`. */
  function HighSource(e: Element): string
  {
    AttrOr(e, "data-src", e.src)
  }

  /** The first step for an image with a non-empty `data-src-low`: show the low source. */
  function ProgressiveStart(e: Element): (r: Element)
    requires HasTruthyAttr(e, "data-src-low")
    ensures r.src == e.attrs["data-src-low"] && "loading-progressive" in r.classes
  {
    AddClass(e.(src := e.attrs["data-src-low"]), "loading-progressive")
  }

  /** The high-quality image has loaded. */
  function ProgressiveLoaded(e: Element, highSrc: string): (r: Element)
    ensures r.src == highSrc && "loaded-progressive" in r.classes && "loading-progressive" !in r.classes
  {
    AddClass(RemoveClass(e.(src := highSrc), "loading-progressive"), "loaded-progressive")
  }

  /** The swap ends on the source the image was meant to have: `data-src` when it is set, else the
      original `src`, even though `src` held the low source in between. Attributes are untouched. */
  lemma ProgressiveEndsOnHighSource(e: Element)
    requires HasTruthyAttr(e, "data-src-low") && "loading-progressive" !in e.classes
    ensures var f := ProgressiveLoaded(ProgressiveStart(e), HighSource(e));
      f.src == (if HasTruthyAttr(e, "data-src") then e.attrs["data-src"] else e.src) &&
      f.classes == e.classes + {"loaded-progressive"} && f.attrs == e.attrs && f.style == e.style
  {
    var f := ProgressiveLoaded(ProgressiveStart(e), HighSource(e));
    assert f.classes == e.classes + {"loaded-progressive"};
  }

  /** The images whose low source is shown by loadProgressiveImages. */
  predicate Starts(elems: map<ElemId, Element>, images: set<ElemId>, x: ElemId)
  {
    x in images && x in elems && HasTruthyAttr(elems[x], "data-src-low")
  }

  /** The page and the pending loads once the images in `done` have been handled, starting from
      `E0` and `L0`. */
  ghost predicate LoadedUpTo(E0: map<ElemId, Element>, L0: map<ElemId, string>, done: set<ElemId>,
                             E: map<ElemId, Element>, L: map<ElemId, string>)
  {
    && E.Keys == E0.Keys
    && (forall x :: x in E0 ==> E[x] == if Starts(E0, done, x) then ProgressiveStart(E0[x]) else E0[x])
    && (forall x :: x in L <==> x in L0 || Starts(E0, done, x))
    && (forall x :: x in L ==> L[x] == if Starts(E0, done, x) then HighSource(E0[x]) else L0[x])
  }

  /** Handling one more image, not handled before, extends the account by that image. */
  lemma LoadStep(E0: map<ElemId, Element>, L0: map<ElemId, string>, done: set<ElemId>,
                 E: map<ElemId, Element>, L: map<ElemId, string>, id: ElemId,
                 E2: map<ElemId, Element>, L2: map<ElemId, string>)
    requires LoadedUpTo(E0, L0, done, E, L) && id !in done
    requires if id in E && HasTruthyAttr(E[id], "data-src-low")
      then E2 == E[id := ProgressiveStart(E[id])] && L2 == L[id := HighSource(E[id])]
      else E2 == E && L2 == L
    ensures LoadedUpTo(E0, L0, done + {id}, E2, L2)
  {
    if id in E && HasTruthyAttr(E[id], "data-src-low") {
      LoadStarts(E0, L0, done, E, L, id);
    } else {
      LoadSkips(E0, L0, done, E, L, id);
    }
  }

  /** An image with a low source: it now shows that source and its high-quality load is pending. */
  lemma LoadStarts(E0: map<ElemId, Element>, L0: map<ElemId, string>, done: set<ElemId>,
                   E: map<ElemId, Element>, L: map<ElemId, string>, id: ElemId)
    requires LoadedUpTo(E0, L0, done, E, L) && id !in done
    requires id in E && HasTruthyAttr(E[id], "data-src-low")
    ensures LoadedUpTo(E0, L0, done + {id}, E[id := ProgressiveStart(E[id])], L[id := HighSource(E[id])])
  {
    assert E[id] == E0[id];
  }

  /** An image without a low source (or not on the page): nothing changes. */
  lemma LoadSkips(E0: map<ElemId, Element>, L0: map<ElemId, string>, done: set<ElemId>,
                  E: map<ElemId, Element>, L: map<ElemId, string>, id: ElemId)
    requires LoadedUpTo(E0, L0, done, E, L) && id !in done
    requires !(id in E && HasTruthyAttr(E[id], "data-src-low"))
    ensures LoadedUpTo(E0, L0, done + {id}, E, L)
  {
    assert !Starts(E0, done + {id}, id) by {
      if id in E0 { assert E[id] == E0[id]; }
    }
  }

  /** loadProgressiveImages with the high-quality loads it leaves pending: `pendingLoads` maps an
      image to the source its `highImg` is loading. */
  class ProgressiveImages {
    const page: Page
    var pendingLoads: map<ElemId, string>

    constructor (page: Page)
      ensures this.page == page && pendingLoads == map[]
    {
      this.page := page;
      pendingLoads := map[];
    }

    /** `images` are the page's `img[data-src-low]`. */
    method Load(images: seq<ElemId>)
      requires Distinct(images)
      modifies page`elems, this`pendingLoads
      ensures page.elems.Keys == old(page.elems).Keys
      ensures forall x :: x in old(page.elems) ==>
        page.elems[x] == if Starts(old(page.elems), Elements(images), x) then ProgressiveStart(old(page.elems)[x]) else old(page.elems)[x]
      ensures forall x :: x in pendingLoads <==> x in old(pendingLoads) || Starts(old(page.elems), Elements(images), x)
      ensures forall x :: x in pendingLoads ==>
        pendingLoads[x] == if Starts(old(page.elems), Elements(images), x) then HighSource(old(page.elems)[x]) else old(pendingLoads)[x]
    {
      ghost var (E0, L0) := (page.elems, pendingLoads);
      ghost var done: set<ElemId> := {};
      var elems, pending := page.elems, pendingLoads;
      var i := 0;
      while i < |images|
        invariant 0 <= i <= |images| && done == Elements(images[..i])
        invariant LoadedUpTo(E0, L0, done, elems, pending)
      {
        var id := images[i];
        NextUnseen(images, i);
        ghost var (E, L) := (elems, pending);
        if id in elems {
          var img := elems[id];
          var highSrc := AttrOr(img, "data-src", img.src);
          if HasTruthyAttr(img, "data-src-low") {
            elems := elems[id := AddClass(img.(src := img.attrs["data-src-low"]), "loading-progressive")];
            pending := pending[id := highSrc];
          }
        }
        LoadStep(E0, L0, done, E, L, id, elems, pending);
        done := done + {id};
        i := i + 1;
      }
      assert images[..|images|] == images;
      page.elems, pendingLoads := elems, pending;
    }

    /** `highImg.onload` for a pending image. */
    method OnHighLoaded(id: ElemId)
      requires id in pendingLoads
      modifies page`elems, this`pendingLoads
      ensures pendingLoads == old(pendingLoads) - {id}
      ensures page.elems == if id in old(page.elems)
        then old(page.elems)[id := ProgressiveLoaded(old(page.elems)[id], old(pendingLoads)[id])]
        else old(page.elems)
    {
      var highSrc := pendingLoads[id];
      if id in page.elems {
        var img := page.elems[id];
        page.elems := page.elems[id := AddClass(RemoveClass(img.(src := highSrc), "loading-progressive"), "loaded-progressive")];
      }
      pendingLoads := pendingLoads - {id};
    }
  }

  // ---------------------------------------------------------------------------
  // Error fallback
  // ---------------------------------------------------------------------------

  const PlaceholderBackground := "linear-gradient(135deg, #f3f4f6 0%, #e5e7eb 100%)"
  const PlaceholderMinHeight := "200px"
  const PlaceholderAlt := "Bild konnte nicht geladen werden"

  /** The error listener every image gets. The first error marks the image with `image-error`; it
      then switches to a non-empty `data-fallback` that differs from the current source, or else
      shows a placeholder and an alternative text when the image has none. `src` reads back the
      resolved URL: `resolve` is the document's resolution of a URL against its base, and the
      comparison is with the attribute text as written. */
  function HandleError(e: Element, resolve: string -> string): (r: Element)
    ensures "image-error" in e.classes ==> r == e
    ensures "image-error" in r.classes
    ensures "image-error" !in e.classes ==> r.classes == e.classes + {"image-error"}
  {
    if "image-error" in e.classes then e
    else
      var marked := AddClass(e, "image-error");
      if HasTruthyAttr(e, "data-fallback") && e.src != e.attrs["data-fallback"] then
        marked.(src := resolve(e.attrs["data-fallback"]))
      else
        SetAttr(SetStyle(SetStyle(marked, "background", PlaceholderBackground), "min-height", PlaceholderMinHeight),
                "alt", AttrOr(e, "alt", PlaceholderAlt))
  }

  /** Every later error is ignored: the fallback is attempted at most once, even when the
      fallback source fails too. */
  lemma HandleErrorAtMostOnce(e: Element, resolve: string -> string)
    ensures HandleError(HandleError(e, resolve), resolve) == HandleError(e, resolve)
  {
  }

  /** On the first error exactly one remedy applies: the source becomes the fallback and nothing
      else changes but the class, or the source stays and the placeholder is shown, with the
      alternative text replaced only when it was empty. */
  lemma FirstErrorRemedy(e: Element, resolve: string -> string)
    requires "image-error" !in e.classes
    ensures var r := HandleError(e, resolve);
      if HasTruthyAttr(e, "data-fallback") && e.src != e.attrs["data-fallback"] then
        r == e.(classes := r.classes, src := resolve(e.attrs["data-fallback"]))
      else
        r.src == e.src && r.style["background"] == PlaceholderBackground && r.style["min-height"] == PlaceholderMinHeight &&
        r.attrs["alt"] == (if HasTruthyAttr(e, "alt") then e.attrs["alt"] else PlaceholderAlt)
  {
  }

  /** A relative `data-fallback` never equals the resolved `src`, so an image whose current source
      already is that fallback gets it assigned once more, and the placeholder is not shown: the
      image only gains the mark. */
  lemma RelativeFallbackIsReassigned(e: Element, resolve: string -> string)
    requires "image-error" !in e.classes && HasTruthyAttr(e, "data-fallback")
    requires resolve(e.attrs["data-fallback"]) != e.attrs["data-fallback"]
    requires e.src == resolve(e.attrs["data-fallback"])
    ensures HandleError(e, resolve) == AddClass(e, "image-error")
  {
  }

  /** The listener, as it runs on the page. */
  method OnImageError(page: Page, id: ElemId, resolve: string -> string)
    requires id in page.elems
    modifies page`elems
    ensures page.elems == old(page.elems)[id := HandleError(old(page.elems)[id], resolve)]
  {
    var img := page.elems[id];
    if "image-error" !in img.classes {
      img := AddClass(img, "image-error");
      if HasTruthyAttr(img, "data-fallback") && img.src != img.attrs["data-fallback"] {
        img := img.(src := resolve(img.attrs["data-fallback"]));
      } else {
        img := SetStyle(img, "background", PlaceholderBackground);
        img := SetStyle(img, "min-height", PlaceholderMinHeight);
        img := SetAttr(img, "alt", AttrOr(img, "alt", PlaceholderAlt));
      }
      page.elems := page.elems[id := img];
    }
  }

  // ---------------------------------------------------------------------------
  // Aspect ratios
  // ---------------------------------------------------------------------------

  /** An image that preserveAspectRatios handles: non-empty `width` and `height`. */
  predicate Dimensioned(e: Element)
  {
    HasTruthyAttr(e, "width") && HasTruthyAttr(e, "height")
  }

  /** The image's own styles: its `aspect-ratio`, and when it is moved into a wrapper, the
      absolute positioning that fills the wrapper. */
  function AspectStyled(e: Element, wrapped: bool): (r: Element)
    requires Dimensioned(e)
    ensures r == e.(style := r.style)
    ensures r.classes == e.classes && r.attrs == e.attrs
    ensures "aspect-ratio" in r.style && r.style["aspect-ratio"] == e.attrs["width"] + " / " + e.attrs["height"]
  {
    var sized := SetStyle(e, "aspect-ratio", e.attrs["width"] + " / " + e.attrs["height"]);
    if !wrapped then sized
    else
      var s := SetStyle(SetStyle(SetStyle(sized, "position", "absolute"), "top", "0"), "left", "0");
      SetStyle(SetStyle(SetStyle(s, "width", "100%"), "height", "100%"), "object-fit", "cover")
  }

  /** The wrapper created for an image when the browser lacks `aspect-ratio`. */
  const Wrapper: Element := Element("DIV", {"img-wrapper"}, map[], map["position" := "relative", "overflow" := "hidden"], "", "", "", "")

  /** What preserveAspectRatios does to one image `id` of a tree (elements `E`, parents `P`, next
      free id `N`), giving `E2`, `P2`, `N2`: a dimensioned image gets its aspect ratio; when the
      browser lacks `aspect-ratio` and the parent is not an `img-wrapper`, a new wrapper takes the
      image's place under the parent and the image moves into it. */
  ghost predicate HandledImage(E: map<ElemId, Element>, P: map<ElemId, ElemId>, N: ElemId, id: ElemId, supported: bool,
                               E2: map<ElemId, Element>, P2: map<ElemId, ElemId>, N2: ElemId)
  {
    id in E && id in P && P[id] in E &&
    var e := E[id];
    var wrap := Dimensioned(e) && !supported && "img-wrapper" !in E[P[id]].classes;
    E2 == (if !Dimensioned(e) then E
           else if wrap then E[id := AspectStyled(e, true)][N := Wrapper]
           else E[id := AspectStyled(e, false)]) &&
    P2 == (if wrap then P[N := P[id]][id := N] else P) &&
    N2 == if wrap then N + 1 else N
  }

  /** Every id in use is below `N`, so `N` is free. */
  ghost predicate FreshFrom(E: map<ElemId, Element>, P: map<ElemId, ElemId>, N: ElemId)
  {
    (forall k :: k in E ==> k < N) && (forall k :: k in P ==> k < N)
  }

  /** No element and no parent link is removed, and no element's classes change. */
  ghost predicate Kept(E0: map<ElemId, Element>, P0: map<ElemId, ElemId>, E: map<ElemId, Element>, P: map<ElemId, ElemId>)
  {
    E0.Keys <= E.Keys && P0.Keys <= P.Keys && forall x :: x in E0 ==> E[x].classes == E0[x].classes
  }

  /** Elements and parent links outside `done` are as they were. */
  ghost predicate Untouched(E0: map<ElemId, Element>, P0: map<ElemId, ElemId>, done: set<ElemId>,
                            E: map<ElemId, Element>, P: map<ElemId, ElemId>)
  {
    (forall x :: x in E0 && x !in done ==> x in E && E[x] == E0[x]) &&
    (forall x :: x in P0 && x !in done ==> x in P && P[x] == P0[x])
  }

  /** The only elements created are wrappers. */
  ghost predicate OnlyWrappersAdded(E0: map<ElemId, Element>, E: map<ElemId, Element>)
  {
    forall k :: k in E && k !in E0 ==> E[k] == Wrapper
  }

  /** An image of the original tree needs a wrapper: it is dimensioned, the browser lacks
      `aspect-ratio` and its parent is not an `img-wrapper`. */
  ghost predicate NeedsWrapper(E0: map<ElemId, Element>, P0: map<ElemId, ElemId>, x: ElemId, supported: bool)
  {
    x in E0 && x in P0 && P0[x] in E0 && Dimensioned(E0[x]) && !supported && "img-wrapper" !in E0[P0[x]].classes
  }

  /** Each image in `done` still has a parent in the tree. */
  ghost predicate Parented(E0: map<ElemId, Element>, done: set<ElemId>, E: map<ElemId, Element>, P: map<ElemId, ElemId>)
  {
    forall x :: x in done ==> x in E0 && x in P && P[x] in E
  }

  /** Each dimensioned image in `done` sits in an `img-wrapper` when the browser lacks `aspect-ratio`. */
  ghost predicate InWrapper(E0: map<ElemId, Element>, done: set<ElemId>, supported: bool, E: map<ElemId, Element>, P: map<ElemId, ElemId>)
  {
    forall x :: x in done && x in E0 && Dimensioned(E0[x]) && !supported ==> x in P && P[x] in E && "img-wrapper" in E[P[x]].classes
  }

  /** An image in `done` has a new parent exactly when it needed a wrapper. */
  ghost predicate Reparented(E0: map<ElemId, Element>, P0: map<ElemId, ElemId>, done: set<ElemId>, supported: bool, P: map<ElemId, ElemId>)
  {
    forall x :: x in done && x in P0 ==> x in P && (P[x] != P0[x] <==> NeedsWrapper(E0, P0, x, supported))
  }

  /** Each image in `done` carries its aspect ratio, and the styles that fill a wrapper exactly
      when it needed one; an image without both dimensions is as it was. */
  ghost predicate StyledImages(E0: map<ElemId, Element>, P0: map<ElemId, ElemId>, done: set<ElemId>, supported: bool,
                               E: map<ElemId, Element>)
  {
    forall x :: x in done && x in E0 ==>
      x in E && E[x] == if Dimensioned(E0[x]) then AspectStyled(E0[x], NeedsWrapper(E0, P0, x, supported)) else E0[x]
  }

  /** An image in `done` that needed a wrapper has as its parent a new `img-wrapper` element,
      which sits under the image's old parent. */
  ghost predicate WrappedUnderParent(E0: map<ElemId, Element>, P0: map<ElemId, ElemId>, done: set<ElemId>, supported: bool,
                                     E: map<ElemId, Element>, P: map<ElemId, ElemId>)
  {
    forall x :: x in done && NeedsWrapper(E0, P0, x, supported) ==>
      x in P && P[x] !in E0 && P[x] in E && E[P[x]] == Wrapper && P[x] in P && P[P[x]] == P0[x]
  }

  /** No two images of `done` share a wrapper. */
  ghost predicate OwnWrappers(E0: map<ElemId, Element>, P0: map<ElemId, ElemId>, done: set<ElemId>, supported: bool,
                              P: map<ElemId, ElemId>)
  {
    forall x, y :: x in done && y in done && x != y && NeedsWrapper(E0, P0, x, supported) && NeedsWrapper(E0, P0, y, supported) ==>
      x in P && y in P && P[x] != P[y]
  }

  lemma HandledFresh(E: map<ElemId, Element>, P: map<ElemId, ElemId>, N: ElemId, id: ElemId, supported: bool,
                     E2: map<ElemId, Element>, P2: map<ElemId, ElemId>, N2: ElemId)
    requires FreshFrom(E, P, N)
    requires HandledImage(E, P, N, id, supported, E2, P2, N2)
    ensures FreshFrom(E2, P2, N2)
  {
  }

  lemma HandledKept(E0: map<ElemId, Element>, P0: map<ElemId, ElemId>, E: map<ElemId, Element>, P: map<ElemId, ElemId>, N: ElemId,
                    id: ElemId, supported: bool, E2: map<ElemId, Element>, P2: map<ElemId, ElemId>, N2: ElemId)
    requires FreshFrom(E, P, N) && Kept(E0, P0, E, P)
    requires HandledImage(E, P, N, id, supported, E2, P2, N2)
    ensures Kept(E0, P0, E2, P2)
  {
  }

  lemma HandledUntouched(E0: map<ElemId, Element>, P0: map<ElemId, ElemId>, done: set<ElemId>,
                         E: map<ElemId, Element>, P: map<ElemId, ElemId>, N: ElemId,
                         id: ElemId, supported: bool, E2: map<ElemId, Element>, P2: map<ElemId, ElemId>, N2: ElemId)
    requires FreshFrom(E, P, N) && Untouched(E0, P0, done, E, P)
    requires HandledImage(E, P, N, id, supported, E2, P2, N2)
    ensures Untouched(E0, P0, done + {id}, E2, P2)
  {
  }

  lemma HandledOnlyWrappers(E0: map<ElemId, Element>, E: map<ElemId, Element>, P: map<ElemId, ElemId>, N: ElemId,
                            id: ElemId, supported: bool, E2: map<ElemId, Element>, P2: map<ElemId, ElemId>, N2: ElemId)
    requires E0.Keys <= E.Keys && OnlyWrappersAdded(E0, E)
    requires HandledImage(E, P, N, id, supported, E2, P2, N2)
    ensures OnlyWrappersAdded(E0, E2)
  {
  }

  lemma HandledParented(E0: map<ElemId, Element>, P0: map<ElemId, ElemId>, done: set<ElemId>,
                       E: map<ElemId, Element>, P: map<ElemId, ElemId>, N: ElemId,
                       id: ElemId, supported: bool, E2: map<ElemId, Element>, P2: map<ElemId, ElemId>, N2: ElemId)
    requires id !in done && id in E0 && id in P0 && P0[id] in E0
    requires FreshFrom(E, P, N) && Kept(E0, P0, E, P) && Untouched(E0, P0, done, E, P)
    requires HandledImage(E, P, N, id, supported, E2, P2, N2)
    requires Parented(E0, done, E, P)
    ensures Parented(E0, done + {id}, E2, P2)
  {
  }

  lemma HandledInWrapper(E0: map<ElemId, Element>, P0: map<ElemId, ElemId>, done: set<ElemId>,
                       E: map<ElemId, Element>, P: map<ElemId, ElemId>, N: ElemId,
                       id: ElemId, supported: bool, E2: map<ElemId, Element>, P2: map<ElemId, ElemId>, N2: ElemId)
    requires id !in done && id in E0 && id in P0 && P0[id] in E0
    requires FreshFrom(E, P, N) && Kept(E0, P0, E, P) && Untouched(E0, P0, done, E, P)
    requires HandledImage(E, P, N, id, supported, E2, P2, N2)
    requires InWrapper(E0, done, supported, E, P)
    ensures InWrapper(E0, done + {id}, supported, E2, P2)
  {
    assert E[id] == E0[id] && P[id] == P0[id];
    forall x | x in done && x in E0 && Dimensioned(E0[x]) && !supported
      ensures x in P2 && P2[x] in E2 && "img-wrapper" in E2[P2[x]].classes
    {
      assert P2[x] == P[x];
    }
  }

  lemma HandledReparented(E0: map<ElemId, Element>, P0: map<ElemId, ElemId>, done: set<ElemId>,
                       E: map<ElemId, Element>, P: map<ElemId, ElemId>, N: ElemId,
                       id: ElemId, supported: bool, E2: map<ElemId, Element>, P2: map<ElemId, ElemId>, N2: ElemId)
    requires id !in done && id in E0 && id in P0 && P0[id] in E0
    requires FreshFrom(E, P, N) && Kept(E0, P0, E, P) && Untouched(E0, P0, done, E, P)
    requires HandledImage(E, P, N, id, supported, E2, P2, N2)
    requires Reparented(E0, P0, done, supported, P)
    ensures Reparented(E0, P0, done + {id}, supported, P2)
  {
    assert E[id] == E0[id] && P[id] == P0[id];
  }

  /** One image's step, told in terms of the original tree: whether a wrapper is made is
      NeedsWrapper, and the image's element is the original one restyled. */
  ghost predicate StepShape(E0: map<ElemId, Element>, P0: map<ElemId, ElemId>, E: map<ElemId, Element>, P: map<ElemId, ElemId>,
                            N: ElemId, id: ElemId, supported: bool, E2: map<ElemId, Element>, P2: map<ElemId, ElemId>)
  {
    id in E0 && id in P0 && id in E && E[id] == E0[id] && E0.Keys <= E.Keys &&
    var w := NeedsWrapper(E0, P0, id, supported);
    E2 == (if !Dimensioned(E0[id]) then E
           else if w then E[id := AspectStyled(E0[id], true)][N := Wrapper]
           else E[id := AspectStyled(E0[id], false)]) &&
    P2 == if w then P[N := P0[id]][id := N] else P
  }

  lemma HandledShape(E0: map<ElemId, Element>, P0: map<ElemId, ElemId>, done: set<ElemId>,
                     E: map<ElemId, Element>, P: map<ElemId, ElemId>, N: ElemId,
                     id: ElemId, supported: bool, E2: map<ElemId, Element>, P2: map<ElemId, ElemId>, N2: ElemId)
    requires id !in done && id in E0 && id in P0 && P0[id] in E0
    requires Kept(E0, P0, E, P) && Untouched(E0, P0, done, E, P)
    requires HandledImage(E, P, N, id, supported, E2, P2, N2)
    ensures StepShape(E0, P0, E, P, N, id, supported, E2, P2)
  {
    assert E[id] == E0[id] && P[id] == P0[id];
    assert E[P[id]].classes == E0[P0[id]].classes;
  }

  lemma HandledStyled(E0: map<ElemId, Element>, P0: map<ElemId, ElemId>, done: set<ElemId>,
                      E: map<ElemId, Element>, P: map<ElemId, ElemId>, N: ElemId,
                      id: ElemId, supported: bool, E2: map<ElemId, Element>, P2: map<ElemId, ElemId>)
    requires id !in done && FreshFrom(E, P, N)
    requires StepShape(E0, P0, E, P, N, id, supported, E2, P2)
    requires StyledImages(E0, P0, done, supported, E)
    ensures StyledImages(E0, P0, done + {id}, supported, E2)
  {
  }

  lemma HandledWrapped(E0: map<ElemId, Element>, P0: map<ElemId, ElemId>, done: set<ElemId>,
                       E: map<ElemId, Element>, P: map<ElemId, ElemId>, N: ElemId,
                       id: ElemId, supported: bool, E2: map<ElemId, Element>, P2: map<ElemId, ElemId>)
    requires id !in done && FreshFrom(E, P, N)
    requires StepShape(E0, P0, E, P, N, id, supported, E2, P2)
    requires WrappedUnderParent(E0, P0, done, supported, E, P)
    ensures WrappedUnderParent(E0, P0, done + {id}, supported, E2, P2)
  {
    forall x | x in done + {id} && NeedsWrapper(E0, P0, x, supported)
      ensures x in P2 && P2[x] !in E0 && P2[x] in E2 && E2[P2[x]] == Wrapper && P2[x] in P2 && P2[P2[x]] == P0[x]
    {
      if x == id {
        assert id < N && P2[id] == N && N !in E0;
        assert E2[N] == Wrapper && P2[N] == P0[id];
      } else {
        assert P[x] in E && P[x] != id && P[x] < N;
        assert P2[x] == P[x] && E2[P[x]] == E[P[x]] && P2[P[x]] == P[P[x]];
      }
    }
  }

  lemma HandledOwnWrappers(E0: map<ElemId, Element>, P0: map<ElemId, ElemId>, done: set<ElemId>,
                           E: map<ElemId, Element>, P: map<ElemId, ElemId>, N: ElemId,
                           id: ElemId, supported: bool, E2: map<ElemId, Element>, P2: map<ElemId, ElemId>)
    requires id !in done && FreshFrom(E, P, N)
    requires StepShape(E0, P0, E, P, N, id, supported, E2, P2)
    requires Parented(E0, done, E, P) && OwnWrappers(E0, P0, done, supported, P)
    ensures OwnWrappers(E0, P0, done + {id}, supported, P2)
  {
    forall x, y | x in done + {id} && y in done + {id} && x != y &&
                  NeedsWrapper(E0, P0, x, supported) && NeedsWrapper(E0, P0, y, supported)
      ensures x in P2 && y in P2 && P2[x] != P2[y]
    {
      if x == id {
        assert P2[x] == N && P2[y] == P[y] && P[y] < N;
      } else if y == id {
        assert P2[y] == N && P2[x] == P[x] && P[x] < N;
      } else {
        assert P2[x] == P[x] && P2[y] == P[y];
      }
    }
  }

  /** The loop body of preserveAspectRatios for one image, on the tree as values. */
  function HandleImage(E: map<ElemId, Element>, P: map<ElemId, ElemId>, N: ElemId, id: ElemId, supported: bool)
    : (r: (map<ElemId, Element>, map<ElemId, ElemId>, ElemId))
    requires id in E && id in P && P[id] in E
    ensures HandledImage(E, P, N, id, supported, r.0, r.1, r.2)
  {
    var img := E[id];
    if !Dimensioned(img) then (E, P, N)
    else
      var wrapper := P[id];
      if !supported && "img-wrapper" !in E[wrapper].classes then
        var div := N;
        (E[id := AspectStyled(img, true)][div := Wrapper], P[div := wrapper][id := div], N + 1)
      else (E[id := AspectStyled(img, false)], P, N)
  }

  /** The account of the images in `done`, a subset of `images`, handled so far. */
  ghost predicate PreservedUpTo(E0: map<ElemId, Element>, P0: map<ElemId, ElemId>, images: set<ElemId>, done: set<ElemId>,
                                supported: bool, E: map<ElemId, Element>, P: map<ElemId, ElemId>, N: ElemId)
  {
    done <= images && (forall x :: x in images ==> x in E0 && x in P0 && P0[x] in E0) &&
    FreshFrom(E, P, N) && Kept(E0, P0, E, P) && Untouched(E0, P0, done, E, P) && OnlyWrappersAdded(E0, E) &&
    Parented(E0, done, E, P) && InWrapper(E0, done, supported, E, P) && Reparented(E0, P0, done, supported, P) &&
    StyledImages(E0, P0, done, supported, E) && WrappedUnderParent(E0, P0, done, supported, E, P) &&
    OwnWrappers(E0, P0, done, supported, P)
  }

  /** Handling one more image keeps the account. */
  lemma PreservedStep(E0: map<ElemId, Element>, P0: map<ElemId, ElemId>, images: set<ElemId>, done: set<ElemId>,
                      E: map<ElemId, Element>, P: map<ElemId, ElemId>, N: ElemId,
                      id: ElemId, supported: bool, E2: map<ElemId, Element>, P2: map<ElemId, ElemId>, N2: ElemId)
    requires id in images && id !in done
    requires PreservedUpTo(E0, P0, images, done, supported, E, P, N)
    requires HandledImage(E, P, N, id, supported, E2, P2, N2)
    ensures PreservedUpTo(E0, P0, images, done + {id}, supported, E2, P2, N2)
  {
    HandledFresh(E, P, N, id, supported, E2, P2, N2);
    HandledKept(E0, P0, E, P, N, id, supported, E2, P2, N2);
    HandledUntouched(E0, P0, done, E, P, N, id, supported, E2, P2, N2);
    HandledOnlyWrappers(E0, E, P, N, id, supported, E2, P2, N2);
    HandledParented(E0, P0, done, E, P, N, id, supported, E2, P2, N2);
    HandledInWrapper(E0, P0, done, E, P, N, id, supported, E2, P2, N2);
    HandledReparented(E0, P0, done, E, P, N, id, supported, E2, P2, N2);
    HandledShape(E0, P0, done, E, P, N, id, supported, E2, P2, N2);
    HandledStyled(E0, P0, done, E, P, N, id, supported, E2, P2);
    HandledWrapped(E0, P0, done, E, P, N, id, supported, E2, P2);
    HandledOwnWrappers(E0, P0, done, E, P, N, id, supported, E2, P2);
  }

  /** preserveAspectRatios over the page. The tree is `parentOf` (an element's parentElement);
      created wrappers take fresh ids from `nextId`. */
  class AspectRatios {
    const page: Page
    var parentOf: map<ElemId, ElemId>
    var nextId: ElemId

    predicate Valid()
      reads this, page
    {
      (forall k :: k in page.elems ==> k < nextId) && (forall k :: k in parentOf ==> k < nextId)
    }

    constructor (page: Page, parentOf: map<ElemId, ElemId>, nextId: ElemId)
      requires forall k :: k in page.elems ==> k < nextId
      requires forall k :: k in parentOf ==> k < nextId
      ensures this.page == page && this.parentOf == parentOf && this.nextId == nextId && Valid()
    {
      this.page := page;
      this.parentOf := parentOf;
      this.nextId := nextId;
    }

    /** `images` are the page's `img[width][height]`, each with a parent. Afterwards, when the
        browser lacks `aspect-ratio`, every handled image sits in an `img-wrapper`, so running
        again wraps nothing; a wrapper is created only for an image whose parent was not one. */
    method Preserve(images: seq<ElemId>, aspectRatioSupported: bool)
      requires Valid() && Distinct(images)
      requires forall x :: x in images ==> x in page.elems && x in parentOf && parentOf[x] in page.elems
      modifies page`elems, this`parentOf, this`nextId
      ensures Valid() && Kept(old(page.elems), old(parentOf), page.elems, parentOf)
      ensures Untouched(old(page.elems), old(parentOf), Elements(images), page.elems, parentOf)
      ensures OnlyWrappersAdded(old(page.elems), page.elems)
      ensures Parented(old(page.elems), Elements(images), page.elems, parentOf)
      ensures InWrapper(old(page.elems), Elements(images), aspectRatioSupported, page.elems, parentOf)
      ensures Reparented(old(page.elems), old(parentOf), Elements(images), aspectRatioSupported, parentOf)
      ensures StyledImages(old(page.elems), old(parentOf), Elements(images), aspectRatioSupported, page.elems)
      ensures WrappedUnderParent(old(page.elems), old(parentOf), Elements(images), aspectRatioSupported, page.elems, parentOf)
      ensures OwnWrappers(old(page.elems), old(parentOf), Elements(images), aspectRatioSupported, parentOf)
    {
      var elems, parents, next := PreserveAll(page.elems, parentOf, nextId, images, aspectRatioSupported);
      page.elems, parentOf, nextId := elems, parents, next;
    }
  }

  /** The loop of preserveAspectRatios on the tree as values: elements `E0`, parents `P0`, and
      `N0` the first free id. */
  method PreserveAll(E0: map<ElemId, Element>, P0: map<ElemId, ElemId>, N0: ElemId, images: seq<ElemId>, supported: bool)
    returns (E: map<ElemId, Element>, P: map<ElemId, ElemId>, N: ElemId)
    requires Distinct(images) && FreshFrom(E0, P0, N0)
    requires forall x :: x in images ==> x in E0 && x in P0 && P0[x] in E0
    ensures PreservedUpTo(E0, P0, Elements(images), Elements(images), supported, E, P, N)
  {
    ghost var all := Elements(images);
    ghost var done: set<ElemId> := {};
    E, P, N := E0, P0, N0;
    var i := 0;
    while i < |images|
      invariant i <= |images| && done == Elements(images[..i])
      invariant PreservedUpTo(E0, P0, all, done, supported, E, P, N)
    {
      var id := images[i];
      NextUnseen(images, i);
      var (E', P', N') := HandleImage(E, P, N, id, supported);
      PreservedStep(E0, P0, all, done, E, P, N, id, supported, E', P', N');
      E, P, N := E', P', N';
      done := done + {id};
      i := i + 1;
    }
    assert images[..|images|] == images;
  }

  // ---------------------------------------------------------------------------
  // WebP class
  // ---------------------------------------------------------------------------

  /** init puts exactly one of `webp` and `no-webp` on a document element that had neither, and
      which one says whether the probe image decoded. */
  lemma FormatClassExclusive(root: Element, webpSupported: bool)
    requires "webp" !in root.classes && "no-webp" !in root.classes
    ensures var r := WithFormatClass(root, webpSupported);
      ("webp" in r.classes <==> webpSupported) && ("no-webp" in r.classes <==> !webpSupported)
  {
  }

  method MarkFormatSupport(page: Page, root: ElemId, webpSupported: bool)
    requires root in page.elems
    modifies page`elems
    ensures page.elems == old(page.elems)[root := WithFormatClass(old(page.elems)[root], webpSupported)]
  {
    if webpSupported {
      page.elems := page.elems[root := AddClass(page.elems[root], "webp")];
    } else {
      page.elems := page.elems[root := AddClass(page.elems[root], "no-webp")];
    }
  }
}
