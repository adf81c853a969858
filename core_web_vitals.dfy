/**
 * Core Web Vitals optimisations (src/js/core-web-vitals.js): hover and touch prefetching with its
 * de-duplication set, hero and lazy image handling, the debounce and animation-frame throttle
 * slots, the chunked work runner, the passive-listener options rewrite and the metric ratings.
 */
module CoreWebVitals {
  import opened Dom
  import opened Viewport

  // ---------------------------------------------------------------------------
  // Instant page: prefetch on hover and touch
  // ---------------------------------------------------------------------------

  /** The hrefs of the `<link rel="prefetch" as="document">` nodes of the head, in order. */
  function DocPrefetches(head: seq<HeadNode>): seq<string>
  {
    if head == [] then []
    else
      var last := head[|head| - 1];
      DocPrefetches(head[..|head| - 1]) + (if last.PrefetchLink? && last.asDocument then [last.href] else [])
  }

  /** Appending a node to the head appends its href when it is a document prefetch link. */
  lemma DocPrefetchesAppend(head: seq<HeadNode>, n: HeadNode)
    ensures DocPrefetches(head + [n]) == DocPrefetches(head) + (if n.PrefetchLink? && n.asDocument then [n.href] else [])
  {
    assert (head + [n])[..|head|] == head;
  }

  /** instantPage: the head keeps the nodes it had when the script started (`startHead`), links
      already there included, and only the set remembers what was prefetched. `prefetchedLinks` is
      exactly the set of URLs given a document prefetch link since then, and none of them was given
      two. `prefetchTimeout` is the pending hover timer, with the URL it will prefetch. */
  class InstantPage {
    const page: Page
    const origin: string
    const startHead: seq<HeadNode>
    var prefetchedLinks: set<string>
    var prefetchTimeout: Option<string>

    /** The head nodes added since the script started. */
    function Added(): seq<HeadNode>
      requires |startHead| <= |page.head|
      reads this, page
    {
      page.head[|startHead|..]
    }

    predicate Valid()
      reads this, page
    {
      |startHead| <= |page.head| && page.head[..|startHead|] == startHead &&
      prefetchedLinks == (set u | u in DocPrefetches(Added())) && Distinct(DocPrefetches(Added()))
    }

    constructor (page: Page, origin: string)
      ensures this.page == page && this.origin == origin && startHead == page.head
      ensures prefetchedLinks == {} && prefetchTimeout == None && Valid()
    {
      this.page := page;
      this.origin := origin;
      startHead := page.head;
      prefetchedLinks := {};
      prefetchTimeout := None;
      new;
      assert Added() == [];
    }

    /** prefetch(url): a link is added for a URL not seen before, and the URL is remembered. */
    method Prefetch(url: string)
      requires Valid()
      modifies page`head, this`prefetchedLinks
      ensures Valid()
      ensures prefetchedLinks == old(prefetchedLinks) + {url}
      ensures page.head == old(page.head) + if url in old(prefetchedLinks) then [] else [PrefetchLink(url, true)]
    {
      if url in prefetchedLinks {
        return;
      }
      var added := Added();
      DocPrefetchesAppend(added, PrefetchLink(url, true));
      page.head := page.head + [PrefetchLink(url, true)];
      assert page.head[..|startHead|] == old(page.head)[..|startHead|];
      assert Added() == added + [PrefetchLink(url, true)];
      prefetchedLinks := prefetchedLinks + {url};
    }

    /** mouseover with `anchor` the closest `<a>` of the target: a qualifying link replaces the
        pending hover timer with one for its URL. */
    method OnMouseOver(anchor: Option<ElemId>)
      requires anchor.Some? ==> anchor.value in page.elems
      modifies this`prefetchTimeout
      ensures prefetchTimeout ==
        if anchor.Some? && page.elems[anchor.value].href != "" && ShouldPrefetch(page.elems[anchor.value].href, origin)
        then Some(page.elems[anchor.value].href) else old(prefetchTimeout)
    {
      if anchor.None? || page.elems[anchor.value].href == "" {
        return;
      }
      var url := page.elems[anchor.value].href;
      if StartsWith(url, origin) && '#' !in url {
        prefetchTimeout := Some(url);
      }
    }

    /** The hover timer fires after 100 ms. */
    method OnHoverTimer()
      requires Valid() && prefetchTimeout.Some?
      modifies page`head, this`prefetchedLinks, this`prefetchTimeout
      ensures Valid() && prefetchTimeout == None
      ensures prefetchedLinks == old(prefetchedLinks) + {old(prefetchTimeout).value}
      ensures var url := old(prefetchTimeout).value;
        page.head == old(page.head) + if url in old(prefetchedLinks) then [] else [PrefetchLink(url, true)]
    {
      var url := prefetchTimeout.value;
      prefetchTimeout := None;
      Prefetch(url);
    }

    /** touchstart prefetches a qualifying link at once. */
    method OnTouchStart(anchor: Option<ElemId>)
      requires Valid() && (anchor.Some? ==> anchor.value in page.elems)
      modifies page`head, this`prefetchedLinks
      ensures Valid()
      ensures prefetchedLinks ==
        if anchor.Some? && page.elems[anchor.value].href != "" && ShouldPrefetch(page.elems[anchor.value].href, origin)
        then old(prefetchedLinks) + {page.elems[anchor.value].href} else old(prefetchedLinks)
      ensures page.head == old(page.head) +
        if anchor.Some? && page.elems[anchor.value].href != "" && ShouldPrefetch(page.elems[anchor.value].href, origin) &&
           page.elems[anchor.value].href !in old(prefetchedLinks)
        then [PrefetchLink(page.elems[anchor.value].href, true)] else []
    {
      if anchor.None? || page.elems[anchor.value].href == "" {
        return;
      }
      var url := page.elems[anchor.value].href;
      if StartsWith(url, origin) && '#' !in url {
        Prefetch(url);
      }
    }
  }

  // ---------------------------------------------------------------------------
  // Critical images
  // ---------------------------------------------------------------------------

  function Hero(e: Element): Element
  {
    SetAttr(SetAttr(e, "fetchpriority", "high"), "decoding", "sync")
  }

  /** optimizeImages: the hero images are prioritised; with native lazy loading nothing is observed,
      otherwise the lazy images are observed and loaded once on their first intersection. */
  class CriticalImages {
    const page: Page
    const native: bool
    const observer: IntersectionObserver

    constructor (page: Page, heroes: seq<ElemId>, lazyImages: seq<ElemId>, native: bool)
      requires Distinct(heroes) && Distinct(lazyImages)
      modifies page`elems
      ensures this.page == page && this.native == native && fresh(observer)
      ensures page.elems.Keys == old(page.elems).Keys
      ensures forall x :: x in old(page.elems) ==>
        page.elems[x] == if x in heroes then Hero(old(page.elems)[x]) else old(page.elems)[x]
      ensures observer.observed == if native then {} else Elements(lazyImages)
    {
      this.page := page;
      this.native := native;
      observer := new IntersectionObserver();
      new;
      var i := 0;
      while i < |heroes|
        invariant 0 <= i <= |heroes|
        invariant page.elems.Keys == old(page.elems).Keys
        invariant forall x :: x in old(page.elems) ==>
          page.elems[x] == if x in heroes[..i] then Hero(old(page.elems)[x]) else old(page.elems)[x]
        invariant observer.observed == {}
      {
        var id := heroes[i];
        assert id !in heroes[..i];
        if id in page.elems {
          var img := SetAttr(page.elems[id], "fetchpriority", "high");
          img := SetAttr(img, "decoding", "sync");
          page.elems := page.elems[id := img];
        }
        assert heroes[..i + 1] == heroes[..i] + [id];
        i := i + 1;
      }
      assert heroes[..|heroes|] == heroes;
      if native {
        return;
      }
      ghost var before := page.elems;
      ObserveEach(page, observer, lazyImages, e => e);
      assert forall x :: x in before ==> page.elems[x] == before[x];
    }

    method Deliver(batch: seq<Entry>)
      requires !native
      modifies page`elems, observer
      ensures page.elems == Run(old(page.elems), batch, MoveDataSrc)
      ensures observer.observed == old(observer.observed) - HitSet(batch)
    {
      DeliverOneShot(page, observer, batch, MoveDataSrc);
    }
  }

  // ---------------------------------------------------------------------------
  // debounce and rafThrottle: one pending slot each
  // ---------------------------------------------------------------------------

  /** The pending slot of `debounce` after a run of calls: each call replaces the pending timeout,
      so the last call's arguments are the ones that will run. */
  function Debounce<A>(pending: Option<A>, calls: seq<A>): (r: Option<A>)
    ensures r == if calls == [] then pending else Some(calls[|calls| - 1])
    decreases |calls|
  {
    if calls == [] then pending else Debounce(Some(calls[0]), calls[1..])
  }

  /** The pending slot of `rafThrottle` after a run of calls: a call made while a frame is pending is
      dropped, so the first call's arguments are the ones that will run. */
  function Throttle<A>(pending: Option<A>, calls: seq<A>): (r: Option<A>)
    ensures r == if pending.Some? || calls == [] then pending else Some(calls[0])
    decreases |calls|
  {
    if calls == [] then pending else Throttle(if pending.None? then Some(calls[0]) else pending, calls[1..])
  }

  /** A debounced function: `timeout` holds the arguments of the one pending call. */
  class Debounced<A> {
    var timeout: Option<A>

    constructor ()
      ensures timeout == None
    {
      timeout := None;
    }

    method Call(args: A)
      modifies this
      ensures timeout == Debounce(old(timeout), [args])
    {
      timeout := Some(args);
    }

    /** The pending timeout fires and the wrapped function runs with `args`. */
    method Fire() returns (args: A)
      requires timeout.Some?
      modifies this
      ensures args == old(timeout).value && timeout == None
    {
      args := timeout.value;
      timeout := None;
    }
  }

  /** A throttled function: `rafId` holds the arguments of the pending frame, and `frameBooked` says
      whether an animation frame is actually booked for them. */
  class RafThrottled<A> {
    var rafId: Option<A>
    var frameBooked: bool

    constructor ()
      ensures rafId == None && !frameBooked
    {
      rafId := None;
      frameBooked := false;
    }

    method Call(args: A)
      modifies this
      ensures rafId == Throttle(old(rafId), [args])
      ensures frameBooked == (old(frameBooked) || old(rafId).None?)
    {
      if rafId.None? {
        rafId := Some(args);
        frameBooked := true;
      }
    }

    /** The frame runs: the wrapped function is applied to `args`, and the slot is cleared after it
        returns. When the function throws (`funcThrows`) the clearing is never reached: the slot stays
        set with no frame booked, so every later call is dropped (Call leaves such a slot as it is). */
    method OnFrame(funcThrows: bool) returns (args: A)
      requires frameBooked && rafId.Some?
      modifies this
      ensures args == old(rafId).value && !frameBooked
      ensures rafId == if funcThrows then old(rafId) else None
    {
      args := rafId.value;
      frameBooked := false;
      if funcThrows {
        return;
      }
      rafId := None;
    }
  }

  /** Once a frame's function has thrown, no later call books a frame or changes the slot. */
  lemma ThrottleStuckAfterThrow<A>(stuck: A, calls: seq<A>)
    ensures Throttle(Some(stuck), calls) == Some(stuck)
  {
  }

  // ---------------------------------------------------------------------------
  // runInChunks
  // ---------------------------------------------------------------------------

  const ChunkSize := 10

  function Flatten<T>(chunks: seq<seq<T>>): seq<T>
  {
    if chunks == [] then [] else Flatten(chunks[..|chunks| - 1]) + chunks[|chunks| - 1]
  }

  lemma FlattenAppend<T>(chunks: seq<seq<T>>, c: seq<T>)
    ensures Flatten(chunks + [c]) == Flatten(chunks) + c
  {
    assert (chunks + [c])[..|chunks|] == chunks;
  }

  function Min(a: int, b: int): int { if a <= b then a else b }

  /** The partition into chunks: the chunks put back together are the items in order, every chunk
      holds ChunkSize items except the last, which holds 1 to ChunkSize. */
  method SplitChunks<T>(items: seq<T>) returns (chunks: seq<seq<T>>)
    ensures Flatten(chunks) == items
    ensures forall k :: 0 <= k < |chunks| ==> 1 <= |chunks[k]| <= ChunkSize
    ensures forall k :: 0 <= k < |chunks| - 1 ==> |chunks[k]| == ChunkSize
    ensures |chunks| == (|items| + ChunkSize - 1) / ChunkSize
  {
    chunks := [];
    var i := 0;
    while i < |items|
      invariant 0 <= i < |items| + ChunkSize && i == ChunkSize * |chunks|
      invariant Flatten(chunks) == items[..Min(i, |items|)]
      invariant forall k :: 0 <= k < |chunks| ==> 1 <= |chunks[k]| <= ChunkSize
      invariant forall k :: 0 <= k < |chunks| - 1 ==> |chunks[k]| == ChunkSize
      invariant i < |items| ==> chunks == [] || |chunks[|chunks| - 1]| == ChunkSize
    {
      var chunk := items[i..Min(i + ChunkSize, |items|)];
      FlattenAppend(chunks, chunk);
      assert items[..Min(i + ChunkSize, |items|)] == items[..i] + chunk;
      chunks := chunks + [chunk];
      i := i + ChunkSize;
    }
    assert items[..Min(i, |items|)] == items;
  }

  /** The chunked run: each idle callback processes the next chunk item by item, and the callback
      runs once after the last chunk — at once when there are no items. `processed` records the
      items handed to processItem, in order. */
  class ChunkRunner<T> {
    ghost const items: seq<T>
    const chunks: seq<seq<T>>
    const hasCallback: bool
    var next: nat
    var processed: seq<T>
    var callbackRuns: nat
    var idlePending: bool

    ghost predicate Valid()
      reads this
    {
      Flatten(chunks) == items && next <= |chunks| && processed == Flatten(chunks[..next]) &&
      (idlePending <==> next < |chunks|) &&
      callbackRuns == (if !idlePending && hasCallback then 1 else 0)
    }

    constructor (items: seq<T>, hasCallback: bool)
      ensures this.items == items && this.hasCallback == hasCallback && Valid()
      ensures next == 0 && processed == []
      ensures items == [] <==> !idlePending
      ensures callbackRuns == if items == [] && hasCallback then 1 else 0
    {
      var cs := SplitChunks(items);
      this.items := items;
      chunks := cs;
      this.hasCallback := hasCallback;
      next := 0;
      processed := [];
      callbackRuns := 0;
      idlePending := false;
      new;
      ProcessChunk();
    }

    /** processChunk(next): the callback when all chunks are done, else an idle callback. */
    method ProcessChunk()
      requires next <= |chunks| && callbackRuns == 0 && !idlePending
      modifies this`callbackRuns, this`idlePending
      ensures idlePending <==> next < |chunks|
      ensures callbackRuns == if !idlePending && hasCallback then 1 else 0
    {
      if next >= |chunks| {
        if hasCallback {
          callbackRuns := callbackRuns + 1;
        }
        return;
      }
      idlePending := true;
    }

    /** The idle callback: the next chunk is processed in order, then the following one is scheduled. */
    method OnIdle()
      requires Valid() && idlePending
      modifies this`next, this`processed, this`callbackRuns, this`idlePending
      ensures Valid()
      ensures next == old(next) + 1 && processed == old(processed) + chunks[old(next)]
      ensures !idlePending ==> processed == items && callbackRuns == if hasCallback then 1 else 0
    {
      var chunk := chunks[next];
      var j := 0;
      while j < |chunk|
        invariant 0 <= j <= |chunk|
        invariant processed == old(processed) + chunk[..j]
        invariant next == old(next) && idlePending == old(idlePending) && callbackRuns == old(callbackRuns)
      {
        processed := processed + [chunk[j]];
        assert chunk[..j + 1] == chunk[..j] + [chunk[j]];
        j := j + 1;
      }
      assert chunk[..|chunk|] == chunk;
      FlattenAppend(chunks[..next], chunk);
      assert chunks[..next + 1] == chunks[..next] + [chunk];
      next := next + 1;
      idlePending := false;
      ProcessChunk();
      if !idlePending {
        assert chunks[..next] == chunks;
      }
    }
  }

  // ---------------------------------------------------------------------------
  // Passive listener options
  // ---------------------------------------------------------------------------

  /** The third argument of addEventListener, by its `typeof`. */
  datatype Options = Undefined | Null | Boolean(b: bool) | Number(n: int) | Str(s: string) | Function | Object(fields: map<string, bool>)

  /** `typeof options === 'object'`, which holds for null too. */
  predicate TypeofObject(o: Options)
  {
    o.Object? || o.Null?
  }

  const PassiveEvents: seq<string> := ["scroll", "touchstart", "touchmove", "wheel"]

  /** One installed wrapper: non-object options of a passive event type become {passive: true}. */
  function RewriteOptions(eventType: string, o: Options): (r: Options)
    ensures eventType in PassiveEvents ==> TypeofObject(r)
    ensures eventType in PassiveEvents && !TypeofObject(o) ==> r == Object(map["passive" := true])
    ensures eventType !in PassiveEvents || TypeofObject(o) ==> r == o
  {
    if eventType in PassiveEvents && !TypeofObject(o) then Object(map["passive" := true]) else o
  }

  /** The options after `n` stacked wrappers (the forEach installs one per passive event type). */
  function Wrapped(eventType: string, o: Options, n: nat): Options
    decreases n
  {
    if n == 0 then o else Wrapped(eventType, RewriteOptions(eventType, o), n - 1)
  }

  /** Stacking the wrappers is the same as installing one: the rewrite is idempotent. */
  lemma {:induction false} WrappedOnce(eventType: string, o: Options, n: nat)
    requires n >= 1
    ensures Wrapped(eventType, o, n) == RewriteOptions(eventType, o)
    decreases n
  {
    if n > 1 {
      WrappedOnce(eventType, RewriteOptions(eventType, o), n - 1);
    }
  }

  /** The four wrappers optimizeEventListeners installs act as one. */
  lemma FourWrappersActAsOne(eventType: string, o: Options)
    ensures Wrapped(eventType, o, |PassiveEvents|) == RewriteOptions(eventType, o)
  {
    WrappedOnce(eventType, o, |PassiveEvents|);
  }

  // ---------------------------------------------------------------------------
  // Ratings of the measured vitals
  // ---------------------------------------------------------------------------

  datatype Rating = Good | NeedsImprovement | Poor

  /** The LCP branches as written: the `lcp > 4000` test comes after `lcp > 2500`. */
  function LcpRatingAsWritten(lcp: real): Rating
  {
    if lcp > 2500.0 then Poor else if lcp > 4000.0 then NeedsImprovement else Good
  }

  /** The 'Needs Improvement' branch is dead: anything above 4000 is already above 2500. */
  lemma LcpNeedsImprovementUnreachable(lcp: real)
    ensures LcpRatingAsWritten(lcp) != NeedsImprovement
  {
  }

  /** A value as written rates Poor where the usual bands say it only needs improvement. */
  lemma LcpAsWrittenMisratesMiddleBand()
    ensures LcpRatingAsWritten(3000.0) == Poor && LcpRating(3000.0) == NeedsImprovement
  {
  }

  /** The intended bands: good up to 2500 ms, poor above 4000 ms, in between needs improvement. */
  function LcpRating(lcp: real): (r: Rating)
    ensures r == Good <==> lcp <= 2500.0
    ensures r == Poor <==> lcp > 4000.0
    ensures r == NeedsImprovement <==> 2500.0 < lcp <= 4000.0
  {
    if lcp > 4000.0 then Poor else if lcp > 2500.0 then NeedsImprovement else Good
  }

  /** The corrected rating agrees with the written one outside the middle band. */
  lemma LcpRatingAgreesOutsideMiddle(lcp: real)
    requires lcp <= 2500.0 || lcp > 4000.0
    ensures LcpRating(lcp) == LcpRatingAsWritten(lcp)
  {
  }

  /** The rating worsens as the value grows. */
  lemma LcpRatingMonotone(a: real, b: real)
    requires a <= b
    ensures LcpRating(a) == Poor ==> LcpRating(b) == Poor
    ensures LcpRating(b) == Good ==> LcpRating(a) == Good
  {
  }

  /** The two-band metrics: FID above 100 ms, CLS above 0.1 and INP above 200 ms need improvement. */
  function TwoBand(value: real, limit: real): (r: Rating)
    ensures r != Poor
    ensures r == Good <==> value <= limit
  {
    if value > limit then NeedsImprovement else Good
  }

  function FidRating(fid: real): Rating { TwoBand(fid, 100.0) }

  function ClsRating(cls: real): Rating { TwoBand(cls, 0.1) }

  function InpRating(inp: real): Rating { TwoBand(inp, 200.0) }

  /** A layout-shift entry. */
  datatype LayoutShift = LayoutShift(value: real, hadRecentInput: bool)

  /** The shifts that count towards CLS: those without recent input. */
  function ShiftSum(entries: seq<LayoutShift>): real
  {
    if entries == [] then 0.0
    else
      var last := entries[|entries| - 1];
      ShiftSum(entries[..|entries| - 1]) + (if last.hadRecentInput then 0.0 else last.value)
  }

  lemma {:induction false} ShiftSumNonNegative(entries: seq<LayoutShift>)
    requires forall k :: 0 <= k < |entries| ==> entries[k].value >= 0.0
    ensures ShiftSum(entries) >= 0.0
  {
    if entries != [] {
      ShiftSumNonNegative(entries[..|entries| - 1]);
    }
  }

  /** The CLS observer: `clsScore` accumulates over all callbacks. */
  class ClsObserver {
    var clsScore: real

    constructor ()
      ensures clsScore == 0.0
    {
      clsScore := 0.0;
    }

    method OnEntries(entries: seq<LayoutShift>) returns (rating: Rating)
      modifies this
      ensures clsScore == old(clsScore) + ShiftSum(entries)
      ensures rating == ClsRating(clsScore)
    {
      var i := 0;
      while i < |entries|
        invariant 0 <= i <= |entries|
        invariant clsScore == old(clsScore) + ShiftSum(entries[..i])
      {
        if !entries[i].hadRecentInput {
          clsScore := clsScore + entries[i].value;
        }
        assert entries[..i + 1][..i] == entries[..i];
        i := i + 1;
      }
      assert entries[..|entries|] == entries;
      rating := if clsScore > 0.1 then NeedsImprovement else Good;
    }
  }

  /** Layout shifts are never negative, so once the score needs improvement it stays so. */
  lemma ClsRatingSticky(score: real, entries: seq<LayoutShift>)
    requires forall k :: 0 <= k < |entries| ==> entries[k].value >= 0.0
    requires ClsRating(score) == NeedsImprovement
    ensures ClsRating(score + ShiftSum(entries)) == NeedsImprovement
  {
    ShiftSumNonNegative(entries);
  }
}
