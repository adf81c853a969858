/**
 * The browser's IntersectionObserver as the site scripts use it: an observer keeps a set of
 * observed elements and hands its callback batches of (target, isIntersecting) entries. The
 * geometry that decides isIntersecting is the browser's and is not modelled; a batch is an input.
 */
module Viewport {
  import opened Dom

  /** One IntersectionObserverEntry, reduced to what the callbacks read. */
  datatype Entry = Entry(target: ElemId, isIntersecting: bool)

  class IntersectionObserver {
    var observed: set<ElemId>

    constructor ()
      ensures observed == {}
    {
      observed := {};
    }

    method Observe(id: ElemId)
      modifies this
      ensures observed == old(observed) + {id}
    {
      observed := observed + {id};
    }

    method Unobserve(id: ElemId)
      modifies this
      ensures observed == old(observed) - {id}
    {
      observed := observed - {id};
    }
  }

  /** Every target a batch reports. */
  function Targets(batch: seq<Entry>): (r: set<ElemId>)
    ensures forall x :: x in r <==> exists k :: 0 <= k < |batch| && batch[k].target == x
  {
    if batch == [] then {}
    else
      var init := batch[..|batch| - 1];
      assert forall k :: 0 <= k < |init| ==> init[k] == batch[k];
      Targets(init) + {batch[|batch| - 1].target}
  }

  /** The targets of the intersecting entries of a batch. */
  function HitSet(batch: seq<Entry>): (r: set<ElemId>)
    ensures forall x :: x in r <==> exists k :: 0 <= k < |batch| && batch[k].isIntersecting && batch[k].target == x
  {
    if batch == [] then {}
    else
      var init := batch[..|batch| - 1];
      var last := batch[|batch| - 1];
      assert forall k :: 0 <= k < |init| ==> init[k] == batch[k];
      HitSet(init) + (if last.isIntersecting then {last.target} else {})
  }

  /** The targets of the intersecting entries of a batch, in delivery order. */
  function Hits(batch: seq<Entry>): (r: seq<ElemId>)
    ensures |r| <= |batch|
    ensures forall x :: x in r <==> x in HitSet(batch)
  {
    if batch == [] then []
    else
      var last := batch[|batch| - 1];
      Hits(batch[..|batch| - 1]) + (if last.isIntersecting then [last.target] else [])
  }

  /** The elements after a callback has applied `effect` to the target of every intersecting
      entry, one entry after the other in delivery order. */
  function Run(elems: map<ElemId, Element>, batch: seq<Entry>, effect: Element -> Element): (r: map<ElemId, Element>)
    ensures r.Keys == elems.Keys
  {
    if batch == [] then elems
    else
      var m := Run(elems, batch[..|batch| - 1], effect);
      var e := batch[|batch| - 1];
      if e.isIntersecting && e.target in m then m[e.target := effect(m[e.target])] else m
  }

  /** An element no intersecting entry names keeps its state. */
  lemma {:induction false} RunUntouched(elems: map<ElemId, Element>, batch: seq<Entry>, effect: Element -> Element, x: ElemId)
    requires x in elems && x !in HitSet(batch)
    ensures Run(elems, batch, effect)[x] == elems[x]
  {
    if batch != [] {
      RunUntouched(elems, batch[..|batch| - 1], effect, x);
    }
  }

  /** When the effect is idempotent on an element, the element ends in the effect's state however many
      intersecting entries name it, and untouched when none does. */
  lemma {:induction false} RunIdempotent(elems: map<ElemId, Element>, batch: seq<Entry>, effect: Element -> Element, x: ElemId)
    requires x in elems && effect(effect(elems[x])) == effect(elems[x])
    ensures Run(elems, batch, effect)[x] == if x in HitSet(batch) then effect(elems[x]) else elems[x]
  {
    if batch != [] {
      RunIdempotent(elems, batch[..|batch| - 1], effect, x);
    }
  }

  /** Entries are reported for observed targets only: a batch may name an element only if it is
      observed when the batch is delivered. `bs` are successive batches for one observer whose
      callback unobserves the target of every intersecting entry. */
  ghost predicate Deliverable(observed: set<ElemId>, bs: seq<seq<Entry>>)
    decreases |bs|
  {
    bs == [] || (Targets(bs[0]) <= observed && Deliverable(observed - HitSet(bs[0]), bs[1..]))
  }

  /** An element that is not observed is never reported again. */
  lemma {:induction false} NeverReportedAgain(observed: set<ElemId>, bs: seq<seq<Entry>>, j: nat, x: ElemId)
    requires Deliverable(observed, bs) && x !in observed && j < |bs|
    ensures x !in Targets(bs[j])
    decreases j
  {
    if j > 0 {
      NeverReportedAgain(observed - HitSet(bs[0]), bs[1..], j - 1, x);
    }
  }

  /** One-shot triggering: once an entry for an element has intersected, no later batch reports that
      element again, so a callback that unobserves every hit fires for each element in one batch at most. */
  lemma {:induction false} HitAtMostOnce(observed: set<ElemId>, bs: seq<seq<Entry>>, i: nat, j: nat, x: ElemId)
    requires Deliverable(observed, bs) && i < j < |bs| && x in HitSet(bs[i])
    ensures x !in Targets(bs[j])
    decreases i
  {
    if i == 0 {
      NeverReportedAgain(observed - HitSet(bs[0]), bs[1..], j - 1, x);
    } else {
      HitAtMostOnce(observed - HitSet(bs[0]), bs[1..], i - 1, j - 1, x);
    }
  }

  /** The callback shape most sites share: for each entry in order, an intersecting one has `effect`
      applied to its target, which is then unobserved; other entries are skipped. */
  method DeliverOneShot(page: Page, observer: IntersectionObserver, batch: seq<Entry>, effect: Element -> Element)
    modifies page`elems, observer
    ensures page.elems == Run(old(page.elems), batch, effect)
    ensures observer.observed == old(observer.observed) - HitSet(batch)
  {
    var i := 0;
    while i < |batch|
      invariant 0 <= i <= |batch|
      invariant page.elems == Run(old(page.elems), batch[..i], effect)
      invariant observer.observed == old(observer.observed) - HitSet(batch[..i])
    {
      var entry := batch[i];
      if entry.isIntersecting {
        if entry.target in page.elems {
          page.elems := page.elems[entry.target := effect(page.elems[entry.target])];
        }
        observer.Unobserve(entry.target);
      }
      assert batch[..i + 1][..i] == batch[..i];
      i := i + 1;
    }
    assert batch[..|batch|] == batch;
  }

  /** The set-up shape: each element of a NodeList is prepared by `prep` (the identity where a site
      only observes) and then observed. */
  method ObserveEach(page: Page, observer: IntersectionObserver, ids: seq<ElemId>, prep: Element -> Element)
    requires Distinct(ids)
    modifies page`elems, observer
    ensures observer.observed == old(observer.observed) + Elements(ids)
    ensures page.elems.Keys == old(page.elems).Keys
    ensures forall x :: x in old(page.elems) ==>
      page.elems[x] == if x in ids then prep(old(page.elems)[x]) else old(page.elems)[x]
  {
    var i := 0;
    while i < |ids|
      invariant 0 <= i <= |ids|
      invariant observer.observed == old(observer.observed) + Elements(ids[..i])
      invariant page.elems.Keys == old(page.elems).Keys
      invariant forall x :: x in old(page.elems) ==>
        page.elems[x] == if x in ids[..i] then prep(old(page.elems)[x]) else old(page.elems)[x]
    {
      var id := ids[i];
      assert id !in ids[..i];
      if id in page.elems {
        page.elems := page.elems[id := prep(page.elems[id])];
      }
      observer.Observe(id);
      assert ids[..i + 1] == ids[..i] + [id];
      i := i + 1;
    }
    assert ids[..|ids|] == ids;
  }
}
