# Site scripts of a marketing website, modelled in Dafny

The website ships seven small browser scripts under `src/js/`. Together they do the following:

- validate contact-form fields;
- run the mobile menu;
- lazy-load and progressively swap images;
- reveal and animate content when it scrolls into view;
- prefetch same-origin links;
- keep focus inside the open menu;
- inject FAQ structured data into the head.

None of them is one engine. Each is a set of event handlers that read and write the document, and this project models those handlers one call site at a time.

Two modules model the browser side that every script shares:

- `Dom` (`dom.dfy`):
  - An element is a value (`Element`: tag, classes, attributes, inline style, text, value, src, href), keyed by identity in the mutable `Page` class, which also holds the nodes appended to `document.head`.
  - It also defines JavaScript's `trim`, `startsWith` and UTF-16 `length`, and a small JSON value type.
- `Viewport` (`viewport.dfy`):
  - An `IntersectionObserver` class that holds the set of observed elements.
  - Delivered batches of `(target, isIntersecting)` entries.
  - The fold `Run`, which applies a callback's effect to the intersecting entries in delivery order.
  - The cross-batch `HitAtMostOnce` theorem: a callback that unobserves every hit fires at most once per element.

Each script is one module:

| module | file | models |
|---|---|---|
| `FormValidation` | form-validation.js | the rule chain, validateField, live re-validation, the submit handler, showFormMessage |
| `MobileExperience` | mobile-experience.js | MobileNavigation, LazyImages, ScrollAnimations, FormEnhancement, ActiveNavHighlight |
| `CoreWebVitals` | core-web-vitals.js | instantPage, optimizeImages, debounce, rafThrottle, runInChunks, the passive-options rewrite, the metric ratings |
| `PerformanceEnhancements` | performance-enhancements.js | the shared observer, the scroll-to-top button, prefetchVisibleLinks, the menu ARIA state and focus trap |
| `ImageOptimization` | image-optimization.js | loading hints, `sizes`, progressive images, the error fallback, aspect-ratio wrappers, the WebP class |
| `AdvancedInteractions` | advanced-interactions.js | the counter, fade-in, typewriter and background observers, revealSections, typewriterEffect, anchor routing, the navbar scroll state, `init`'s feature choice |
| `FaqSchema` | faq-schema.js | generateFAQSchema |

How the code maps onto Dafny:

- Where the code keeps state and changes it step by step, the model is a class with those fields, and its methods are specified against the pure functions beside them. Examples are the menu's `isOpen`, the prefetch `Set`, the pending timers, the typewriter's counter and the observers' observed sets.
- Handlers that schedule work (`setTimeout`, `requestAnimationFrame`, `requestIdleCallback`) are split in two: the call records a pending slot, and a separate method is the moment that work runs.
- Geometry and environment checks are parameters: `isIntersecting`, bounding-box tops, `scrollY`, `innerWidth`, `matchMedia`, `CSS.supports`, native lazy loading, and the WebP probe.

The code has no shared visibility-trigger engine: no registration handles, no cancellation, no disposal and no invalid-policy error. Every call site builds its own observer, so the model follows each call site as written. Two sites break the once-only pattern:

- `revealSections` never unobserves.
- `prefetchVisibleLinks` unobserves only links that pass its filter.

No call site falls back to firing at once when observation is unavailable. `optimizeImages` and `LazyImages` simply skip the observer when native lazy loading exists.

## Model

| member | source | states |
|---|---|---|
| Viewport.Targets | src/js/performance-enhancements.js:20-39 | an element is among a batch's targets exactly when some entry names it |
| Viewport.HitSet | src/js/performance-enhancements.js:21-22 | an element is hit exactly when some intersecting entry names it |
| Viewport.Hits | src/js/performance-enhancements.js:21-22 | the hit targets in delivery order, no more of them than entries, with the same members as HitSet |
| Viewport.Run | src/js/performance-enhancements.js:20-39 | applying a callback's effect entry by entry changes no element set |
| Viewport.RunUntouched | src/js/performance-enhancements.js:21-22 | an element no intersecting entry names keeps its state through the batch |
| Viewport.RunIdempotent | src/js/performance-enhancements.js:21-36 | for an idempotent effect, an element ends in effect(state) when some entry hits it, however many do, and unchanged otherwise |
| Viewport.NeverReportedAgain | src/js/performance-enhancements.js:36 | once unobserved, an element is never reported by a later batch |
| Viewport.HitAtMostOnce | src/js/performance-enhancements.js:36 | after a batch hits an element, no later batch reports it, so a callback that unobserves its hits fires once per element |
| Viewport.DeliverOneShot | src/js/performance-enhancements.js:20-39 | the shared callback shape: the page becomes Run(batch, effect) and exactly the hit targets are unobserved |
| Viewport.ObserveEach | src/js/mobile-experience.js:306-309 | every element of the NodeList is prepared by `prep` and observed, and nothing else changes |
| Viewport.IntersectionObserver.Observe | src/js/performance-enhancements.js:46 | the element joins the observed set |
| Viewport.IntersectionObserver.Unobserve | src/js/performance-enhancements.js:36 | the element leaves the observed set |
| Dom.UpdateEach | src/js/image-optimization.js:31-43 | a forEach whose callback updates only its own element: listed elements become f(element), others are unchanged |
| Dom.AttrOr | src/js/image-optimization.js:71 | `getAttribute(x) \|\| fallback` is the attribute when it is non-empty and the fallback otherwise |
| Dom.TypeOf | src/js/form-validation.js:50 | the `type` property: "textarea" for a textarea, "select-one" or "select-multiple" for a select, and for an input its `type` attribute in ASCII lower case when that names an input type, "text" when it is missing or names none |
| Dom.TypeKeywordsIgnoreCase | src/js/mobile-experience.js:267 | `type="Email"` reads as "email" and `type="CHECKBOX"` as "checkbox" |
| Dom.UnknownTypeIsText | src/js/mobile-experience.js:267 | `type="phone"`, which names no input type, reads as "text" |
| Dom.MoveDataSrc | src/js/core-web-vitals.js:88-91 | a non-empty data-src becomes the src and is removed; otherwise the element is unchanged |
| Dom.MoveDataSrcIdempotent | src/js/core-web-vitals.js:88-91 | a second delivery finds no data-src and changes nothing |
| Dom.WithFormatClass | src/js/image-optimization.js:192-196 | the document element gains `webp` when the probe decoded and `no-webp` otherwise; nothing else changes |
| Dom.TrimStart | src/js/form-validation.js:49 | the result is no longer than the input, does not start with white space, and every dropped character is white space |
| Dom.TrimStartIsSuffix | src/js/form-validation.js:49 | the result is a suffix of the input |
| Dom.TrimEnd | src/js/form-validation.js:49 | the result is no longer than the input, does not end with white space, and every dropped character is white space |
| Dom.TrimEndIsPrefix | src/js/form-validation.js:49 | the result is a prefix of the input |
| Dom.Trim | src/js/form-validation.js:49 | neither end of `trim()`'s result is white space |
| Dom.TrimIsSlice | src/js/faq-schema.js:22-23 | the trimmed text is a contiguous slice of the input, and everything outside that slice is white space |
| Dom.TrimIdempotent | src/js/faq-schema.js:22-23 | trimming twice is trimming once |
| Dom.CodeUnits | src/js/form-validation.js:76-79 | `length` in UTF-16 code units lies between the number of characters and twice that |
| FormValidation.IndexOf | src/js/form-validation.js:11 | the position of the first occurrence of a character, or None exactly when it does not occur |
| FormValidation.EmailScanSound | src/js/form-validation.js:11 | every string the hand-written email scan accepts matches `^[^\s@]+@[^\s@]+\.[^\s@]+$` |
| FormValidation.EmailScanComplete | src/js/form-validation.js:11 | every string the email pattern matches is accepted by the scan |
| FormValidation.EmailScanMatchesPattern | src/js/form-validation.js:11 | the scan accepts exactly the strings the pattern matches |
| FormValidation.Decide | src/js/form-validation.js:52-84 | a valid verdict has "Sieht gut aus!" exactly when the trimmed value is non-empty; an empty value is rejected exactly when the field is required; the message is empty only for a valid empty field |
| FormValidation.MixedCaseEmailTypeIsChecked | src/js/form-validation.js:50-63 | `<input type="Email" required>` holding "abc" is rejected with the invalid-email message |
| FormValidation.ValidIffNoRuleFails | src/js/form-validation.js:55-84 | the field is valid exactly when none of the five rules (required, email, tel, name, textarea length) rejects it |
| FormValidation.FirstFailingRuleDecides | src/js/form-validation.js:55-84 | the first rule in chain order that rejects the trimmed value decides the verdict and its message; later rules are not consulted |
| FormValidation.StyledMarks | src/js/form-validation.js:86-100 | with a value the input carries exactly one of valid/invalid, matching the verdict, and aria-invalid = !isValid; without one it carries neither class and no aria-invalid; other classes stay |
| FormValidation.Validate | src/js/form-validation.js:41-103 | without a form group it returns true and changes nothing; otherwise it returns the chain's verdict and changes no other element |
| FormValidation.Rewrite | src/js/form-validation.js:46-100 | the rewrite of one field and its group keeps every other element |
| FormValidation.RewriteFeedback | src/js/form-validation.js:46-47 | the group loses its old feedback node and gains one only with a value; other groups keep theirs; one node at most stays one node at most |
| FormValidation.ValidateMarksInput | src/js/form-validation.js:56-59 | the input's verdict classes and aria-invalid after validateField; a required empty field is rejected yet left unmarked |
| FormValidation.ValidateRewritesFeedback | src/js/form-validation.js:93-100 | the group's feedback after validateField: the old node is removed first, a node with the verdict's message is appended only for a non-empty value, and at most one remains |
| FormValidation.ControlIgnoresAriaInvalid | src/js/form-validation.js:49-51 | what validateField reads of an input depends only on its value, its tag and its attributes other than aria-invalid |
| FormValidation.StyledKeepsControl | src/js/form-validation.js:86-100 | the verdict classes and aria-invalid written to an input leave it reading as the same control |
| FormValidation.ValidateKeepsControls | src/js/form-validation.js:41-103 | validateField leaves every input reading as the control it was, so validating one input never changes the verdict of another |
| FormValidation.ValidateOkUnlessFails | src/js/form-validation.js:41-84 | validateField returns true exactly when the input does not fail: it has no form group, or the rule chain accepts it |
| FormValidation.SubmitFrom | src/js/form-validation.js:140-148 | the written handler keeps the element set, and when it throws it does so at an index within the inputs; which index is stated by SubmitThrowsAtFirstFailure |
| FormValidation.CheckFrom | src/js/form-validation.js:139-150 | the corrected walk keeps an already-found first invalid input, and any input it reports comes from the inputs; which input is stated by CheckFindsFirstFailure |
| FormValidation.CorrectedFindsTheInputTheOriginalThrowsOn | src/js/form-validation.js:140-159 | both handlers agree up to the first invalid input: the corrected one reports the very input the written one throws on, and an all-valid form ends in the same state |
| FormValidation.SubmitStepKeepsControls | src/js/form-validation.js:140-148 | one turn of the written loop returns validateField's new state and verdict, keeps every control and the inputs, accepts the input exactly when it does not fail on the state the walk started from, and goes on to the next input exactly then |
| FormValidation.FirstTrueIsFirst | src/js/form-validation.js:142-148 | the position the search for the first failing input stops at fails, when it is within the inputs, and no earlier position fails |
| FormValidation.SubmitThrowsAtFirstFailureFrom | src/js/form-validation.js:140-148 | from any point of the walk, the written handler stops at the first later input that fails on the state the walk started from, and passes when none does |
| FormValidation.SubmitThrowsAtFirstFailure | src/js/form-validation.js:140-147 | the written handler throws exactly when some input fails validation, at the first input that fails |
| FormValidation.CheckFindsFirstFailure | src/js/form-validation.js:142-150 | the corrected handler reports no input exactly when no input fails, and otherwise the first input that fails |
| FormValidation.InvalidFormIsSubmittedAsWritten | src/js/form-validation.js:140-153 | a single required field holding only a space, which the browser's own `required` check accepts, makes the written handler throw, so the form submits; the corrected one blocks it and reports that field |
| FormValidation.ShownMessages | src/js/form-validation.js:182-205 | the new message leads the list when the page has a form; the old first message is dropped and the others follow in their order; from at most one message there remains exactly the new one, or none without a form |
| FormValidation.FormPage.ValidateField | src/js/form-validation.js:41-103 | the new page and feedback state is exactly Validate of the old one, and one feedback node per group is kept |
| FormValidation.FormPage.OnInput | src/js/form-validation.js:118-123 | each keystroke cancels the pending re-validation, and reschedules it only for a field already marked valid or invalid |
| FormValidation.FormPage.OnRevalidateTimer | src/js/form-validation.js:121 | the debounced timer clears its slot and performs validateField |
| FormValidation.FormPage.ShowFormMessage | src/js/form-validation.js:182-205 | the form-level messages become ShownMessages of the old ones |
| FormValidation.FormPage.Submit | src/js/form-validation.js:138-177 | as written: the handler throws exactly when some input fails validation, at the first one, with the state reached so far, and it never prevents the default; an all-valid form shows the busy submit button |
| FormValidation.FormPage.CheckNext | src/js/form-validation.js:142-149 | one loop turn validates the next input and remembers it when it is the first invalid one, keeping the walk's account |
| FormValidation.FormPage.CheckInputs | src/js/form-validation.js:142-150 | the loop validates every input in order, and the state and first invalid input are those of the corrected walk |
| FormValidation.FormPage.SubmitCorrected | src/js/form-validation.js:138-177 | with `let`: the default is prevented exactly when some input fails validation, the reported input is the first that fails, and the error message is shown; otherwise the submit button shows the busy state |
| MobileExperience.ToggleIf | src/js/mobile-experience.js:77-83 | toggling the class of an optional element keeps the element set |
| MobileExperience.ToggleIfAt | src/js/mobile-experience.js:77-83 | only the named element changes, by one class toggle |
| MobileExperience.Shown | src/js/mobile-experience.js:72-106 | open and close are the same steps with opposite values and keep the element set |
| MobileExperience.ShownMirrors | src/js/mobile-experience.js:72-106 | after open/close, `active` is on the button, menu and overlay exactly when the menu is open, aria-expanded = String(isOpen), body overflow/touch-action are locked exactly when it is open, and no other element changes |
| MobileExperience.ShownPointwise | src/js/mobile-experience.js:72-106 | the statement-by-statement effect of open/close on one element equals its role-by-role account |
| MobileExperience.ShownIdempotent | src/js/mobile-experience.js:72-106 | opening an open menu, or closing a closed one, changes nothing more |
| MobileExperience.WithScrollClass | src/js/mobile-experience.js:108-116 | the nav has `scrolled` exactly when scrollY exceeds the threshold; no other element changes |
| MobileExperience.MobileNavigation.constructor | src/js/mobile-experience.js:16-66 | starts closed with no pending close and applies handleScroll once |
| MobileExperience.MobileNavigation.Open | src/js/mobile-experience.js:72-88 | isOpen becomes true and the document mirrors it |
| MobileExperience.MobileNavigation.Close | src/js/mobile-experience.js:90-106 | isOpen becomes false and the document mirrors it |
| MobileExperience.MobileNavigation.Toggle | src/js/mobile-experience.js:68-70 | isOpen flips and the document mirrors the new state |
| MobileExperience.MobileNavigation.OnOverlayClick | src/js/mobile-experience.js:38-40 | a click on the overlay closes the menu |
| MobileExperience.MobileNavigation.OnKeyDown | src/js/mobile-experience.js:50-54 | Escape closes an open menu; any other key, or a closed menu, changes nothing |
| MobileExperience.MobileNavigation.OnResize | src/js/mobile-experience.js:57-61 | a width of 769 or more closes an open menu; otherwise nothing changes |
| MobileExperience.MobileNavigation.OnLinkClick | src/js/mobile-experience.js:43-47 | a menu-link click adds one pending close timer |
| MobileExperience.MobileNavigation.OnCloseTimer | src/js/mobile-experience.js:45 | a close timer firing closes the menu, whether or not it is open, and one fewer close is pending |
| MobileExperience.MobileNavigation.HandleScroll | src/js/mobile-experience.js:108-116 | the nav has `scrolled` exactly when scrollY > 50 |
| MobileExperience.LoadLazyImage | src/js/mobile-experience.js:209-215 | the image gains `loaded`, and its src becomes data-src when that is set; data-src is kept |
| MobileExperience.LoadLazyImageIdempotent | src/js/mobile-experience.js:209-215 | loading twice is loading once |
| MobileExperience.LazyImages.constructor | src/js/mobile-experience.js:196-226 | with native lazy loading nothing is observed; otherwise every `img[loading=lazy]` is observed |
| MobileExperience.LazyImages.OnLoad | src/js/mobile-experience.js:200-204 | the native branch's load listener adds `loaded` |
| MobileExperience.LazyImages.Deliver | src/js/mobile-experience.js:207-217 | each intersecting image is loaded and unobserved; non-intersecting entries change nothing |
| MobileExperience.ScrollAnimations.constructor | src/js/mobile-experience.js:284-310 | under reduced motion nothing is observed or changed; otherwise every element gets `animate-on-scroll` and is observed |
| MobileExperience.ScrollAnimations.Deliver | src/js/mobile-experience.js:294-300 | intersecting elements get `animate-visible` and are unobserved |
| MobileExperience.ShownOnHit | src/js/mobile-experience.js:296-298 | within a batch an element is shown once if some entry intersects it, and is untouched otherwise |
| MobileExperience.Enhanced | src/js/mobile-experience.js:247-269 | an input with a value gets `has-value`, and every input except checkbox and radio gets a 16px font |
| MobileExperience.UpperCaseCheckboxKeepsFont | src/js/mobile-experience.js:267 | `<input type="CHECKBOX">` is a checkbox and does not get the 16px font |
| MobileExperience.FormEnhancement.Init | src/js/mobile-experience.js:240-271 | every listed input is enhanced and nothing else changes |
| MobileExperience.FormEnhancement.OnFocus | src/js/mobile-experience.js:253-255 | the parent gains `focused` |
| MobileExperience.FormEnhancement.OnBlur | src/js/mobile-experience.js:257-264 | the parent becomes its old self without `focused`; the input becomes its old self with `has-value` added when its untrimmed value is non-empty and removed otherwise; nothing else changes |
| MobileExperience.LastSegment | src/js/mobile-experience.js:401-402 | `split('/').pop()` is the slash-free suffix that follows the last '/' |
| MobileExperience.LastSegmentAfterLastSlash | src/js/mobile-experience.js:401 | with its last '/' at k, the segment is everything after k |
| MobileExperience.LastSegmentWithoutSlash | src/js/mobile-experience.js:401 | without a '/', the segment is the whole string |
| MobileExperience.CurrentFile | src/js/mobile-experience.js:402 | the current file is never empty: an empty last segment becomes index.html |
| MobileExperience.ActiveIffSameFile | src/js/mobile-experience.js:404-405 | the two-disjunct condition holds exactly when the link's last segment equals the current file; `currentFile === ''` cannot hold |
| MobileExperience.Highlighted | src/js/mobile-experience.js:399-407 | a link whose href names the current file gains `active`, any other link is unchanged, and no class is ever removed |
| MobileExperience.HighlightActiveLinks | src/js/mobile-experience.js:396-409 | every nav link is highlighted individually and nothing else changes |
| CoreWebVitals.DocPrefetchesAppend | src/js/core-web-vitals.js:27-31 | appending a document prefetch link appends its URL to the prefetched list |
| CoreWebVitals.InstantPage.constructor | src/js/core-web-vitals.js:21-22 | the set starts empty with no hover timer pending, whatever prefetch links the head already holds; the starting head is remembered and is never changed |
| CoreWebVitals.InstantPage.Prefetch | src/js/core-web-vitals.js:24-34 | a link is appended only for a URL not seen before; the set only grows, stays equal to the set of URLs given a link since the start, and no URL gets two of those links |
| CoreWebVitals.InstantPage.OnMouseOver | src/js/core-web-vitals.js:37-48 | a hovered same-origin href without '#' replaces the pending hover timer; anything else leaves it |
| CoreWebVitals.InstantPage.OnHoverTimer | src/js/core-web-vitals.js:46 | the timer clears its slot and prefetches its URL: the URL is remembered, and the head gains one prefetch link exactly when the URL was not prefetched before |
| CoreWebVitals.InstantPage.OnTouchStart | src/js/core-web-vitals.js:51-59 | a touched same-origin href without '#' is prefetched at once, and the head gains its link exactly when it was not prefetched before; anything else changes nothing |
| CoreWebVitals.CriticalImages.constructor | src/js/core-web-vitals.js:66-100 | heroes get fetchpriority=high and decoding=sync; with native lazy loading no image is observed, otherwise the lazy images are |
| CoreWebVitals.CriticalImages.Deliver | src/js/core-web-vitals.js:84-94 | each intersecting image moves data-src to src, drops the attribute and is unobserved |
| CoreWebVitals.Debounce | src/js/core-web-vitals.js:106-116 | after a run of calls the single pending slot holds the last call's arguments |
| CoreWebVitals.Throttle | src/js/core-web-vitals.js:119-129 | after a run of calls the single pending slot holds the first call's arguments; later calls are dropped while a frame is pending |
| CoreWebVitals.Debounced.Call | src/js/core-web-vitals.js:113-114 | a call replaces the pending timeout |
| CoreWebVitals.Debounced.Fire | src/js/core-web-vitals.js:109-112 | the timeout runs the function with the pending arguments and empties the slot |
| CoreWebVitals.RafThrottled.Call | src/js/core-web-vitals.js:121-127 | a call books a frame only when the slot is empty; otherwise the slot and the booking stay as they are |
| CoreWebVitals.RafThrottled.OnFrame | src/js/core-web-vitals.js:123-126 | the frame runs with the booked arguments and is no longer booked; the slot is cleared when the function returns, and stays set when it throws |
| CoreWebVitals.ThrottleStuckAfterThrow | src/js/core-web-vitals.js:122-125 | a slot left set by a throwing function drops every later call |
| CoreWebVitals.SplitChunks | src/js/core-web-vitals.js:163-168 | the chunks concatenate back to the items in order; all hold 10 items except the last, which holds 1 to 10; their number is ceil(n/10) |
| CoreWebVitals.ChunkRunner.constructor | src/js/core-web-vitals.js:162-183 | nothing is processed yet; the callback runs at once exactly when there are no items (and a callback exists), otherwise an idle callback is pending |
| CoreWebVitals.ChunkRunner.ProcessChunk | src/js/core-web-vitals.js:170-180 | past the last chunk the callback runs once; otherwise the next idle callback is booked |
| CoreWebVitals.ChunkRunner.OnIdle | src/js/core-web-vitals.js:176-179 | the next chunk is processed item by item in order; after the last one every item has been processed once in original order and the callback has run once |
| CoreWebVitals.RewriteOptions | src/js/core-web-vitals.js:196-200 | for scroll, touchstart, touchmove and wheel, non-object options become {passive: true}; object options (null included) and other event types pass through |
| CoreWebVitals.WrappedOnce | src/js/core-web-vitals.js:193-202 | any stack of the installed wrappers rewrites the options as one does |
| CoreWebVitals.FourWrappersActAsOne | src/js/core-web-vitals.js:191-202 | the four wrappers act as a single rewrite |
| CoreWebVitals.LcpNeedsImprovementUnreachable | src/js/core-web-vitals.js:333-339 | as written, no LCP value is rated Needs Improvement |
| CoreWebVitals.LcpAsWrittenMisratesMiddleBand | src/js/core-web-vitals.js:333-336 | as written 3000 ms is rated Poor, but the intended bands rate it Needs Improvement |
| CoreWebVitals.LcpRating | src/js/core-web-vitals.js:333-339 | intended bands: Good exactly up to 2500, Poor exactly above 4000, Needs Improvement exactly in between |
| CoreWebVitals.LcpRatingAgreesOutsideMiddle | src/js/core-web-vitals.js:333-339 | the corrected rating agrees with the written one outside (2500, 4000] |
| CoreWebVitals.LcpRatingMonotone | src/js/core-web-vitals.js:333-339 | the rating never improves as LCP grows |
| CoreWebVitals.TwoBand | src/js/core-web-vitals.js:353-357 | the FID, CLS and INP tests never say Poor, and say Good exactly up to the limit |
| CoreWebVitals.ShiftSumNonNegative | src/js/core-web-vitals.js:369-373 | the counted layout shifts sum to a non-negative number |
| CoreWebVitals.ClsObserver.OnEntries | src/js/core-web-vitals.js:367-381 | clsScore grows by the shifts without recent input, and the rating is that of the running total |
| CoreWebVitals.ClsRatingSticky | src/js/core-web-vitals.js:377-381 | once CLS needs improvement, later callbacks never rate it good again |
| PerformanceEnhancements.RevealTarget | src/js/performance-enhancements.js:22-34 | the lazy source moves to src, and an `animate-on-scroll` target gains `animated` |
| PerformanceEnhancements.RevealTargetIdempotent | src/js/performance-enhancements.js:22-34 | revealing twice is revealing once |
| PerformanceEnhancements.SharedObserver.constructor | src/js/performance-enhancements.js:41 | the observer starts with nothing observed |
| PerformanceEnhancements.SharedObserver.OnContentLoaded | src/js/performance-enhancements.js:44-50 | the data-src images and the animated elements are observed, and the page is unchanged |
| PerformanceEnhancements.SharedObserver.Deliver | src/js/performance-enhancements.js:20-39 | intersecting targets are revealed and always unobserved; non-intersecting entries change nothing |
| PerformanceEnhancements.RevealedOnHit | src/js/performance-enhancements.js:21-36 | a target is revealed once per batch however many of its entries intersect, and is untouched when none does |
| PerformanceEnhancements.ToggleScrollToTop | src/js/performance-enhancements.js:76-82 | the button has `visible` exactly when scrollY > 300 |
| PerformanceEnhancements.PrefetchedHrefs | src/js/performance-enhancements.js:127-138 | a batch prefetches at most one href per entry |
| PerformanceEnhancements.PrefetchedLinks | src/js/performance-enhancements.js:127-138 | only hit links are unobserved |
| PerformanceEnhancements.PrefetchedLinksExactly | src/js/performance-enhancements.js:133-136 | a link is unobserved exactly when it is hit and is a same-origin link without '#' |
| PerformanceEnhancements.PlainPrefetches | src/js/performance-enhancements.js:120-125 | one `<link rel=prefetch>` per href |
| PerformanceEnhancements.PlainPrefetchesAt | src/js/performance-enhancements.js:120-125 | the k-th appended link is for the k-th href and has no `as` |
| PerformanceEnhancements.PrefetchedHrefsQualify | src/js/performance-enhancements.js:133 | every href that is prefetched is non-empty, starts with the origin and contains no '#' |
| PerformanceEnhancements.PrefetchedHrefsPrefix | src/js/performance-enhancements.js:131-138 | the hrefs prefetched for the first entries of a batch are a prefix of those for the whole batch |
| PerformanceEnhancements.PrefetchedHrefsComplete | src/js/performance-enhancements.js:131-138 | every intersecting entry whose link qualifies contributes its href, placed right after the hrefs of the entries before it |
| PerformanceEnhancements.SameHrefPrefetchedTwice | src/js/performance-enhancements.js:120-125 | no de-duplication: two visible anchors with the same href append two prefetch links |
| PerformanceEnhancements.LinkPrefetcher.constructor | src/js/performance-enhancements.js:141-143 | every `a[href]` is observed |
| PerformanceEnhancements.LinkPrefetcher.PrefetchEntry | src/js/performance-enhancements.js:129-136 | one entry appends a link and unobserves its target exactly when it intersects and qualifies |
| PerformanceEnhancements.LinkPrefetcher.Deliver | src/js/performance-enhancements.js:127-138 | the head gains the qualifying hrefs' links in order, and exactly the qualifying hit links are unobserved |
| PerformanceEnhancements.NonQualifyingStaysObserved | src/js/performance-enhancements.js:133-136 | a link that fails the filter stays observed through any batch |
| PerformanceEnhancements.TrapFocus | src/js/performance-enhancements.js:168-189 | an inactive menu leaves everything alone; Escape, and only Escape, clicks the menu button |
| PerformanceEnhancements.FocusWrapsAround | src/js/performance-enhancements.js:175-188 | Tab on the last element wraps to the first and Shift+Tab on the first wraps to the last, both preventing the default; other positions and keys leave focus alone; Escape focuses the button |
| PerformanceEnhancements.MenuState | src/js/performance-enhancements.js:191-194 | aria-expanded = String(isOpen) and aria-hidden = String(!isOpen), which always differ; the label names the action offered; no other attribute changes |
| PerformanceEnhancements.MenuStateIdempotent | src/js/performance-enhancements.js:191-194 | updating twice with the same value is updating once |
| PerformanceEnhancements.MenuFocusTrap.constructor | src/js/performance-enhancements.js:154-159 | the initial ARIA state is that of a closed menu, with no trap installed |
| PerformanceEnhancements.MenuFocusTrap.UpdateMenuState | src/js/performance-enhancements.js:191-204 | the ARIA state follows isOpen; the keydown trap is installed exactly when the menu is open; an opened menu books focus on its first link |
| PerformanceEnhancements.MenuFocusTrap.OnMenuButtonClick | src/js/performance-enhancements.js:207-212 | the state is read back from the menu's `active` class |
| PerformanceEnhancements.MenuFocusTrap.OnFocusTimer | src/js/performance-enhancements.js:200 | the booked link receives focus |
| PerformanceEnhancements.MenuFocusTrap.OnKeyDown | src/js/performance-enhancements.js:168-189 | without an installed trap nothing happens; with one, the outcome is trapFocus's |
| ImageOptimization.LoadingHint | src/js/image-optimization.js:33-42 | below the fold: loading=lazy and decoding=async; above: fetchpriority=high; only those attributes change |
| ImageOptimization.LoadingHintExclusive | src/js/image-optimization.js:36-42 | exactly one branch applies: lazy exactly when below the fold, high priority exactly when above |
| ImageOptimization.AddNativeLazyLoading | src/js/image-optimization.js:27-44 | each image without `loading` gets its hint; images that have one and all other elements are unchanged |
| ImageOptimization.CopySizes | src/js/image-optimization.js:53-57 | `sizes` is copied from data-sizes only when that is non-empty |
| ImageOptimization.CopySizesIdempotent | src/js/image-optimization.js:53-57 | copying twice is copying once, and data-sizes is kept |
| ImageOptimization.EnhanceResponsiveImages | src/js/image-optimization.js:50-59 | every `img[data-sizes]` is updated individually |
| ImageOptimization.ProgressiveStart | src/js/image-optimization.js:73-75 | the low source is shown with `loading-progressive` |
| ImageOptimization.ProgressiveLoaded | src/js/image-optimization.js:79-83 | on load, src becomes the high source and `loading-progressive` is replaced by `loaded-progressive` |
| ImageOptimization.ProgressiveEndsOnHighSource | src/js/image-optimization.js:70-84 | the swap ends on data-src or else the original src, read before src was overwritten, with attributes and style untouched |
| ImageOptimization.LoadStep | src/js/image-optimization.js:68-86 | one more image extends the loop's account of swapped images and pending loads |
| ImageOptimization.LoadStarts | src/js/image-optimization.js:73-84 | an image with a low source shows it and leaves its high-quality load pending, and the account then covers it |
| ImageOptimization.LoadSkips | src/js/image-optimization.js:73 | an image without a low source is left alone, and the account covers it unchanged |
| ImageOptimization.ProgressiveImages.Load | src/js/image-optimization.js:65-87 | exactly the images with a non-empty data-src-low show their low source, and each has a pending load of its high source |
| ImageOptimization.ProgressiveImages.OnHighLoaded | src/js/image-optimization.js:79-83 | the pending load completes the swap and leaves the pending set |
| ImageOptimization.HandleError | src/js/image-optimization.js:97-113 | an image already marked `image-error` is unchanged; otherwise it gains the mark |
| ImageOptimization.HandleErrorAtMostOnce | src/js/image-optimization.js:98 | every error after the first is ignored, so the fallback is tried at most once |
| ImageOptimization.FirstErrorRemedy | src/js/image-optimization.js:102-110 | on the first error, a non-empty data-fallback whose text differs from src becomes the src, resolved; otherwise the placeholder is shown and alt is replaced only when empty |
| ImageOptimization.RelativeFallbackIsReassigned | src/js/image-optimization.js:102-104 | a relative data-fallback never equals the resolved src, so an image already showing that fallback gets it assigned again and no placeholder: it only gains the mark |
| ImageOptimization.OnImageError | src/js/image-optimization.js:96-115 | the listener applies HandleError to its image |
| ImageOptimization.AspectStyled | src/js/image-optimization.js:158-175 | the image's aspect-ratio style is "width / height"; classes and attributes are unchanged |
| ImageOptimization.HandleImage | src/js/image-optimization.js:152-182 | one loop turn: a dimensioned image is styled, and without `aspect-ratio` support it is moved into a fresh wrapper unless its parent already is one |
| ImageOptimization.PreservedStep | src/js/image-optimization.js:152-182 | one more image keeps the loop's account |
| ImageOptimization.AspectRatios.Preserve | src/js/image-optimization.js:149-183 | each handled image carries its aspect ratio, plus the styles that fill a wrapper exactly when it got one, and an image without both dimensions is unchanged; without support every handled image sits in an `img-wrapper`, so a re-run wraps nothing; an image is re-parented exactly when its parent was not one, into its own new wrapper placed under its old parent; only wrappers are created; nothing else moves |
| ImageOptimization.PreserveAll | src/js/image-optimization.js:152-182 | the loop over the images, on the tree as values, ends with the account of PreservedStep for all of them |
| ImageOptimization.FormatClassExclusive | src/js/image-optimization.js:191-196 | exactly one of `webp` and `no-webp` is added, matching the probe |
| ImageOptimization.MarkFormatSupport | src/js/image-optimization.js:192-196 | the document element gets the format class |
| AdvancedInteractions.Launches | src/js/advanced-interactions.js:71-83 | at most one animation is started per entry |
| AdvancedInteractions.LaunchesExactly | src/js/advanced-interactions.js:73-80 | something is started for an element exactly when an intersecting entry names it |
| AdvancedInteractions.LaunchesFromHits | src/js/advanced-interactions.js:73-80 | everything started names a hit element |
| AdvancedInteractions.DeliverLaunching | src/js/advanced-interactions.js:214-225 | the starting callback shape: Run on the page, the hits unobserved, the starts listed in order |
| AdvancedInteractions.RunWithoutEffect | src/js/advanced-interactions.js:79 | a callback that changes no element leaves the page alone |
| AdvancedInteractions.CounterSettings | src/js/advanced-interactions.js:75-77 | the end is data-target or else the text; the duration is data-duration or else 2000; the start is data-start or else 0 |
| AdvancedInteractions.CounterAnimations.constructor | src/js/advanced-interactions.js:69-85 | every `.counter` is observed |
| AdvancedInteractions.CounterAnimations.Deliver | src/js/advanced-interactions.js:71-83 | each visible counter starts one animation with its settings and is unobserved |
| AdvancedInteractions.FadeInOnScroll.constructor | src/js/advanced-interactions.js:174-188 | every fade-in element is observed |
| AdvancedInteractions.FadeInOnScroll.Deliver | src/js/advanced-interactions.js:176-182 | intersecting elements get `visible` and are unobserved |
| AdvancedInteractions.FadedInOnHit | src/js/advanced-interactions.js:178-180 | an element fades in once per batch if hit, and is untouched otherwise |
| AdvancedInteractions.Typed | src/js/advanced-interactions.js:196-207 | after n timer callbacks the text shown is the prefix of length min(n+1, length) |
| AdvancedInteractions.TypedStep | src/js/advanced-interactions.js:200-204 | each further callback adds the next character until the text is complete, and nothing after that |
| AdvancedInteractions.Typewriter.constructor | src/js/advanced-interactions.js:196-207 | the text is cleared and `type` runs once |
| AdvancedInteractions.Typewriter.Type | src/js/advanced-interactions.js:199-205 | while characters remain, one is appended and the next run is booked; at the end nothing is booked |
| AdvancedInteractions.Typewriter.OnTimer | src/js/advanced-interactions.js:203 | after as many callbacks as the text is long, the content equals the text and no further tick is booked |
| AdvancedInteractions.TypewriterSettings | src/js/advanced-interactions.js:218-219 | the text is data-text or else textContent; the speed is data-speed or else 100 |
| AdvancedInteractions.StartTypewriter | src/js/advanced-interactions.js:197-221 | starting changes only the text, which becomes the first character of the chosen text, or empty for an empty text |
| AdvancedInteractions.TypewriterObserver.constructor | src/js/advanced-interactions.js:212-227 | every `.typewriter` is observed |
| AdvancedInteractions.TypewriterObserver.Deliver | src/js/advanced-interactions.js:214-225 | each visible element starts typing once and is unobserved |
| AdvancedInteractions.SectionReveal.constructor | src/js/advanced-interactions.js:302-305 | every section gets `section-hidden` and is observed |
| AdvancedInteractions.SectionReveal.Deliver | src/js/advanced-interactions.js:292-297 | intersecting sections are shown and none is unobserved |
| AdvancedInteractions.SectionsAfter | src/js/advanced-interactions.js:292-305 | a section gains `section-visible` exactly when hit; nothing else about it changes, so `section-hidden` is never removed |
| AdvancedInteractions.RevealSettles | src/js/advanced-interactions.js:292-297 | hits in later batches leave a shown section as it is |
| AdvancedInteractions.LoadBackground | src/js/advanced-interactions.js:338-339 | the background becomes url(data-bg) and data-bg is removed |
| AdvancedInteractions.BackgroundLoadsOnlyOnce | src/js/advanced-interactions.js:338-340 | a second load would set url(undefined), which is why the element is unobserved |
| AdvancedInteractions.BackgroundLoader.constructor | src/js/advanced-interactions.js:332-347 | every `[data-bg]` element is observed |
| AdvancedInteractions.BackgroundLoader.Deliver | src/js/advanced-interactions.js:334-342 | intersecting elements load their background and are unobserved |
| AdvancedInteractions.AnchorClick | src/js/advanced-interactions.js:144-165 | '#' and '#top' scroll to 0; another href is prevented exactly when it has a target, which then lands 80 px below the top of the window; without a target the default is left alone |
| AdvancedInteractions.TopIgnoresTarget | src/js/advanced-interactions.js:146-151 | '#top' goes to the top even when an element with that id exists |
| AdvancedInteractions.OnNavbarScroll | src/js/advanced-interactions.js:316-321 | the nav has `scrolled` exactly when scrollY > 100 |
| AdvancedInteractions.ScrollThresholdsConflict | src/js/advanced-interactions.js:317-321 | with the mobile menu's threshold of 50 on the same nav, the class depends on which listener runs last exactly for scrollY in (50, 100] |
| AdvancedInteractions.Features | src/js/advanced-interactions.js:483-505 | the always-on features come after the visual ones |
| AdvancedInteractions.FeaturesSelected | src/js/advanced-interactions.js:487-504 | under reduced motion exactly the features with a fallback run (counters, smooth scroll, lazy backgrounds, ripple, toast styles); otherwise all of them do |
| AdvancedInteractions.FeaturesOnce | src/js/advanced-interactions.js:483-505 | no feature is set up twice |
| FaqSchema.EntryOf | src/js/faq-schema.js:18-33 | an item contributes one entry exactly when it has both a question and an answer |
| FaqSchema.Entries | src/js/faq-schema.js:15-34 | there are never more entries than items |
| FaqSchema.GenerateFaqSchema | src/js/faq-schema.js:9-50 | without items the head is unchanged; otherwise exactly one JSON-LD script with the schema of the entries is appended, even when every item is incomplete |
| FaqSchema.EntriesAppend | src/js/faq-schema.js:17-34 | items are handled one after another in document order |
| FaqSchema.EntriesOfCompleteItems | src/js/faq-schema.js:17-34 | complete items give one entry each, in the same order |
| FaqSchema.EntriesOfIncompleteItems | src/js/faq-schema.js:21 | incomplete items contribute nothing, so mainEntity can be empty |
| FaqSchema.EntriesFromItems | src/js/faq-schema.js:21-32 | every entry comes from a complete item, built from its trimmed question and answer |
| FaqSchema.SchemaShape | src/js/faq-schema.js:37-41 | the schema has @context https://schema.org, @type FAQPage and mainEntity = the entries |
| FaqSchema.QuestionShape | src/js/faq-schema.js:25-32 | an entry is a Question whose name is the question and whose acceptedAnswer is an Answer with the answer as its text |
| FaqSchema.EntriesAreQuestions | src/js/faq-schema.js:22-32 | every generated entry is a Question whose name and text have no surrounding white space |

## Left out

- Geometry and layout are inputs, not computed: intersection ratios, rootMargin and threshold, `getBoundingClientRect`, `innerHeight`, `pageYOffset` and `scrollY`.
- The browser's own constraint validation (`required`, `type=email`), which runs before the submit handler on a form without `novalidate`, is not modelled: the handler is taken to see every submit. The written-handler finding is therefore shown on a value that this native check accepts, a single space.
- Time is not modelled. Every `setTimeout`, `requestAnimationFrame` and `requestIdleCallback` becomes a pending slot plus a method that stands for the moment it fires, so durations (100 ms, 150 ms, 500 ms, 1000 ms idle timeout, typewriter speed) do not appear.
- Floating-point visual maths is left out, with the features it drives: `magneticElements`, `parallaxScroll`, `cardTiltEffect`, `cursorTrail`, `addRippleEffect`, `scrollProgress`, `imageZoomEffect`, `createToast`/`addToastStyles`, `animateValue`'s increments, the service-card micro-interactions, the aspect-ratio `paddingBottom` percentage and the `--vh` value of ViewportFix. The feature choice in `init` is still modelled.
- AdvancedInteractions.CounterSettings: returns the raw strings that `parseInt` would read. `parseInt` itself is left out because only animateValue and the timer durations use its result.
- AdvancedInteractions.TypewriterSettings: returns the speed the same way, as the raw string before `parseInt`.
- AdvancedInteractions.Typewriter.Type: steps one Unicode character per run. The source's `charAt` and `length` count UTF-16 code units, so a text with characters outside the Basic Multilingual Plane takes more runs in the source.
- FormValidation.Decide: the rule conditions reproduce the three regular expressions as character predicates. The email scan is proved equal to the pattern; the phone and name predicates are read from their character classes.
- FormValidation.FormPage.Submit: focus, `scrollIntoView` and the spinner markup are left out. The busy button is modelled as `disabled` plus its "Wird gesendet..." text.
- FormValidation.FormPage.SubmitCorrected: the same parts are left out here.
- The `aria-labelledby` wiring at form-validation.js:125-134 is left out because its ids come from `Math.random`.
- The SVG markup of feedback nodes and messages is not modelled. A feedback node is its message key and verdict, and its German text is `MessageText`.
- FormValidation.FormPage.ShowFormMessage: the form-level messages are one document-wide list. Placement is reduced to "first", and the two timers that fade out and remove a message are left out.
- Logging and PerformanceObserver collection are left out: every `console` call, resource timing, long tasks, and `trackImagePerformance`. The ratings are modelled as functions of the measured values, which are inputs.
- CoreWebVitals.ClsObserver.OnEntries: sums exact reals, not IEEE doubles.
- CoreWebVitals.LcpRating: this rating and the other ratings compare exact reals.
- Capability probes are boolean parameters: the WebP image decode (`supportsWebP`, `modernImageFormats`), `'loading' in HTMLImageElement.prototype`, `CSS.supports` and `matchMedia`.
- The prototype patching of `addEventListener` is reduced to its options rewrite (`RewriteOptions`) and the stacking of the four wrappers.
- The rest of core-web-vitals.js is not part of this model: `preventLayoutShift`, `optimizeFID`, `prioritizeResources`, `cacheStaticAssets` (service-worker registration) and `init`'s scheduling.
- Several other parts of mobile-experience.js are not part of this model: TouchFeedback, the SmoothScroll class, PerformanceMonitor, ViewportFix and ContactLinks. They are layout, timing or logging wiring outside the modelled core.
- Several other parts of performance-enhancements.js are not part of this model: `initSmoothScroll` (an anchor rule without the offset; the offset version in advanced-interactions.js is modelled), `enhanceServiceCards` and `logWebVitals`.
- `document.querySelector(href)` with an invalid selector throws in the browser. AdvancedInteractions.AnchorClick takes the lookup's result as an input, so that case is not modelled.
- PerformanceEnhancements.MenuFocusTrap.OnKeyDown: reports Escape's `menuBtn.click()` as a result instead of running the menu button's handler chain.
- `JSON.stringify` formatting is not modelled: the script's content is the JSON value itself.
- ImageOptimization.AspectRatios.Preserve: the tree is modelled by parent links. The wrapper's place among its siblings (`insertBefore`) is not modelled.
- Element creation for prefetch links and scripts is not modelled: a head node is the data it carries.
- ImageOptimization.HandleError: resolving a URL against the document base is a parameter (`resolve`), not computed. Elsewhere an attribute URL assigned to `src` (Dom.MoveDataSrc, the progressive images, the mobile lazy images) is stored as written, that is, taken as already absolute.
- Dom.TypeOf: treats every element other than a textarea and a select as an `<input>`, since the scripts query only those three.

## Findings

| source | as written | input that shows it | evidently intended | confidence | as-written member | corrected member |
|---|---|---|---|---|---|---|
| src/js/form-validation.js:139-147 | `firstInvalidInput` is declared `const` and assigned at the first invalid input, so the handler throws a TypeError. The remaining inputs are not validated, `preventDefault` is never reached and no error message appears: the invalid form is submitted. | a form with one required input whose value is a single space: the browser's `required` check accepts it, and `trim()` makes it empty | `let firstInvalidInput`: every input is validated, submission is blocked, the first invalid input is focused and the message is shown | not executed | FormValidation.InvalidFormIsSubmittedAsWritten | FormValidation.CorrectedFindsTheInputTheOriginalThrowsOn |
| src/js/core-web-vitals.js:333-339 | `lcp > 2500` is tested before `lcp > 4000`, so the Needs Improvement branch is dead and every value above 2500 ms is rated Poor | lcp = 3000 | Good up to 2500 ms, Needs Improvement up to 4000 ms, Poor above | not executed | CoreWebVitals.LcpAsWrittenMisratesMiddleBand | CoreWebVitals.LcpRating |
