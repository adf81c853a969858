/**
 * The part of the browser document that the site scripts read and write: elements as
 * values keyed by identity, the document head, JavaScript's string helpers, and a small
 * JSON value type for the structured data the scripts inject.
 */
module Dom {

  datatype Option<+T> = None | Some(value: T)

  /** A node's identity: two references to one element carry the same id. */
  type ElemId = nat

  /** What the scripts observe of one element. */
  datatype Element = Element(
    tag: string,                 // tagName, upper case ("IMG", "TEXTAREA", ...)
    classes: set<string>,        // classList
    attrs: map<string, string>,  // attributes, including data-* and aria-*
    style: map<string, string>,  // inline style properties; "" is an unset property
    text: string,                // textContent
    value: string,               // value of a form control
    src: string,                 // src property of an image: the URL as it loads
    href: string)                // resolved href of an anchor ("" when it has none)

  function AddClass(e: Element, c: string): Element { e.(classes := e.classes + {c}) }

  function RemoveClass(e: Element, c: string): Element { e.(classes := e.classes - {c}) }

  /** `classList.toggle(c, force)` */
  function ToggleClass(e: Element, c: string, force: bool): Element
  {
    if force then AddClass(e, c) else RemoveClass(e, c)
  }

  function SetAttr(e: Element, name: string, v: string): Element { e.(attrs := e.attrs[name := v]) }

  function RemoveAttr(e: Element, name: string): Element { e.(attrs := e.attrs - {name}) }

  function SetStyle(e: Element, prop: string, v: string): Element { e.(style := e.style[prop := v]) }

  /** An attribute that is present and non-empty: what `el.dataset.x` or `el.getAttribute(x)` is truthy for. */
  predicate HasTruthyAttr(e: Element, name: string)
  {
    name in e.attrs && e.attrs[name] != ""
  }

  /** `el.getAttribute(name) || fallback` */
  function AttrOr(e: Element, name: string, fallback: string): (r: string)
    ensures HasTruthyAttr(e, name) ==> r == e.attrs[name]
    ensures !HasTruthyAttr(e, name) ==> r == fallback
  {
    if HasTruthyAttr(e, name) then e.attrs[name] else fallback
  }

  /** ASCII lower case, the case folding HTML applies to keyword attribute values. */
  function LowerAscii(c: char): (r: char)
    ensures 'A' <= c <= 'Z' ==> r as int == c as int + 32
    ensures !('A' <= c <= 'Z') ==> r == c
  {
    if 'A' <= c <= 'Z' then (c as int + 32) as char else c
  }

  function AsciiLowercase(s: string): (r: string)
    ensures |r| == |s| && forall k :: 0 <= k < |s| ==> r[k] == LowerAscii(s[k])
  {
    seq(|s|, k requires 0 <= k < |s| => LowerAscii(s[k]))
  }

  /** The keywords of the `type` attribute of an HTML `<input>` element. */
  const InputTypes: seq<string> := [
    "button", "checkbox", "color", "date", "datetime-local", "email", "file", "hidden", "image",
    "month", "number", "password", "radio", "range", "reset", "search", "submit", "tel", "text",
    "time", "url", "week" ]

  /** `t` is one of `ks` from position `i` on, looked up one keyword at a time. */
  predicate Among(t: string, ks: seq<string>, i: nat := 0)
    decreases |ks| - i
  {
    i < |ks| && (t == ks[i] || Among(t, ks, i + 1))
  }

  lemma {:induction false} AmongAt(t: string, ks: seq<string>, i: nat, j: nat)
    requires i <= j < |ks| && ks[j] == t
    ensures Among(t, ks, i)
    decreases j - i
  {
    if i < j {
      AmongAt(t, ks, i + 1, j);
    }
  }

  lemma {:induction false} NotAmong(t: string, ks: seq<string>, i: nat)
    requires t !in ks
    ensures !Among(t, ks, i)
    decreases |ks| - i
  {
    if i < |ks| {
      NotAmong(t, ks, i + 1);
    }
  }

  /** The `type` property of a form control the scripts query (`input`, `textarea`, `select`): a
      textarea's is "textarea", a select's "select-one" or "select-multiple", and an input's is its
      `type` attribute in ASCII lower case when that names an input type, "text" when the attribute
      is missing or names none. */
  function TypeOf(e: Element): (r: string)
    ensures e.tag == "TEXTAREA" ==> r == "textarea"
    ensures e.tag == "SELECT" ==> r == if "multiple" in e.attrs then "select-multiple" else "select-one"
    ensures e.tag != "TEXTAREA" && e.tag != "SELECT" ==> r == "text" || Among(r, InputTypes)
    ensures e.tag != "TEXTAREA" && e.tag != "SELECT" && "type" in e.attrs ==>
      r == if Among(AsciiLowercase(e.attrs["type"]), InputTypes) then AsciiLowercase(e.attrs["type"]) else "text"
    ensures e.tag != "TEXTAREA" && e.tag != "SELECT" && "type" !in e.attrs ==> r == "text"
  {
    if e.tag == "TEXTAREA" then "textarea"
    else if e.tag == "SELECT" then (if "multiple" in e.attrs then "select-multiple" else "select-one")
    else if "type" in e.attrs && Among(AsciiLowercase(e.attrs["type"]), InputTypes) then AsciiLowercase(e.attrs["type"])
    else "text"
  }

  /** An input with no attributes but `type`. */
  function InputOfType(t: string): Element
  {
    Element("INPUT", {}, map["type" := t], map[], "", "", "", "")
  }

  /** The type keyword is matched without regard to ASCII case. */
  lemma TypeKeywordsIgnoreCase()
    ensures TypeOf(InputOfType("Email")) == "email"
    ensures TypeOf(InputOfType("CHECKBOX")) == "checkbox"
  {
    assert AsciiLowercase("Email") == "email";
    AmongAt("email", InputTypes, 0, 5);
    assert AsciiLowercase("CHECKBOX") == "checkbox";
    AmongAt("checkbox", InputTypes, 0, 1);
  }

  /** A keyword that names no input type reads as a text input. */
  lemma UnknownTypeIsText()
    ensures TypeOf(InputOfType("phone")) == "text"
  {
    assert AsciiLowercase("phone") == "phone";
    NotAmong("phone", InputTypes, 0);
  }

  /** `s.startsWith(p)` */
  predicate StartsWith(s: string, p: string)
  {
    |p| <= |s| && s[..|p|] == p
  }

  /** The prefetch filter: the URL starts with the page's origin and has no fragment. */
  predicate ShouldPrefetch(url: string, origin: string)
  {
    StartsWith(url, origin) && '#' !in url
  }

  /** Lazy loading by data-src: a truthy data-src becomes the src and the attribute is dropped. */
  function MoveDataSrc(e: Element): (r: Element)
    ensures HasTruthyAttr(e, "data-src") ==> r.src == e.attrs["data-src"] && "data-src" !in r.attrs && r.attrs == e.attrs - {"data-src"}
    ensures !HasTruthyAttr(e, "data-src") ==> r == e
    ensures r.classes == e.classes && r.style == e.style
  {
    if HasTruthyAttr(e, "data-src") then RemoveAttr(e.(src := e.attrs["data-src"]), "data-src") else e
  }

  /** A second delivery finds no data-src and changes nothing. */
  lemma MoveDataSrcIdempotent(e: Element)
    ensures MoveDataSrc(MoveDataSrc(e)) == MoveDataSrc(e)
  {
  }

  /** The class the WebP probe puts on the document element: `webp` when the probe image decoded,
      `no-webp` otherwise — always exactly one of the two. */
  function WithFormatClass(root: Element, webpSupported: bool): (r: Element)
    ensures r.classes == root.classes + {if webpSupported then "webp" else "no-webp"}
    ensures r == root.(classes := r.classes)
  {
    AddClass(root, if webpSupported then "webp" else "no-webp")
  }

  /** `String(b)` */
  function BoolString(b: bool): string { if b then "true" else "false" }

  /** Sequences without repeated elements, as every NodeList is. */
  predicate Distinct<T(==)>(s: seq<T>)
  {
    forall i, j :: 0 <= i < j < |s| ==> s[i] != s[j]
  }

  /** The elements of a NodeList, as a set. */
  function Elements(ids: seq<ElemId>): set<ElemId>
  {
    set x | x in ids
  }

  /** Walking a NodeList without repeats, the next element has not been seen yet. */
  lemma NextUnseen(ids: seq<ElemId>, i: nat)
    requires Distinct(ids) && i < |ids|
    ensures ids[i] !in Elements(ids[..i])
    ensures Elements(ids[..i + 1]) == Elements(ids[..i]) + {ids[i]}
  {
    assert ids[..i + 1] == ids[..i] + [ids[i]];
    assert forall k :: 0 <= k < i ==> ids[..i][k] == ids[k];
  }

  // ---------------------------------------------------------------------------
  // JavaScript strings
  // ---------------------------------------------------------------------------

  /** The characters ECMAScript counts as WhiteSpace or LineTerminator; both `\s` and `trim()` use this set. */
  predicate IsSpace(c: char)
  {
    var n := c as int;
    n == 0x09 || n == 0x0A || n == 0x0B || n == 0x0C || n == 0x0D || n == 0x20 || n == 0xA0 ||
    n == 0x1680 || (0x2000 <= n <= 0x200A) || n == 0x2028 || n == 0x2029 || n == 0x202F ||
    n == 0x205F || n == 0x3000 || n == 0xFEFF
  }

  /** Leading white space removed. */
  function TrimStart(s: string): (r: string)
    ensures |r| <= |s|
    ensures r == [] || !IsSpace(r[0])
    ensures forall k :: 0 <= k < |s| - |r| ==> IsSpace(s[k])
  {
    if |s| > 0 && IsSpace(s[0]) then TrimStart(s[1..]) else s
  }

  /** Trailing white space removed. */
  function TrimEnd(s: string): (r: string)
    ensures |r| <= |s|
    ensures r == [] || !IsSpace(r[|r| - 1])
    ensures forall k :: |r| <= k < |s| ==> IsSpace(s[k])
  {
    if |s| > 0 && IsSpace(s[|s| - 1]) then TrimEnd(s[..|s| - 1]) else s
  }

  /** TrimStart keeps a suffix of its input. */
  lemma {:induction false} TrimStartIsSuffix(s: string)
    ensures TrimStart(s) == s[|s| - |TrimStart(s)|..]
  {
    if |s| > 0 && IsSpace(s[0]) {
      TrimStartIsSuffix(s[1..]);
      assert s[1..][|s| - 1 - |TrimStart(s)|..] == s[|s| - |TrimStart(s)|..];
    }
  }

  /** TrimEnd keeps a prefix of its input. */
  lemma {:induction false} TrimEndIsPrefix(s: string)
    ensures TrimEnd(s) == s[..|TrimEnd(s)|]
  {
    if |s| > 0 && IsSpace(s[|s| - 1]) {
      TrimEndIsPrefix(s[..|s| - 1]);
      assert s[..|s| - 1][..|TrimEnd(s)|] == s[..|TrimEnd(s)|];
    }
  }

  /** `String.prototype.trim`: neither end of the result is white space (what was cut off is
      white space by TrimStart and TrimEnd, and TrimIsSlice places the result in the input). */
  function Trim(s: string): (r: string)
    ensures |r| <= |s|
    ensures r == [] || (!IsSpace(r[0]) && !IsSpace(r[|r| - 1]))
  {
    var t := TrimStart(s);
    var r := TrimEnd(t);
    TrimEndIsPrefix(t);
    assert r != [] ==> r[0] == t[0];
    r
  }

  /** The trimmed string is the slice of the input that starts at `a`, after the leading white
      space; every character outside that slice is white space. */
  lemma TrimIsSlice(s: string) returns (a: nat)
    ensures a + |Trim(s)| <= |s| && Trim(s) == s[a..a + |Trim(s)|]
    ensures forall k :: 0 <= k < a ==> IsSpace(s[k])
    ensures forall k :: a + |Trim(s)| <= k < |s| ==> IsSpace(s[k])
  {
    var t := TrimStart(s);
    a := |s| - |t|;
    TrimStartIsSuffix(s);
    TrailingSpace(s, a, t, TrimEnd(t));
  }

  /** What TrimEnd cuts off the suffix `t` of `s` that starts at `a` is white space of `s`. */
  lemma TrailingSpace(s: string, a: nat, t: string, r: string)
    requires a <= |s| && t == s[a..] && r == TrimEnd(t)
    ensures a + |r| <= |s| && r == s[a..a + |r|]
    ensures forall k :: a + |r| <= k < |s| ==> IsSpace(s[k])
  {
    TrimEndIsPrefix(t);
    assert t[..|r|] == s[a..a + |r|];
    forall k | a + |r| <= k < |s| ensures IsSpace(s[k]) {
      assert s[k] == t[k - a];
    }
  }

  /** Trimming twice is trimming once. */
  lemma {:induction false} TrimIdempotent(s: string)
    ensures Trim(Trim(s)) == Trim(s)
  {
    var r := Trim(s);
    TrimStartNoop(r);
    TrimEndNoop(r);
  }

  lemma TrimStartNoop(s: string)
    requires s == [] || !IsSpace(s[0])
    ensures TrimStart(s) == s
  {
  }

  lemma TrimEndNoop(s: string)
    requires s == [] || !IsSpace(s[|s| - 1])
    ensures TrimEnd(s) == s
  {
  }

  /** `String.prototype.length`, which counts UTF-16 code units: a character outside the
      Basic Multilingual Plane counts twice. */
  function CodeUnits(s: string): (n: nat)
    ensures |s| <= n <= 2 * |s|
  {
    if s == [] then 0 else (if s[0] as int > 0xFFFF then 2 else 1) + CodeUnits(s[1..])
  }

  // ---------------------------------------------------------------------------
  // The document
  // ---------------------------------------------------------------------------

  /** A JSON value as `JSON.stringify` would serialise it; members keep their insertion order. */
  datatype Json = JString(str: string) | JArray(items: seq<Json>) | JObject(members: seq<(string, Json)>)

  /** The member `key` of a JSON object, if it has one. */
  function Member(j: Json, key: string): Option<Json>
  {
    if !j.JObject? then None else Lookup(j.members, key)
  }

  function Lookup(ms: seq<(string, Json)>, key: string): Option<Json>
  {
    if ms == [] then None else if ms[0].0 == key then Some(ms[0].1) else Lookup(ms[1..], key)
  }

  /** The nodes the scripts append to `document.head`. */
  datatype HeadNode =
    | PrefetchLink(href: string, asDocument: bool)  // <link rel="prefetch" href [as="document"]>
    | JsonLdScript(content: Json)                  // <script type="application/ld+json">

  /** The document: every element by identity, and the nodes appended to its head. */
  class Page {
    var elems: map<ElemId, Element>
    var head: seq<HeadNode>

    constructor (elems: map<ElemId, Element>)
      ensures this.elems == elems && head == []
    {
      this.elems := elems;
      head := [];
    }
  }

  /** `nodeList.forEach(el => ...)` for a callback that only updates the element itself: `f`
      receives the element's id and its state and returns its new state. */
  method UpdateEach(page: Page, ids: seq<ElemId>, f: (ElemId, Element) -> Element)
    requires Distinct(ids)
    modifies page`elems
    ensures page.elems.Keys == old(page.elems).Keys
    ensures forall x :: x in old(page.elems) ==>
      page.elems[x] == if x in ids then f(x, old(page.elems)[x]) else old(page.elems)[x]
  {
    var i := 0;
    while i < |ids|
      invariant 0 <= i <= |ids|
      invariant page.elems.Keys == old(page.elems).Keys
      invariant forall x :: x in old(page.elems) ==>
        page.elems[x] == if x in ids[..i] then f(x, old(page.elems)[x]) else old(page.elems)[x]
    {
      var id := ids[i];
      assert id !in ids[..i];
      if id in page.elems {
        page.elems := page.elems[id := f(id, page.elems[id])];
      }
      assert ids[..i + 1] == ids[..i] + [id];
      i := i + 1;
    }
    assert ids[..|ids|] == ids;
  }
}
