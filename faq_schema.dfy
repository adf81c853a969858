/**
 * FAQ schema (src/js/faq-schema.js): the FAQPage structured data built from the page's
 * `.faq-item` elements and injected into the head as one JSON-LD script.
 */
module FaqSchema {
  import opened Dom

  /** One `.faq-item`: the text of its `.faq-question h3` and of its `.faq-answer-content`, when
      the item has such an element. */
  datatype FaqItem = FaqItem(question: Option<string>, answer: Option<string>)

  predicate Complete(item: FaqItem)
  {
    item.question.Some? && item.answer.Some?
  }

  /** `{"@type": "Question", "name": …, "acceptedAnswer": {"@type": "Answer", "text": …}}` */
  function QuestionEntry(question: string, answer: string): Json
  {
    JObject([("@type", JString("Question")), ("name", JString(question)),
             ("acceptedAnswer", JObject([("@type", JString("Answer")), ("text", JString(answer))]))])
  }

  /** The entry an item contributes: one for a complete item, from the trimmed texts, none otherwise. */
  function EntryOf(item: FaqItem): (r: seq<Json>)
    ensures |r| == if Complete(item) then 1 else 0
  {
    if Complete(item) then [QuestionEntry(Trim(item.question.value), Trim(item.answer.value))] else []
  }

  /** What a forEach that pushes `f(x)` for each `x` collects, in order. */
  function Collect<T, U>(xs: seq<T>, f: T -> seq<U>): seq<U>
  {
    if xs == [] then [] else Collect(xs[..|xs| - 1], f) + f(xs[|xs| - 1])
  }

  /** `faqEntries` after the forEach over `items`. */
  function Entries(items: seq<FaqItem>): (r: seq<Json>)
    ensures |r| <= |items|
  {
    CollectShort(items, EntryOf);
    Collect(items, EntryOf)
  }

  /** `{"@context": "https://schema.org", "@type": "FAQPage", "mainEntity": entries}` */
  function Schema(entries: seq<Json>): Json
  {
    JObject([("@context", JString("https://schema.org")), ("@type", JString("FAQPage")), ("mainEntity", JArray(entries))])
  }

  /** generateFAQSchema: nothing happens without FAQ items; otherwise exactly one JSON-LD script is
      appended to the head, even when no item is complete. */
  method GenerateFaqSchema(page: Page, items: seq<FaqItem>)
    modifies page`head
    ensures items == [] ==> page.head == old(page.head)
    ensures items != [] ==> page.head == old(page.head) + [JsonLdScript(Schema(Entries(items)))]
  {
    if |items| == 0 {
      return;
    }
    var entries: seq<Json> := [];
    var i := 0;
    while i < |items|
      invariant 0 <= i <= |items|
      invariant entries == Entries(items[..i])
    {
      var item := items[i];
      if item.question.Some? && item.answer.Some? {
        var question := Trim(item.question.value);
        var answer := Trim(item.answer.value);
        entries := entries + [QuestionEntry(question, answer)];
      }
      assert items[..i + 1][..i] == items[..i];
      i := i + 1;
    }
    assert items[..|items|] == items;
    page.head := page.head + [JsonLdScript(Schema(entries))];
  }

  // ---------------------------------------------------------------------------
  // What the entries are
  // ---------------------------------------------------------------------------

  /** Items are handled one after the other, in document order. */
  lemma EntriesAppend(a: seq<FaqItem>, b: seq<FaqItem>)
    ensures Entries(a + b) == Entries(a) + Entries(b)
  {
    CollectAppend(a, b, EntryOf);
  }

  /** When every item is complete there is one entry per item, in the same order. */
  lemma EntriesOfCompleteItems(items: seq<FaqItem>)
    requires forall i :: 0 <= i < |items| ==> Complete(items[i])
    ensures |Entries(items)| == |items|
    ensures forall i :: 0 <= i < |items| ==> [Entries(items)[i]] == EntryOf(items[i])
  {
    forall i | 0 <= i < |items|
      ensures |Entries(items)| == |items| && [Entries(items)[i]] == EntryOf(items[i])
    {
      CollectSingletons(items, EntryOf, i);
      assert |EntryOf(items[i])| == 1;
    }
    if items == [] {
      assert Entries(items) == [];
    }
  }

  /** Incomplete items contribute nothing; when no item is complete, `mainEntity` is empty. */
  lemma EntriesOfIncompleteItems(items: seq<FaqItem>)
    requires forall i :: 0 <= i < |items| ==> !Complete(items[i])
    ensures Entries(items) == []
  {
    CollectNothing(items, EntryOf);
  }

  lemma {:induction false} CollectShort<T, U>(xs: seq<T>, f: T -> seq<U>)
    requires forall x :: x in xs ==> |f(x)| <= 1
    ensures |Collect(xs, f)| <= |xs|
  {
    if xs != [] {
      CollectShort(xs[..|xs| - 1], f);
    }
  }

  lemma {:induction false} CollectAppend<T, U>(a: seq<T>, b: seq<T>, f: T -> seq<U>)
    ensures Collect(a + b, f) == Collect(a, f) + Collect(b, f)
    decreases |b|
  {
    if b == [] {
      assert a + b == a;
    } else {
      var init := b[..|b| - 1];
      assert (a + b)[..|a + b| - 1] == a + init;
      CollectAppend(a, init, f);
    }
  }

  lemma {:induction false} CollectSingletons<T, U>(xs: seq<T>, f: T -> seq<U>, k: nat)
    requires forall i :: 0 <= i < |xs| ==> |f(xs[i])| == 1
    requires k < |xs|
    ensures |Collect(xs, f)| == |xs| && Collect(xs, f)[k] == f(xs[k])[0]
  {
    var init := xs[..|xs| - 1];
    assert forall i :: 0 <= i < |init| ==> init[i] == xs[i];
    if k < |init| {
      CollectSingletons(init, f, k);
    } else if init != [] {
      CollectSingletons(init, f, 0);
    }
  }

  lemma {:induction false} CollectNothing<T, U>(xs: seq<T>, f: T -> seq<U>)
    requires forall i :: 0 <= i < |xs| ==> f(xs[i]) == []
    ensures Collect(xs, f) == []
  {
    if xs != [] {
      var init := xs[..|xs| - 1];
      assert forall i :: 0 <= i < |init| ==> init[i] == xs[i];
      CollectNothing(init, f);
    }
  }

  /** Every entry comes from a complete item, built from its trimmed question and answer. */
  lemma {:induction false} EntriesFromItems(items: seq<FaqItem>, k: nat)
    requires k < |Entries(items)|
    ensures exists i :: 0 <= i < |items| && Complete(items[i]) &&
                        Entries(items)[k] == QuestionEntry(Trim(items[i].question.value), Trim(items[i].answer.value))
  {
    var init := items[..|items| - 1];
    var last := items[|items| - 1];
    if k < |Entries(init)| {
      EntriesFromItems(init, k);
      var i :| 0 <= i < |init| && Complete(init[i]) &&
        Entries(init)[k] == QuestionEntry(Trim(init[i].question.value), Trim(init[i].answer.value));
      assert init[i] == items[i];
    } else {
      assert Entries(items)[k] == EntryOf(last)[0];
    }
  }

  // ---------------------------------------------------------------------------
  // Reading the schema back
  // ---------------------------------------------------------------------------

  /** The schema's header members, and `mainEntity` holding the entries as given. */
  lemma SchemaShape(entries: seq<Json>)
    ensures Member(Schema(entries), "@context") == Some(JString("https://schema.org"))
    ensures Member(Schema(entries), "@type") == Some(JString("FAQPage"))
    ensures Member(Schema(entries), "mainEntity") == Some(JArray(entries))
  {
    var ms := Schema(entries).members;
    assert ms[1..] == [ms[1], ms[2]] && ms[1..][1..] == [ms[2]];
    assert Lookup(ms, "@type") == Lookup(ms[1..], "@type") == Some(JString("FAQPage"));
    assert Lookup(ms, "mainEntity") == Lookup(ms[1..][1..], "mainEntity") == Some(JArray(entries));
  }

  /** An entry is a Question whose name is the question and whose acceptedAnswer is an Answer with
      the answer as its text. */
  lemma QuestionShape(question: string, answer: string)
    ensures Member(QuestionEntry(question, answer), "@type") == Some(JString("Question"))
    ensures Member(QuestionEntry(question, answer), "name") == Some(JString(question))
    ensures var a := Member(QuestionEntry(question, answer), "acceptedAnswer");
      a.Some? && Member(a.value, "@type") == Some(JString("Answer")) && Member(a.value, "text") == Some(JString(answer))
  {
    var ms := QuestionEntry(question, answer).members;
    assert ms[1..] == [ms[1], ms[2]] && ms[1..][1..] == [ms[2]];
    assert Lookup(ms, "name") == Lookup(ms[1..], "name") == Some(JString(question));
    assert Lookup(ms, "acceptedAnswer") == Lookup(ms[1..][1..], "acceptedAnswer") == Some(ms[2].1);
    var ams := ms[2].1.members;
    assert ams[1..] == [("text", JString(answer))];
    assert Lookup(ams, "text") == Lookup(ams[1..], "text");
  }

  /** The generated entries are Questions with Answers, and their names and texts carry no
      surrounding white space. */
  lemma EntriesAreQuestions(items: seq<FaqItem>, k: nat)
    requires k < |Entries(items)|
    ensures Member(Entries(items)[k], "@type") == Some(JString("Question"))
    ensures exists q, a :: Entries(items)[k] == QuestionEntry(q, a) && Trim(q) == q && Trim(a) == a
  {
    EntriesFromItems(items, k);
    var i :| 0 <= i < |items| && Complete(items[i]) &&
      Entries(items)[k] == QuestionEntry(Trim(items[i].question.value), Trim(items[i].answer.value));
    var q, a := Trim(items[i].question.value), Trim(items[i].answer.value);
    TrimIdempotent(items[i].question.value);
    TrimIdempotent(items[i].answer.value);
    QuestionShape(q, a);
  }
}
