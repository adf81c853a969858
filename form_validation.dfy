/**
 * Form validation (src/js/form-validation.js): the ordered rule chain that picks one verdict and
 * message for an input, the rewrite of the input's classes and aria-invalid and of its form
 * group's feedback node, the debounced live re-validation, the submit handler and the form-level
 * message.
 */
module FormValidation {
  import opened Dom

  // ---------------------------------------------------------------------------
  // The three patterns, as character predicates
  // ---------------------------------------------------------------------------

  /** No white space and no '@': what `[^\s@]+` accepts character by character. */
  predicate NoSpaceOrAt(t: string)
  {
    forall k :: 0 <= k < |t| ==> !IsSpace(t[k]) && t[k] != '@'
  }

  /** The position of the first `c` in `s`. */
  function IndexOf(s: string, c: char): (r: Option<nat>)
    ensures r.None? ==> forall k :: 0 <= k < |s| ==> s[k] != c
    ensures r.Some? ==> r.value < |s| && s[r.value] == c && forall k :: 0 <= k < r.value ==> s[k] != c
  {
    if s == [] then None
    else if s[0] == c then Some(0)
    else match IndexOf(s[1..], c)
      case None => None
      case Some(i) => Some(i + 1)
  }

  /** `/^[^\s@]+@[^\s@]+\.[^\s@]+$/.test(s)` as a scan: a non-empty part before the first '@',
      and after it a part with no white space and no '@' that holds a '.' neither first nor last. */
  predicate IsEmail(s: string)
  {
    match IndexOf(s, '@')
    case None => false
    case Some(at) =>
      var domain := s[at + 1..];
      0 < at && NoSpaceOrAt(s[..at]) && NoSpaceOrAt(domain) && |domain| >= 3 && '.' in domain[1..|domain| - 1]
  }

  /** The email pattern read as a regular expression: the string splits as a + "@" + b + "." + c
      with a, b and c non-empty and free of white space and '@'. */
  ghost predicate EmailPattern(s: string)
  {
    exists i, j :: EmailSplit(s, i, j)
  }

  /** s == s[..i] + "@" + s[i + 1..j] + "." + s[j + 1..] with all three parts as `[^\s@]+` wants them. */
  predicate EmailSplit(s: string, i: int, j: int)
  {
    0 < i && i + 1 < j && j + 1 < |s| && s[i] == '@' && s[j] == '.' &&
    NoSpaceOrAt(s[..i]) && NoSpaceOrAt(s[i + 1..j]) && NoSpaceOrAt(s[j + 1..])
  }

  /** Every string the scan accepts matches the regular expression. */
  lemma EmailScanSound(s: string)
    requires IsEmail(s)
    ensures EmailPattern(s)
  {
    var at := IndexOf(s, '@').value;
    var domain := s[at + 1..];
    var inner := domain[1..|domain| - 1];
    var p :| 0 <= p < |inner| && inner[p] == '.';
    var j := at + 2 + p;
    assert s[j] == '.';
    var b, c := s[at + 1..j], s[j + 1..];
    forall k | 0 <= k < |b| ensures !IsSpace(b[k]) && b[k] != '@' {
      assert b[k] == domain[k];
    }
    forall k | 0 <= k < |c| ensures !IsSpace(c[k]) && c[k] != '@' {
      assert c[k] == domain[k + p + 2];
    }
    assert NoSpaceOrAt(b) && NoSpaceOrAt(c);
    assert EmailSplit(s, at, j);
  }

  lemma FirstAt(s: string, i: nat)
    requires i < |s| && s[i] == '@' && NoSpaceOrAt(s[..i])
    ensures IndexOf(s, '@') == Some(i)
  {
    var a := s[..i];
    forall k | 0 <= k < i ensures s[k] != '@' {
      assert s[k] == a[k];
    }
  }

  /** The part after the '@' is made of the two dot-separated parts and the dot between them. */
  lemma DomainParts(s: string, i: nat, j: nat)
    requires i < j < |s| && s[j] == '.' && NoSpaceOrAt(s[i + 1..j]) && NoSpaceOrAt(s[j + 1..])
    ensures NoSpaceOrAt(s[i + 1..])
  {
    var domain, b, c := s[i + 1..], s[i + 1..j], s[j + 1..];
    forall k | 0 <= k < |domain| ensures !IsSpace(domain[k]) && domain[k] != '@' {
      if k < j - i - 1 {
        assert domain[k] == b[k];
      } else if k > j - i - 1 {
        assert domain[k] == c[k - (j - i)];
      } else {
        assert domain[k] == s[j];
      }
    }
  }

  /** Every string the regular expression matches is accepted by the scan. */
  lemma EmailScanComplete(s: string)
    requires EmailPattern(s)
    ensures IsEmail(s)
  {
    var i, j :| EmailSplit(s, i, j);
    FirstAt(s, i);
    DomainParts(s, i, j);
    var domain := s[i + 1..];
    assert domain[1..|domain| - 1][j - i - 2] == '.';
  }

  /** The scan accepts exactly the strings the regular expression matches. */
  lemma EmailScanMatchesPattern(s: string)
    ensures IsEmail(s) <==> EmailPattern(s)
  {
    if IsEmail(s) { EmailScanSound(s); }
    if EmailPattern(s) { EmailScanComplete(s); }
  }

  predicate IsPhoneChar(c: char)
  {
    ('0' <= c <= '9') || IsSpace(c) || c == '+' || c == '-' || c == '(' || c == ')'
  }

  /** `/^[\d\s\+\-\(\)]+$/.test(s)` */
  predicate IsPhone(s: string)
  {
    |s| > 0 && forall k :: 0 <= k < |s| ==> IsPhoneChar(s[k])
  }

  predicate IsNameChar(c: char)
  {
    ('a' <= c <= 'z') || ('A' <= c <= 'Z') || c == 'ä' || c == 'ö' || c == 'ü' || c == 'Ä' || c == 'Ö' ||
    c == 'Ü' || c == 'ß' || IsSpace(c) || c == '-'
  }

  /** `/^[a-zA-ZäöüÄÖÜß\s\-]{2,}$/.test(s)`; every accepted character is one UTF-16 code unit,
      so counting characters is counting code units here. */
  predicate IsName(s: string)
  {
    |s| >= 2 && forall k :: 0 <= k < |s| ==> IsNameChar(s[k])
  }

  // ---------------------------------------------------------------------------
  // The rule chain
  // ---------------------------------------------------------------------------

  /** The message keys; their German texts are MessageText. */
  datatype Message = NoMessage | Required | InvalidEmail | InvalidPhone | InvalidName | TooShort(min: nat) | LooksGood

  function DecimalString(n: nat): string
  {
    if n < 10 then ["0123456789"[n]] else DecimalString(n / 10) + ["0123456789"[n % 10]]
  }

  function MessageText(m: Message): string
  {
    match m
    case NoMessage => ""
    case Required => "Dieses Feld ist erforderlich"
    case InvalidEmail => "Bitte geben Sie eine gültige E-Mail-Adresse ein"
    case InvalidPhone => "Bitte geben Sie eine gültige Telefonnummer ein"
    case InvalidName => "Bitte geben Sie einen gültigen Namen ein"
    case TooShort(min) => "Mindestens " + DecimalString(min) + " Zeichen erforderlich"
    case LooksGood => "Sieht gut aus!"
  }

  /** The minimum length of a textarea's trimmed value. */
  const MinTextareaLength := 10

  /** What validateField reads of an input; `value` is the trimmed value. */
  datatype Control = Control(value: string, inputType: string, required: bool, name: string, tag: string)

  function ControlOf(e: Element): Control
  {
    Control(Trim(e.value), TypeOf(e), "required" in e.attrs, AttrOr(e, "name", ""), e.tag)
  }

  datatype Verdict = Verdict(isValid: bool, message: Message)

  /** One rule of the chain: whether it rejects the control, and the message it gives. */
  datatype Rule = Rule(fails: bool, message: Message)

  /** The rules in the order the chain tries them. */
  function Rules(c: Control): seq<Rule>
  {
    [ Rule(c.required && c.value == "", Required),
      Rule(c.inputType == "email" && c.value != "" && !IsEmail(c.value), InvalidEmail),
      Rule(c.inputType == "tel" && c.value != "" && !IsPhone(c.value), InvalidPhone),
      Rule(c.name == "name" && c.value != "" && !IsName(c.value), InvalidName),
      Rule(c.tag == "TEXTAREA" && c.value != "" && CodeUnits(c.value) < MinTextareaLength, TooShort(MinTextareaLength)) ]
  }

  /** The verdict of the chain: a valid verdict has a message exactly when the value is non-empty,
      and an empty value is rejected exactly when the input is required. */
  function Decide(c: Control): (v: Verdict)
    ensures v.isValid ==> v.message == if c.value != "" then LooksGood else NoMessage
    ensures c.value == "" ==> (v.isValid <==> !c.required)
    ensures MessageText(v.message) == "" <==> v.isValid && c.value == ""
  {
    if c.required && c.value == "" then Verdict(false, Required)
    else if c.inputType == "email" && c.value != "" && !IsEmail(c.value) then Verdict(false, InvalidEmail)
    else if c.inputType == "tel" && c.value != "" && !IsPhone(c.value) then Verdict(false, InvalidPhone)
    else if c.name == "name" && c.value != "" && !IsName(c.value) then Verdict(false, InvalidName)
    else if c.tag == "TEXTAREA" && c.value != "" && CodeUnits(c.value) < MinTextareaLength then Verdict(false, TooShort(MinTextareaLength))
    else if c.value != "" then Verdict(true, LooksGood)
    else Verdict(true, NoMessage)
  }

  /** `<input type="Email" required>` holding "abc": the type keyword is read in lower case, so the
      email rule applies and rejects the value. */
  lemma MixedCaseEmailTypeIsChecked()
    ensures var e := Element("INPUT", {}, map["type" := "Email", "required" := ""], map[], "", "abc", "", "");
      Decide(ControlOf(e)) == Verdict(false, InvalidEmail)
  {
    MixedCaseEmailControl();
    assert IndexOf("abc", '@') == None by {
      assert IndexOf("c", '@') == None by { assert "c"[1..] == []; }
      assert "abc"[1..] == "bc" && "bc"[1..] == "c";
    }
  }

  /** The control read from that input: its type keyword in lower case, its value trimmed. */
  lemma MixedCaseEmailControl()
    ensures var e := Element("INPUT", {}, map["type" := "Email", "required" := ""], map[], "", "abc", "", "");
      ControlOf(e) == Control("abc", "email", true, "", "INPUT")
  {
    assert AsciiLowercase("Email") == "email";
    AmongAt("email", InputTypes, 0, 5);
    TrimStartNoop("abc");
    TrimEndNoop("abc");
  }

  /** The input is valid exactly when no rule rejects it. */
  lemma ValidIffNoRuleFails(c: Control)
    ensures Decide(c).isValid <==> forall k :: 0 <= k < |Rules(c)| ==> !Rules(c)[k].fails
  {
    var rs := Rules(c);
    if !Decide(c).isValid {
      if rs[0].fails {} else if rs[1].fails {} else if rs[2].fails {} else if rs[3].fails {} else {
        assert rs[4].fails;
      }
    }
  }

  /** The first rule that rejects the input decides the verdict and its message; later rules are
      not consulted. */
  lemma FirstFailingRuleDecides(c: Control, k: nat)
    requires k < |Rules(c)| && Rules(c)[k].fails
    requires forall j :: 0 <= j < k ==> !Rules(c)[j].fails
    ensures Decide(c) == Verdict(false, Rules(c)[k].message)
  {
    var rs := Rules(c);
    if k >= 1 { assert !rs[0].fails; }
    if k >= 2 { assert !rs[1].fails; }
    if k >= 3 { assert !rs[2].fails; }
    if k >= 4 { assert !rs[3].fails; }
  }

  // ---------------------------------------------------------------------------
  // validateField on the document
  // ---------------------------------------------------------------------------

  /** A `<div class="form-feedback valid|invalid">` node with its message. */
  datatype Feedback = Feedback(message: Message, valid: bool)

  /** The elements, and the `.form-feedback` nodes of each form group in document order. */
  datatype FormState = FormState(elems: map<ElemId, Element>, feedback: map<ElemId, seq<Feedback>>)

  function FeedbackOf(fb: map<ElemId, seq<Feedback>>, g: ElemId): seq<Feedback>
  {
    if g in fb then fb[g] else []
  }

  /** `existing.remove()` of the first node found, if any. */
  function DropFirst(fb: seq<Feedback>): seq<Feedback>
  {
    if fb == [] then [] else fb[1..]
  }

  /** The input's classes and aria-invalid after the rewrite. */
  function Styled(e: Element, isValid: bool, hasValue: bool): Element
  {
    if hasValue then
      SetAttr(ToggleClass(ToggleClass(e, "valid", isValid), "invalid", !isValid), "aria-invalid", BoolString(!isValid))
    else
      RemoveAttr(RemoveClass(RemoveClass(e, "valid"), "invalid"), "aria-invalid")
  }

  /** The verdict classes and aria-invalid that Styled leaves on an input. */
  lemma StyledMarks(e: Element, isValid: bool, hasValue: bool)
    ensures var e' := Styled(e, isValid, hasValue);
      e'.classes - {"valid", "invalid"} == e.classes - {"valid", "invalid"} &&
      (hasValue ==>
        ("valid" in e'.classes <==> isValid) && ("invalid" in e'.classes <==> !isValid) &&
        "aria-invalid" in e'.attrs && e'.attrs["aria-invalid"] == BoolString(!isValid)) &&
      (!hasValue ==> "valid" !in e'.classes && "invalid" !in e'.classes && "aria-invalid" !in e'.attrs)
  {
  }

  datatype Validation = Validation(state: FormState, ok: bool)

  /** validateField(input) on the state; `groupOf` maps an input to its closest `.form-group`. */
  function Validate(s: FormState, groupOf: map<ElemId, ElemId>, id: ElemId): (r: Validation)
    requires id in s.elems
    ensures r.state.elems.Keys == s.elems.Keys
    ensures forall x :: x in s.elems && x != id ==> r.state.elems[x] == s.elems[x]
    ensures id !in groupOf ==> r == Validation(s, true)
    ensures id in groupOf ==> r.ok == Decide(ControlOf(s.elems[id])).isValid
  {
    if id !in groupOf then Validation(s, true)
    else
      var c := ControlOf(s.elems[id]);
      Validation(Rewrite(s, id, groupOf[id], c.value != "", Decide(c)), Decide(c).isValid)
  }

  /** The input `x` is rejected by validateField on the state `s`: it sits in a form group and
      the rule chain rejects its current control. */
  predicate Fails(s: FormState, groupOf: map<ElemId, ElemId>, x: ElemId)
  {
    x in groupOf && x in s.elems && !Decide(ControlOf(s.elems[x])).isValid
  }

  /** The two states hold the same elements, and each of them reads as the same control. */
  predicate SameControls(s: FormState, t: FormState)
  {
    t.elems.Keys == s.elems.Keys && forall x {:trigger ControlOf(t.elems[x])} :: x in s.elems ==> ControlOf(t.elems[x]) == ControlOf(s.elems[x])
  }

  /** The control is read from the value, the tag and attributes other than aria-invalid. */
  lemma ControlIgnoresAriaInvalid(e: Element, e': Element)
    requires e'.value == e.value && e'.tag == e.tag
    requires e'.attrs - {"aria-invalid"} == e.attrs - {"aria-invalid"}
    ensures ControlOf(e') == ControlOf(e)
  {
    forall a | a != "aria-invalid"
      ensures (a in e'.attrs <==> a in e.attrs) && (a in e.attrs ==> e'.attrs[a] == e.attrs[a])
    {
      assert a in e'.attrs <==> a in e'.attrs - {"aria-invalid"};
      assert a in e.attrs <==> a in e.attrs - {"aria-invalid"};
      if a in e.attrs {
        assert e'.attrs[a] == (e'.attrs - {"aria-invalid"})[a];
        assert e.attrs[a] == (e.attrs - {"aria-invalid"})[a];
      }
    }
    assert TypeOf(e') == TypeOf(e);
    assert AttrOr(e', "name", "") == AttrOr(e, "name", "");
  }

  /** The verdict styling reads as the same control. */
  lemma StyledKeepsControl(e: Element, isValid: bool, hasValue: bool)
    ensures ControlOf(Styled(e, isValid, hasValue)) == ControlOf(e)
  {
    var e' := Styled(e, isValid, hasValue);
    assert e'.value == e.value && e'.tag == e.tag;
    assert e'.attrs - {"aria-invalid"} == e.attrs - {"aria-invalid"};
    ControlIgnoresAriaInvalid(e, e');
  }

  /** validateField changes the verdict classes and aria-invalid only, so every input still reads
      as the control it was: validating one input cannot change the verdict of another, nor its own. */
  lemma ValidateKeepsControls(s: FormState, groupOf: map<ElemId, ElemId>, id: ElemId)
    requires id in s.elems
    ensures SameControls(s, Validate(s, groupOf, id).state)
  {
    var t := Validate(s, groupOf, id).state;
    if id in groupOf {
      var c := ControlOf(s.elems[id]);
      assert t.elems[id] == Styled(s.elems[id], Decide(c).isValid, c.value != "");
      StyledKeepsControl(s.elems[id], Decide(c).isValid, c.value != "");
    }
  }

  /** The rewrite of the input `id` and of its group `g` for verdict `v`. */
  function Rewrite(s: FormState, id: ElemId, g: ElemId, hasValue: bool, v: Verdict): (r: FormState)
    requires id in s.elems
    ensures r.elems.Keys == s.elems.Keys
    ensures forall x :: x in s.elems && x != id ==> r.elems[x] == s.elems[x]
  {
    var added := if hasValue && v.message != NoMessage then [Feedback(v.message, v.isValid)] else [];
    FormState(s.elems[id := Styled(s.elems[id], v.isValid, hasValue)],
              s.feedback[g := DropFirst(FeedbackOf(s.feedback, g)) + added])
  }

  /** The group's feedback after a rewrite, for a verdict whose message is empty only when there
      is no value. */
  lemma RewriteFeedback(s: FormState, id: ElemId, g: ElemId, hasValue: bool, v: Verdict)
    requires id in s.elems && (hasValue ==> v.message != NoMessage)
    ensures var r := Rewrite(s, id, g, hasValue, v);
      (forall h :: h != g ==> FeedbackOf(r.feedback, h) == FeedbackOf(s.feedback, h)) &&
      FeedbackOf(r.feedback, g) == DropFirst(FeedbackOf(s.feedback, g)) + (if hasValue then [Feedback(v.message, v.isValid)] else []) &&
      (|FeedbackOf(s.feedback, g)| <= 1 ==> |FeedbackOf(r.feedback, g)| <= 1)
  {
  }

  /** The input's verdict classes and aria-invalid after validateField: a non-empty value carries
      exactly one of valid and invalid, matching the verdict, and aria-invalid says whether it is
      invalid; an empty value carries neither class nor aria-invalid; other classes stay. */
  lemma ValidateMarksInput(s: FormState, groupOf: map<ElemId, ElemId>, id: ElemId)
    requires id in s.elems && id in groupOf
    ensures var e, c := s.elems[id], ControlOf(s.elems[id]);
      var r := Validate(s, groupOf, id);
      var e' := r.state.elems[id];
      e'.classes - {"valid", "invalid"} == e.classes - {"valid", "invalid"} &&
      (c.value != "" ==>
        ("valid" in e'.classes <==> r.ok) && ("invalid" in e'.classes <==> !r.ok) &&
        "aria-invalid" in e'.attrs && e'.attrs["aria-invalid"] == BoolString(!r.ok)) &&
      (c.value == "" ==>
        "valid" !in e'.classes && "invalid" !in e'.classes && "aria-invalid" !in e'.attrs && (r.ok <==> !c.required))
  {
    var c := ControlOf(s.elems[id]);
    StyledMarks(s.elems[id], Decide(c).isValid, c.value != "");
  }

  /** The form group's feedback after validateField: the first existing feedback node is removed, and
      a new one with the verdict's message is appended when the value is non-empty (a required but
      empty input is rejected without a feedback node); other groups keep theirs, and a group with at
      most one feedback node keeps at most one. */
  lemma ValidateRewritesFeedback(s: FormState, groupOf: map<ElemId, ElemId>, id: ElemId)
    requires id in s.elems && id in groupOf
    ensures var g, c := groupOf[id], ControlOf(s.elems[id]);
      var r := Validate(s, groupOf, id);
      (forall h :: h != g ==> FeedbackOf(r.state.feedback, h) == FeedbackOf(s.feedback, h)) &&
      (c.value == "" ==> FeedbackOf(r.state.feedback, g) == DropFirst(FeedbackOf(s.feedback, g))) &&
      (c.value != "" ==>
        FeedbackOf(r.state.feedback, g) == DropFirst(FeedbackOf(s.feedback, g)) + [Feedback(Decide(c).message, r.ok)]) &&
      (|FeedbackOf(s.feedback, g)| <= 1 ==> |FeedbackOf(r.state.feedback, g)| <= 1)
  {
    var c := ControlOf(s.elems[id]);
    var v := Decide(c);
    assert c.value != "" ==> MessageText(v.message) != "";
    RewriteFeedback(s, id, groupOf[id], c.value != "", v);
  }

  /** An input is re-validated while typing only once it carries a verdict class. */
  predicate Marked(e: Element)
  {
    "valid" in e.classes || "invalid" in e.classes
  }

  // ---------------------------------------------------------------------------
  // Submission
  // ---------------------------------------------------------------------------

  /** How a submit event ends. */
  datatype SubmitOutcome =
    | TypeErrorAt(index: nat)   // the handler threw while handling inputs[index]; the default (submission) goes ahead
    | Sending                   // every input valid: the submit button shows the loading state
    | Blocked(focus: ElemId)    // preventDefault, focus on the first invalid input, error message shown

  predicate DefaultPrevented(o: SubmitOutcome) { o.Blocked? }

  /** The submit handler as written: `firstInvalidInput` is a `const`, so the assignment at the first
      invalid input throws a TypeError and ends the handler there. */
  datatype SubmitRun = Threw(state: FormState, at: nat) | Passed(state: FormState)

  function SubmitFrom(s: FormState, groupOf: map<ElemId, ElemId>, inputs: seq<ElemId>, i: nat): (r: SubmitRun)
    requires i <= |inputs| && forall k :: 0 <= k < |inputs| ==> inputs[k] in s.elems
    ensures r.state.elems.Keys == s.elems.Keys
    ensures r.Threw? ==> i <= r.at < |inputs|
    decreases |inputs| - i
  {
    if i == |inputs| then Passed(s)
    else
      var v := Validate(s, groupOf, inputs[i]);
      if !v.ok then Threw(v.state, i) else SubmitFrom(v.state, groupOf, inputs, i + 1)
  }

  /** The handler as intended (`let firstInvalidInput`): every input is validated, and the first one
      found invalid is remembered. */
  datatype Checked = Checked(state: FormState, firstInvalid: Option<ElemId>)

  function CheckFrom(s: FormState, groupOf: map<ElemId, ElemId>, inputs: seq<ElemId>, i: nat, first: Option<ElemId>): (r: Checked)
    requires i <= |inputs| && forall k :: 0 <= k < |inputs| ==> inputs[k] in s.elems
    ensures r.state.elems.Keys == s.elems.Keys
    ensures first.Some? ==> r.firstInvalid == first
    ensures r.firstInvalid.Some? ==> first.Some? || exists k :: i <= k < |inputs| && r.firstInvalid == Some(inputs[k])
    decreases |inputs| - i
  {
    if i == |inputs| then Checked(s, first)
    else
      var v := Validate(s, groupOf, inputs[i]);
      CheckFrom(v.state, groupOf, inputs, i + 1, if !v.ok && first.None? then Some(inputs[i]) else first)
  }

  /** One step of the corrected handler's walk: after validating `inputs[i]` from `s` into `t`,
      the walk from the start still ends where it did. */
  lemma CheckFromStep(s0: FormState, s: FormState, t: FormState, groupOf: map<ElemId, ElemId>, inputs: seq<ElemId>,
                      i: nat, first: Option<ElemId>, isValid: bool, first': Option<ElemId>)
    requires i < |inputs| && forall k :: 0 <= k < |inputs| ==> inputs[k] in s.elems
    requires forall k :: 0 <= k < |inputs| ==> inputs[k] in s0.elems
    requires CheckFrom(s0, groupOf, inputs, 0, None) == CheckFrom(s, groupOf, inputs, i, first)
    requires Validation(t, isValid) == Validate(s, groupOf, inputs[i])
    requires first' == if !isValid && first.None? then Some(inputs[i]) else first
    ensures t.elems.Keys == s.elems.Keys
    ensures CheckFrom(s0, groupOf, inputs, 0, None) == CheckFrom(t, groupOf, inputs, i + 1, first')
  {
  }

  /** One step of the written handler's walk past a valid input. */
  lemma SubmitFromStep(s: FormState, groupOf: map<ElemId, ElemId>, inputs: seq<ElemId>, i: nat, v: Validation)
    requires i < |inputs| && forall k :: 0 <= k < |inputs| ==> inputs[k] in s.elems
    requires v == Validate(s, groupOf, inputs[i])
    ensures forall k :: 0 <= k < |inputs| ==> inputs[k] in v.state.elems
    ensures SubmitFrom(s, groupOf, inputs, i) ==
      if !v.ok then Threw(v.state, i) else SubmitFrom(v.state, groupOf, inputs, i + 1)
  {
  }

  /** Both handlers walk the inputs identically up to the first invalid one: the corrected handler
      blocks exactly the submissions on which the written one throws, and focuses the input the
      written one threw on; an all-valid form ends in the same state under both. */
  lemma {:induction false} CorrectedFindsTheInputTheOriginalThrowsOn(s: FormState, groupOf: map<ElemId, ElemId>, inputs: seq<ElemId>, i: nat)
    requires i <= |inputs| && forall k :: 0 <= k < |inputs| ==> inputs[k] in s.elems
    ensures match SubmitFrom(s, groupOf, inputs, i)
      case Passed(t) => CheckFrom(s, groupOf, inputs, i, None) == Checked(t, None)
      case Threw(_, k) => i <= k < |inputs| && CheckFrom(s, groupOf, inputs, i, None).firstInvalid == Some(inputs[k])
    decreases |inputs| - i
  {
    if i < |inputs| {
      var v := Validate(s, groupOf, inputs[i]);
      SubmitFromStep(s, groupOf, inputs, i, v);
      if v.ok {
        assert CheckFrom(s, groupOf, inputs, i, None) == CheckFrom(v.state, groupOf, inputs, i + 1, None);
        CorrectedFindsTheInputTheOriginalThrowsOn(v.state, groupOf, inputs, i + 1);
      } else {
        assert CheckFrom(s, groupOf, inputs, i, None) == CheckFrom(v.state, groupOf, inputs, i + 1, Some(inputs[i]));
      }
    }
  }

  /** validateField accepts an input exactly when it does not fail on a state with the same controls. */
  lemma ValidateOkUnlessFails(s0: FormState, s: FormState, groupOf: map<ElemId, ElemId>, x: ElemId)
    requires SameControls(s0, s) && x in s.elems
    ensures Validate(s, groupOf, x).ok <==> !Fails(s0, groupOf, x)
  {
    assert ControlOf(s.elems[x]) == ControlOf(s0.elems[x]);
  }

  /** Whether each of `inputs` fails on `s`, in order. */
  function Failing(s: FormState, groupOf: map<ElemId, ElemId>, inputs: seq<ElemId>): (bs: seq<bool>)
    ensures |bs| == |inputs|
  {
    seq(|inputs|, k requires 0 <= k < |inputs| => Fails(s, groupOf, inputs[k]))
  }

  /** The first position from `i` on where `bs` holds, or `|bs|` when there is none. */
  function FirstTrue(bs: seq<bool>, i: nat): (k: nat)
    requires i <= |bs|
    ensures i <= k <= |bs|
    decreases |bs| - i
  {
    if i == |bs| || bs[i] then i else FirstTrue(bs, i + 1)
  }

  /** FirstTrue finds a position that holds, and none before it does. */
  lemma {:induction false} FirstTrueIsFirst(bs: seq<bool>, i: nat)
    requires i <= |bs|
    ensures var k := FirstTrue(bs, i); (k < |bs| ==> bs[k]) && forall j :: i <= j < k ==> !bs[j]
    decreases |bs| - i
  {
    if i < |bs| && !bs[i] {
      FirstTrueIsFirst(bs, i + 1);
    }
  }

  /** One step of the written handler's walk keeps the controls and the inputs, and goes on to the
      next input exactly when this one does not fail on the state the walk started from. */
  lemma SubmitStepKeepsControls(s0: FormState, s: FormState, groupOf: map<ElemId, ElemId>, inputs: seq<ElemId>, i: nat)
      returns (t: FormState, ok: bool)
    requires i < |inputs| && forall k :: 0 <= k < |inputs| ==> inputs[k] in s.elems
    requires SameControls(s0, s)
    ensures Validate(s, groupOf, inputs[i]) == Validation(t, ok)
    ensures SameControls(s0, t) && forall k :: 0 <= k < |inputs| ==> inputs[k] in t.elems
    ensures ok <==> !Failing(s0, groupOf, inputs)[i]
    ensures SubmitFrom(s, groupOf, inputs, i) == if !ok then Threw(t, i) else SubmitFrom(t, groupOf, inputs, i + 1)
  {
    var x := inputs[i];
    var v := Validate(s, groupOf, x);
    ValidateKeepsControls(s, groupOf, x);
    ValidateOkUnlessFails(s0, s, groupOf, x);
    SubmitFromStep(s, groupOf, inputs, i, v);
    t, ok := v.state, v.ok;
  }

  /** Where a run of the written handler stopped: the index it threw at, or `n` when it passed. */
  function StoppedAt(r: SubmitRun, n: nat): nat
  {
    if r.Threw? then r.at else n
  }

  /** The written handler, from the state `s` reached by validating the inputs before `i` of a walk
      that started at `s0`: it stops where the first input from `i` on that fails on `s0` is. */
  lemma {:induction false} SubmitThrowsAtFirstFailureFrom(s0: FormState, s: FormState, groupOf: map<ElemId, ElemId>, inputs: seq<ElemId>, i: nat)
    requires i <= |inputs| && forall k :: 0 <= k < |inputs| ==> inputs[k] in s.elems
    requires SameControls(s0, s)
    ensures StoppedAt(SubmitFrom(s, groupOf, inputs, i), |inputs|) == FirstTrue(Failing(s0, groupOf, inputs), i)
    decreases |inputs| - i
  {
    if i < |inputs| {
      var t, ok := SubmitStepKeepsControls(s0, s, groupOf, inputs, i);
      if ok {
        SubmitThrowsAtFirstFailureFrom(s0, t, groupOf, inputs, i + 1);
      }
    }
  }

  /** The written handler throws exactly when some input fails validation, and then at the first
      input that fails. */
  lemma SubmitThrowsAtFirstFailure(s: FormState, groupOf: map<ElemId, ElemId>, inputs: seq<ElemId>)
    requires forall k :: 0 <= k < |inputs| ==> inputs[k] in s.elems
    ensures SubmitFrom(s, groupOf, inputs, 0).Threw? <==> exists k :: 0 <= k < |inputs| && Fails(s, groupOf, inputs[k])
    ensures var r := SubmitFrom(s, groupOf, inputs, 0);
      r.Threw? ==> r.at < |inputs| && Fails(s, groupOf, inputs[r.at]) && forall j :: 0 <= j < r.at ==> !Fails(s, groupOf, inputs[j])
  {
    var bs := Failing(s, groupOf, inputs);
    SubmitThrowsAtFirstFailureFrom(s, s, groupOf, inputs, 0);
    FirstTrueIsFirst(bs, 0);
    forall k | 0 <= k < |inputs|
      ensures bs[k] == Fails(s, groupOf, inputs[k])
    {
    }
  }

  /** The corrected handler remembers no input exactly when none fails validation, and otherwise
      the first input that fails. */
  lemma CheckFindsFirstFailure(s: FormState, groupOf: map<ElemId, ElemId>, inputs: seq<ElemId>)
    requires forall k :: 0 <= k < |inputs| ==> inputs[k] in s.elems
    ensures var f := CheckFrom(s, groupOf, inputs, 0, None).firstInvalid;
      (f.None? <==> forall k :: 0 <= k < |inputs| ==> !Fails(s, groupOf, inputs[k])) &&
      (f.Some? ==> exists k :: 0 <= k < |inputs| && f == Some(inputs[k]) && Fails(s, groupOf, inputs[k]) &&
                              forall j :: 0 <= j < k ==> !Fails(s, groupOf, inputs[j]))
  {
    SubmitThrowsAtFirstFailure(s, groupOf, inputs);
    CorrectedFindsTheInputTheOriginalThrowsOn(s, groupOf, inputs, 0);
  }

  /** A form with a single required input holding one space: the browser's own `required` check
      lets it through, since the value is not empty, but the trimmed value is. The written handler
      throws on it, so the invalid form is submitted; the corrected handler blocks it and focuses
      that input. */
  lemma InvalidFormIsSubmittedAsWritten()
    ensures var e := Element("INPUT", {}, map["required" := ""], map[], "", " ", "", "");
      var s := FormState(map[0 := e], map[]);
      e.value != "" &&
      SubmitFrom(s, map[0 := 1], [0], 0).Threw? && CheckFrom(s, map[0 := 1], [0], 0, None).firstInvalid == Some(0)
  {
    var e := Element("INPUT", {}, map["required" := ""], map[], "", " ", "", "");
    assert ControlOf(e).value == "" by {
      assert " "[1..] == "";
      assert TrimStart(" ") == "";
      assert Trim(" ") == "";
    }
  }

  /** A `.form-message` element. */
  datatype FormMessage = FormMessage(text: string, success: bool)

  const CheckInputsText := "Bitte überprüfen Sie Ihre Eingaben"
  const SendingText := "Wird gesendet..."

  /** The `.form-message` elements after showFormMessage: the first existing one is removed, and the
      new one is inserted at the top of the first form, when the page has a form. */
  function ShownMessages(ms: seq<FormMessage>, m: FormMessage, hasForm: bool): (r: seq<FormMessage>)
    ensures hasForm ==> |r| >= 1 && r[0] == m
    ensures |ms| <= 1 ==> r == if hasForm then [m] else []
    ensures |r| == (if hasForm then 1 else 0) + (if ms == [] then 0 else |ms| - 1)
    ensures forall k :: 1 <= k < |ms| ==> r[k - 1 + (if hasForm then 1 else 0)] == ms[k]
  {
    var rest := if ms == [] then [] else ms[1..];
    if hasForm then [m] + rest else rest
  }

  /** The submit button in its loading state. */
  function Busy(e: Element): Element
  {
    SetAttr(e, "disabled", "").(text := SendingText)
  }

  /** The validation state of the page: its elements, the form groups' feedback nodes, the pending
      live re-validations and the form-level messages. `groupOf` maps each input to its closest
      `.form-group`; inputs without one are absent from it. */
  class FormPage {
    const page: Page
    const groupOf: map<ElemId, ElemId>
    var feedback: map<ElemId, seq<Feedback>>
    var pending: set<ElemId>
    var messages: seq<FormMessage>

    constructor (page: Page, groupOf: map<ElemId, ElemId>, feedback: map<ElemId, seq<Feedback>>, messages: seq<FormMessage>)
      ensures this.page == page && this.groupOf == groupOf && this.feedback == feedback
      ensures this.messages == messages && pending == {}
    {
      this.page := page;
      this.groupOf := groupOf;
      this.feedback := feedback;
      this.messages := messages;
      pending := {};
    }

    function State(): FormState
      reads this, page
    {
      FormState(page.elems, feedback)
    }

    /** At most one feedback node per form group; validateField keeps it. */
    predicate SingleFeedback()
      reads this
    {
      forall g :: g in feedback ==> |feedback[g]| <= 1
    }

    /** validateField(input); it is also the blur handler. */
    method ValidateField(id: ElemId) returns (isValid: bool)
      requires id in page.elems
      modifies page`elems, this`feedback
      ensures Validation(State(), isValid) == Validate(old(State()), groupOf, id)
      ensures old(SingleFeedback()) ==> SingleFeedback()
    {
      if id !in groupOf {
        return true;
      }
      var g := groupOf[id];
      // the existing feedback node of the group is removed; `rest` is what remains
      var rest := DropFirst(FeedbackOf(feedback, g));

      var input := page.elems[id];
      var value := Trim(input.value);
      var verdict := Decide(ControlOf(input));
      isValid := verdict.isValid;
      var message := verdict.message;
      var added: seq<Feedback> := [];

      if value != "" {
        input := ToggleClass(input, "valid", isValid);
        input := ToggleClass(input, "invalid", !isValid);
        input := SetAttr(input, "aria-invalid", BoolString(!isValid));
        if message != NoMessage {
          added := [Feedback(message, isValid)];
        }
      } else {
        input := RemoveClass(RemoveClass(input, "valid"), "invalid");
        input := RemoveAttr(input, "aria-invalid");
      }
      feedback := feedback[g := rest + added];
      page.elems := page.elems[id := input];
    }

    /** The `input` event after the user changed the value to `newValue`: the pending re-validation is
        cancelled, and a new one is scheduled only when the input already carries a verdict class. */
    method OnInput(id: ElemId, newValue: string)
      requires id in page.elems
      modifies page`elems, this`pending
      ensures page.elems == old(page.elems)[id := old(page.elems)[id].(value := newValue)]
      ensures pending == if Marked(old(page.elems)[id]) then old(pending) + {id} else old(pending) - {id}
    {
      page.elems := page.elems[id := page.elems[id].(value := newValue)];
      pending := pending - {id};
      var input := page.elems[id];
      if "invalid" in input.classes || "valid" in input.classes {
        pending := pending + {id};
      }
    }

    /** The 500 ms re-validation timer of `id` fires. */
    method OnRevalidateTimer(id: ElemId) returns (isValid: bool)
      requires id in pending && id in page.elems
      modifies page`elems, this`feedback, this`pending
      ensures pending == old(pending) - {id}
      ensures Validation(State(), isValid) == Validate(old(State()), groupOf, id)
    {
      pending := pending - {id};
      isValid := ValidateField(id);
    }

    /** showFormMessage(text, type) */
    method ShowFormMessage(text: string, success: bool, hasForm: bool)
      modifies this`messages
      ensures messages == ShownMessages(old(messages), FormMessage(text, success), hasForm)
    {
      if messages != [] {
        messages := messages[1..];
      }
      if hasForm {
        messages := [FormMessage(text, success)] + messages;
      }
    }

    /** The submit handler as written (form-validation.js:138-177): at the first invalid input the
        assignment to the `const` throws, so the remaining inputs are not validated, preventDefault is
        never reached and no message is shown. */
    method Submit(inputs: seq<ElemId>, submitButton: Option<ElemId>) returns (outcome: SubmitOutcome)
      requires forall k :: 0 <= k < |inputs| ==> inputs[k] in page.elems
      requires submitButton.Some? ==> submitButton.value in page.elems
      modifies page`elems, this`feedback
      ensures match SubmitFrom(old(State()), groupOf, inputs, 0)
        case Threw(t, k) => outcome == TypeErrorAt(k) && State() == t
        case Passed(t) =>
          outcome == Sending && feedback == t.feedback &&
          page.elems == if submitButton.Some? then t.elems[submitButton.value := Busy(t.elems[submitButton.value])] else t.elems
      ensures !DefaultPrevented(outcome)
      ensures outcome.TypeErrorAt? <==> exists k :: 0 <= k < |inputs| && Fails(old(State()), groupOf, inputs[k])
      ensures outcome.TypeErrorAt? ==>
        outcome.index < |inputs| && Fails(old(State()), groupOf, inputs[outcome.index]) &&
        forall j :: 0 <= j < outcome.index ==> !Fails(old(State()), groupOf, inputs[j])
    {
      SubmitThrowsAtFirstFailure(State(), groupOf, inputs);
      var isFormValid := true;
      var i := 0;
      while i < |inputs|
        invariant 0 <= i <= |inputs|
        invariant page.elems.Keys == old(page.elems).Keys
        invariant SubmitFrom(old(State()), groupOf, inputs, 0) == SubmitFrom(State(), groupOf, inputs, i)
      {
        ghost var before := State();
        var isValid := ValidateField(inputs[i]);
        SubmitFromStep(before, groupOf, inputs, i, Validation(State(), isValid));
        if !isValid {
          isFormValid := false;
          // `firstInvalidInput = input` assigns to a const: TypeError
          return TypeErrorAt(i);
        }
        i := i + 1;
      }
      if submitButton.Some? {
        var b := submitButton.value;
        page.elems := page.elems[b := Busy(page.elems[b])];
      }
      outcome := Sending;
    }

    /** One turn of the corrected handler's loop: `inputs[i]` is validated, and remembered when it
        is the first invalid one. */
    method CheckNext(ghost s0: FormState, inputs: seq<ElemId>, i: nat, first: Option<ElemId>) returns (first': Option<ElemId>)
      requires i < |inputs| && forall k :: 0 <= k < |inputs| ==> inputs[k] in page.elems
      requires forall k :: 0 <= k < |inputs| ==> inputs[k] in s0.elems
      requires CheckFrom(s0, groupOf, inputs, 0, None) == CheckFrom(State(), groupOf, inputs, i, first)
      modifies page`elems, this`feedback
      ensures page.elems.Keys == old(page.elems).Keys
      ensures CheckFrom(s0, groupOf, inputs, 0, None) == CheckFrom(State(), groupOf, inputs, i + 1, first')
    {
      ghost var before := State();
      var isValid := ValidateField(inputs[i]);
      first' := first;
      if !isValid && first.None? {
        first' := Some(inputs[i]);
      }
      CheckFromStep(s0, before, State(), groupOf, inputs, i, first, isValid, first');
    }

    /** The corrected handler's loop: every input is validated in order, and the first invalid one
        is remembered. */
    method CheckInputs(inputs: seq<ElemId>) returns (firstInvalidInput: Option<ElemId>)
      requires forall k :: 0 <= k < |inputs| ==> inputs[k] in page.elems
      modifies page`elems, this`feedback
      ensures Checked(State(), firstInvalidInput) == CheckFrom(old(State()), groupOf, inputs, 0, None)
      ensures page.elems.Keys == old(page.elems).Keys
    {
      ghost var s0 := State();
      firstInvalidInput := None;
      var i := 0;
      while i < |inputs|
        invariant 0 <= i <= |inputs|
        invariant page.elems.Keys == s0.elems.Keys
        invariant CheckFrom(s0, groupOf, inputs, 0, None) == CheckFrom(State(), groupOf, inputs, i, firstInvalidInput)
      {
        firstInvalidInput := CheckNext(s0, inputs, i, firstInvalidInput);
        i := i + 1;
      }
      ghost var t := State();
      assert CheckFrom(t, groupOf, inputs, |inputs|, firstInvalidInput) == Checked(t, firstInvalidInput);
    }

    /** The submit handler with `let firstInvalidInput`: every input is validated; an invalid form is
        blocked, its first invalid input focused and the error message shown. */
    method SubmitCorrected(inputs: seq<ElemId>, submitButton: Option<ElemId>) returns (outcome: SubmitOutcome)
      requires forall k :: 0 <= k < |inputs| ==> inputs[k] in page.elems
      requires submitButton.Some? ==> submitButton.value in page.elems
      modifies page`elems, this`feedback, this`messages
      ensures var c := CheckFrom(old(State()), groupOf, inputs, 0, None);
        feedback == c.state.feedback &&
        match c.firstInvalid
        case Some(f) => outcome == Blocked(f) && page.elems == c.state.elems &&
          messages == ShownMessages(old(messages), FormMessage(CheckInputsText, false), true)
        case None =>
          outcome == Sending && messages == old(messages) &&
          page.elems == if submitButton.Some? then c.state.elems[submitButton.value := Busy(c.state.elems[submitButton.value])] else c.state.elems
      ensures DefaultPrevented(outcome) <==> CheckFrom(old(State()), groupOf, inputs, 0, None).firstInvalid.Some?
      ensures DefaultPrevented(outcome) <==> exists k :: 0 <= k < |inputs| && Fails(old(State()), groupOf, inputs[k])
      ensures outcome.Blocked? ==>
        exists k :: 0 <= k < |inputs| && outcome.focus == inputs[k] && Fails(old(State()), groupOf, inputs[k]) &&
                    forall j :: 0 <= j < k ==> !Fails(old(State()), groupOf, inputs[j])
    {
      CheckFindsFirstFailure(State(), groupOf, inputs);
      var firstInvalidInput := CheckInputs(inputs);
      if firstInvalidInput.Some? {
        outcome := Blocked(firstInvalidInput.value);
        ShowFormMessage(CheckInputsText, false, true);
      } else {
        if submitButton.Some? {
          var b := submitButton.value;
          page.elems := page.elems[b := Busy(page.elems[b])];
        }
        outcome := Sending;
      }
    }
  }
}
