/** The state of the application page and the events that change it:
    `handleChange`, `handleSubmit` and the success notice's close handler. */
module Form {
  import opened Options
  import opened Seqs
  import opened Digits
  import opened Drafts
  import opened Validation
  import opened Payload

  /** An entry of the `errors` object.  Editing a field writes `undefined`
      under its name rather than deleting it; a rejection body may carry a
      list of messages for a field. */
  datatype ErrorValue = Undefined | Text(text: string) | TextList(texts: seq<string>)

  type Errors = map<string, ErrorValue>

  /** The page's state: the draft, the per-field errors and whether the
      success notice is open. */
  datatype State = State(draft: Draft, errors: Errors, noticeOpen: bool)

  function InitialState(): State {
    State(InitialDraft(), map[], false)
  }

  /** What `handleChange` reads from `e.target`.  `files` is empty for a
      text input and for a file input whose selection was cleared. */
  datatype ChangeEvent = ChangeEvent(name: string, value: string, files: seq<FileToken>)

  /** The value `handleChange` stores: the digits of the text for the ID
      number, otherwise the first selected file, otherwise the text.  It is
      never `null`, so after an edit a field can only be missing as `""`. */
  function StoredValue(ev: ChangeEvent): (v: Value)
    ensures v != Null
    ensures ev.name == "id_number" ==>
              v.Str? && AllDigits(v.text) && IsSubsequence(v.text, ev.value)
    ensures ev.name == "id_number" ==>
              forall c :: IsDigit(c) ==> multiset(v.text)[c] == multiset(ev.value)[c]
    ensures ev.name != "id_number" ==>
              v == if |ev.files| > 0 then File(ev.files[0]) else Str(ev.value)
  {
    if ev.name == "id_number" then
      var kept := DigitsOnly(ev.value);
      assert forall c :: IsDigit(c) ==> multiset(kept)[c] == multiset(ev.value)[c] by {
        forall c | IsDigit(c) ensures multiset(kept)[c] == multiset(ev.value)[c] {
          DigitsOnlyKeepsEveryDigit(ev.value, c);
        }
      }
      Str(kept)
    else if |ev.files| > 0 then File(ev.files[0])
    else Str(ev.value)
  }

  /** `handleChange`: stores the new value of one field and clears that
      field's error. */
  function Change(s: State, ev: ChangeEvent): (r: State)
    ensures ev.name == "id_number" ==>
              Lookup(r.draft, ev.name) == Some(Str(DigitsOnly(ev.value)))
    ensures ev.name != "id_number" && |ev.files| > 0 ==>
              Lookup(r.draft, ev.name) == Some(File(ev.files[0]))
    ensures ev.name != "id_number" && |ev.files| == 0 ==>
              Lookup(r.draft, ev.name) == Some(Str(ev.value))
    ensures forall k :: k != ev.name ==> Lookup(r.draft, k) == Lookup(s.draft, k)
    ensures ev.name in Keys(s.draft) ==> Keys(r.draft) == Keys(s.draft)
    ensures ev.name in r.errors && r.errors[ev.name] == Undefined
    ensures forall k :: k != ev.name ==>
              (k in r.errors <==> k in s.errors) && (k in s.errors ==> r.errors[k] == s.errors[k])
    ensures r.noticeOpen == s.noticeOpen
  {
    s.(draft := Put(s.draft, ev.name, StoredValue(ev)), errors := s.errors[ev.name := Undefined])
  }

  /** Repeating an edit changes nothing further. */
  lemma ChangeIdempotent(s: State, ev: ChangeEvent)
    ensures Change(Change(s, ev), ev) == Change(s, ev)
  {
    PutIdempotent(s.draft, ev.name, StoredValue(ev));
  }

  /** The worked example: typing "12-34a" into the ID number stores "1234". */
  lemma ChangeIdNumberExample(s: State)
    ensures Lookup(Change(s, ChangeEvent("id_number", "12-34a", [])).draft, "id_number")
            == Some(Str("1234"))
  {
    DigitsOnlyExample();
  }

  /** The body of the intake response, as `res.json()` leaves it. */
  datatype Body = Unparseable | Parsed(fields: Errors)

  /** How the intake request ended. */
  datatype Response =
    | NetworkError                  // `fetch` rejected
    | Reply(ok: bool, body: Body)   // a status arrived; `ok` is `res.ok`

  /** The four ways one call of the submit handler can end. */
  datatype Outcome =
    | ValidationFailed(found: map<string, string>)
    | Accepted
    | Rejected(fieldErrors: Errors)
    | Failed

  /** The outcome of a request that was sent.  `res.json()` is awaited
      before `res.ok` is looked at, so a body that does not parse ends in the
      `catch` whatever the status. */
  function Classify(resp: Response): (o: Outcome)
    ensures !o.ValidationFailed?
    ensures o.Accepted? <==> resp.Reply? && resp.ok && resp.body.Parsed?
    ensures o.Rejected? <==> resp.Reply? && !resp.ok && resp.body.Parsed?
    ensures o.Rejected? ==> o.fieldErrors == resp.body.fields
  {
    match resp
    case NetworkError => Failed
    case Reply(_, Unparseable) => Failed
    case Reply(ok, Parsed(fields)) => if ok then Accepted else Rejected(fields)
  }

  /** The state after an outcome. */
  function Apply(s: State, o: Outcome): (r: State)
    ensures o.ValidationFailed? ==>
              && r.errors.Keys == o.found.Keys
              && (forall k :: k in o.found ==> r.errors[k] == Text(o.found[k]))
              && r.draft == s.draft && r.noticeOpen == s.noticeOpen
    ensures o.Accepted? ==> r.draft == InitialDraft() && r.errors == map[] && r.noticeOpen
    ensures o.Rejected? ==>
              r.errors == o.fieldErrors && r.draft == s.draft && r.noticeOpen == s.noticeOpen
    ensures o.Failed? ==> r == s
  {
    match o
    case ValidationFailed(found) => s.(errors := map k | k in found :: Text(found[k]))
    case Accepted => State(InitialDraft(), map[], true)
    case Rejected(fieldErrors) => s.(errors := fieldErrors)
    case Failed => s
  }

  /** One call of the submit handler: what was sent, if anything, and the
      state afterwards. */
  datatype Submission = Submission(sent: Option<seq<Entry>>, next: State)

  /** `handleSubmit`, with the intake service's answer as a parameter.  The
      answer is only consulted when a request is actually sent. */
  function Submit(s: State, resp: Response): (r: Submission)
    ensures r.sent.Some? <==> Complete(s.draft)
    ensures r.sent.Some? ==>
              && (forall e :: e in r.sent.value <==> e in s.draft && Sent(e.value))
              && IsSubsequence(r.sent.value, s.draft)
    ensures !Complete(s.draft) ==>
              && r.next == s.(errors := map k | k in Validate(s.draft) :: Text(Validate(s.draft)[k]))
              && r.next.errors != map[]
    ensures Complete(s.draft) && resp.Reply? && resp.ok && resp.body.Parsed? ==>
              r.next == InitialState().(noticeOpen := true)
    ensures Complete(s.draft) && resp.Reply? && !resp.ok && resp.body.Parsed? ==>
              r.next == s.(errors := resp.body.fields)
    ensures Complete(s.draft) && (resp.NetworkError? || resp.body.Unparseable?) ==>
              r.next == s
  {
    var found := Validate(s.draft);
    ValidateEmptyIffComplete(s.draft);
    if |found| > 0 then
      Submission(None, Apply(s, ValidationFailed(found)))
    else
      Submission(Some(Serialize(s.draft)), Apply(s, Classify(resp)))
  }

  /** After a rejection or a failed request the draft is untouched, so
      calling the submit handler again sends the very same payload. */
  lemma ResubmitSendsSamePayload(s: State, resp: Response, resp': Response)
    requires Complete(s.draft)
    requires !(resp.Reply? && resp.ok && resp.body.Parsed?)
    ensures Submit(Submit(s, resp).next, resp').sent == Submit(s, resp).sent
  {
  }

  /** Calling the submit handler on an empty form sends nothing and flags
      all nine required fields. */
  lemma SubmitEmptyForm(t: State, resp: Response)
    requires t.draft == InitialDraft()
    ensures Submit(t, resp) ==
              Submission(None, t.(errors := map f | f in RequiredFields :: Text(RequiredMsg)))
  {
    var expected := map f | f in RequiredFields :: RequiredMsg;
    assert Validate(t.draft) == expected by {
      ValidateInitialDraft();
    }
    assert !Complete(t.draft) by {
      ValidateEmptyIffComplete(t.draft);
    }
    var r := Submit(t, resp);
    assert r.sent == None;
    assert r.next == t.(errors := map k | k in expected :: Text(expected[k]));
    UniformMessages(expected, RequiredFields, RequiredMsg);
  }

  /** Turning a map that gives every field the same message into `errors`
      entries gives every field that message as text. */
  lemma UniformMessages(m: map<string, string>, fields: seq<string>, msg: string)
    requires m == map f | f in fields :: msg
    ensures (map k | k in m :: Text(m[k])) == (map f | f in fields :: Text(msg))
  {
  }

  /** After a successful submission the form is empty again, so calling the
      submit handler once more sends nothing, flags all nine required fields
      and leaves the success notice open. */
  lemma SubmitAfterAcceptIsBlocked(s: State, resp: Response, resp': Response)
    requires Complete(s.draft)
    requires resp.Reply? && resp.ok && resp.body.Parsed?
    ensures var again := Submit(Submit(s, resp).next, resp');
            && again.sent == None
            && again.next.errors == (map f | f in RequiredFields :: Text(RequiredMsg))
            && again.next.noticeOpen
  {
    var t := Submit(s, resp).next;
    assert t.draft == InitialDraft() && t.noticeOpen;
    SubmitEmptyForm(t, resp');
  }

  /** The notice's close handler (its close button or its auto-hide timer). */
  function DismissNotice(s: State): (r: State)
    ensures !r.noticeOpen
    ensures r.draft == s.draft && r.errors == s.errors
  {
    s.(noticeOpen := false)
  }

  /** Anything that can happen to the page after it is mounted.  `Press` is
      a call of the submit handler; the browser's own checks of the
      `required`, `type` and `pattern` attributes in front of it are not part
      of this model. */
  datatype Action =
    | Edit(ev: ChangeEvent)
    | Press(resp: Response)
    | Dismiss

  function Step(s: State, a: Action): State {
    match a
    case Edit(ev) => Change(s, ev)
    case Press(resp) => Submit(s, resp).next
    case Dismiss => DismissNotice(s)
  }

  function Run(s: State, actions: seq<Action>): State
    decreases |actions|
  {
    if |actions| == 0 then s else Run(Step(s, actions[0]), actions[1..])
  }

  /** The stored ID number is a string of digits. */
  predicate IdNumberIsDigits(d: Draft) {
    var v := Lookup(d, "id_number");
    v.Some? && v.value.Str? && AllDigits(v.value.text)
  }

  lemma StepKeepsIdNumberDigits(s: State, a: Action)
    requires IdNumberIsDigits(s.draft)
    ensures IdNumberIsDigits(Step(s, a).draft)
  {
    if a.Press? && Complete(s.draft) && a.resp.Reply? && a.resp.ok && a.resp.body.Parsed? {
      InitialIdNumber();
    }
  }

  /** Whatever the applicant types and whatever the service answers, the
      ID number only ever holds digits, starting from the empty string. */
  lemma {:induction false} RunKeepsIdNumberDigits(s: State, actions: seq<Action>)
    requires IdNumberIsDigits(s.draft)
    ensures IdNumberIsDigits(Run(s, actions).draft)
    decreases |actions|
  {
    if |actions| > 0 {
      StepKeepsIdNumberDigits(s, actions[0]);
      RunKeepsIdNumberDigits(Step(s, actions[0]), actions[1..]);
    }
  }

  lemma ReachableIdNumberDigits(actions: seq<Action>)
    ensures IdNumberIsDigits(Run(InitialState(), actions).draft)
  {
    InitialIdNumber();
    RunKeepsIdNumberDigits(InitialState(), actions);
  }

  /** Only the form's own inputs raise change events. */
  predicate FromFormInputs(actions: seq<Action>) {
    forall i :: 0 <= i < |actions| && actions[i].Edit? ==> actions[i].ev.name in FormFields
  }

  /** The draft has exactly the form's thirteen properties, each once, in
      their original order. */
  predicate WellShaped(d: Draft) {
    Keys(d) == FormFields && UniqueKeys(d)
  }

  lemma InitialWellShaped()
    ensures WellShaped(InitialDraft())
  {
    var d := InitialDraft();
    assert Keys(d) == FormFields;
  }

  lemma ChangeKeepsShape(s: State, ev: ChangeEvent)
    requires WellShaped(s.draft)
    requires ev.name in FormFields
    ensures WellShaped(Change(s, ev).draft)
  {
    PutKeepsUniqueKeys(s.draft, ev.name, StoredValue(ev));
  }

  lemma SubmitKeepsShape(s: State, resp: Response)
    requires WellShaped(s.draft)
    ensures WellShaped(Submit(s, resp).next.draft)
  {
    InitialWellShaped();
  }

  lemma StepKeepsShape(s: State, a: Action)
    requires WellShaped(s.draft)
    requires a.Edit? ==> a.ev.name in FormFields
    ensures WellShaped(Step(s, a).draft)
  {
    match a {
      case Edit(ev) => ChangeKeepsShape(s, ev);
      case Press(resp) => SubmitKeepsShape(s, resp);
      case Dismiss =>
    }
  }

  /** Edits through the form's inputs never add, drop or reorder a property. */
  lemma {:induction false} RunKeepsShape(s: State, actions: seq<Action>)
    requires WellShaped(s.draft)
    requires FromFormInputs(actions)
    ensures WellShaped(Run(s, actions).draft)
    decreases |actions|
  {
    if |actions| > 0 {
      StepKeepsShape(s, actions[0]);
      assert FromFormInputs(actions[1..]) by {
        forall i | 0 <= i < |actions[1..]| && actions[1..][i].Edit?
          ensures actions[1..][i].ev.name in FormFields {
          assert actions[1..][i] == actions[i + 1];
        }
      }
      RunKeepsShape(Step(s, actions[0]), actions[1..]);
    }
  }
}
