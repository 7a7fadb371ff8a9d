# Applicant intake form — a Dafny model

This project models the logic of the public application form of a
training-enrolment web front end (`src/pages/user/Application.js`). An
applicant fills in a draft of thirteen properties: text fields, a course
selection and three file uploads. The page keeps the draft, an object of
per-field error messages and a success-notice flag. It has four pieces of
logic, each modelled as pure functions over immutable values:

- **the change handler** (`handleChange`) writes one property and clears
  that field's error; the ID number keeps only its digits;
- **the validator** (`validate`) maps a draft to field → message;
- **the submit handler** (`handleSubmit`) validates and builds the multipart
  payload from the non-empty properties in draft order, then reacts to the
  intake service's answer;
- **the course loader** (the mount effect) normalises the course-list
  response.

Modules, one per concept:

| file | module | what it holds |
|---|---|---|
| `options.dfy` | `Options` | `Option`, where `None` is JavaScript's `undefined` |
| `seqs.dfy` | `Seqs` | order-preserving sub-sequence |
| `digits.dfy` | `Digits` | the `\D` filter on the ID number |
| `draft.dfy` | `Drafts` | the draft as an insertion-ordered object, its update, the initial draft |
| `email.dfy` | `EmailPattern` | the meaning of `/\S+@\S+\.\S+/.test` and a one-pass scanner proved equal to it |
| `validation.dfy` | `Validation` | `validate` |
| `payload.dfy` | `Payload` | the multipart serialisation |
| `form.dfy` | `Form` | page state, `handleChange`, `handleSubmit`, the notice, runs of events |
| `courses.dfy` | `Courses` | the course-list normalisation |

Points where the code decides something a reader might not expect. The
model follows the code in each case:

- The required test is `=== ""` or `=== null`. A property the draft lacks
  altogether is therefore not "missing". `id_doc` is different: it is
  missing whenever it is falsy.
- A file input whose selection is cleared has no files, so the handler
  stores its text value, `""`. That value counts as missing, and it is
  left out of the payload.
- Editing a field writes `undefined` under its name in `errors`. It does
  not delete the key.
- The submit handler awaits `res.json()` before it looks at `res.ok`. A
  response whose body does not parse therefore goes down the `catch` path
  whatever its status. Nothing changes on that path, not even after a
  successful status.
- The e-mail pattern is not anchored. Any stretch of the text of the form
  "non-blank, `@`, non-blank, `.`, non-blank" satisfies it, and `\s` is
  JavaScript's full whitespace class.
- A course body that is an object with a truthy but non-list `results` is
  stored unchanged, and rendering then fails on it (see Findings). A `null` body makes `data.results` throw, and the catch
  stores `[]`.

## Model

| member | source | states |
|---|---|---|
| Digits.DigitsOnly | src/pages/user/Application.js:71 | the stored ID number holds only ASCII digits and is an order-preserving sub-sequence of the typed text |
| Digits.DigitsOnlyKeepsEveryDigit | src/pages/user/Application.js:71 | no digit is dropped: each digit occurs in the result exactly as often as in the input |
| Digits.DigitsOnlyKeepsDigitStrings | src/pages/user/Application.js:71 | a text that is already all digits passes the filter unchanged |
| Digits.DigitsOnlyIdempotent | src/pages/user/Application.js:71 | filtering twice equals filtering once |
| Digits.DigitsOnlyExample | src/pages/user/Application.js:69-72 | "12-34a" is stored as "1234" |
| Drafts.LookupPresent | src/pages/user/Application.js:89 | reading a key the object has never gives `undefined` |
| Drafts.LookupAt | src/pages/user/Application.js:39-53 | in an object with distinct keys, reading the key at a position gives the value at that position |
| Drafts.Keys | src/pages/user/Application.js:114 | `Object.keys`: one name per entry, at the entry's position |
| Drafts.Lookup | src/pages/user/Application.js:89 | `form[k]`: a value read under a key is one the object holds under that key |
| Drafts.Put | src/pages/user/Application.js:72 | object spread with a computed key, for the page's (non-index) names: the key then reads as the new value, every other key reads as before, and the key order is kept (a new key is appended) |
| Drafts.PutKeepsUniqueKeys | src/pages/user/Application.js:77-79 | a write never makes a key appear twice |
| Drafts.PutIdempotent | src/pages/user/Application.js:79 | writing the same value twice equals writing it once |
| Drafts.InitialDraft | src/pages/user/Application.js:39-53 | the empty draft has the thirteen properties in their declared order, each once, text ones `""` and file ones `null` |
| Drafts.InitialLookup | src/pages/user/Application.js:39-53 | reading any form property of the empty draft gives `""`, or `null` for the three file properties |
| Drafts.InitialIdNumber | src/pages/user/Application.js:46 | the ID number starts as the empty string |
| EmailPattern.MatchEmailPattern | src/pages/user/Application.js:95 | a single left-to-right scan answers true exactly when the unanchored pattern `\S+@\S+\.\S+` matches somewhere in the text |
| EmailPattern.ShapedExample | src/pages/user/Application.js:95 | "a@b.co" matches the pattern |
| EmailPattern.UnshapedExample | src/pages/user/Application.js:95 | "not-an-email" does not match the pattern |
| Validation.RequiredErrors | src/pages/user/Application.js:86-93 | the loop flags exactly the listed fields that are missing, each with the required message |
| Validation.Validate | src/pages/user/Application.js:84-103 | keys are a subset of the nine required fields, so optional fields never get one; the seven plain fields are flagged exactly when missing; an empty e-mail gets only the required message and a truthy malformed one only the format message; the same for the ID number with the 13-character rule |
| Validation.ValidateEmptyIffComplete | src/pages/user/Application.js:84-103 | the validator reports nothing exactly when every required field is present and both format rules hold |
| Validation.InitialMissing | src/pages/user/Application.js:25-35 | each of the nine required fields is missing from the empty draft |
| Validation.AllMissing | src/pages/user/Application.js:86-93 | a draft missing all required fields gets the required message on each of the nine fields and nothing else |
| Validation.ValidateInitialDraft | src/pages/user/Application.js:84-103 | the empty draft yields the required message on exactly the nine required fields |
| Validation.OnlyIdDocMissing | src/pages/user/Application.js:88 | a draft complete except for the identity document (absent, `null` or `""`) gets exactly `{id_doc: "This field is required"}` |
| Validation.EmailExamples | src/pages/user/Application.js:95-97 | "a@b.co" gets no e-mail entry; "not-an-email" gets exactly the format message |
| Payload.Serialize | src/pages/user/Application.js:113-118 | the payload holds exactly the draft entries whose value is neither `null` nor `""`, in draft order |
| Payload.SerializeCounts | src/pages/user/Application.js:114-117 | each sent entry occurs in the payload as often as in the draft, and unsent entries never occur |
| Payload.SerializeKeepsKeyOrder | src/pages/user/Application.js:114 | the payload's field names follow the draft's key order and none is sent twice |
| Payload.SerializeLookup | src/pages/user/Application.js:115-116 | a field is in the payload exactly when its draft value is sent, and it carries that value |
| Payload.SerializeInitialDraft | src/pages/user/Application.js:113-118 | the empty draft produces an empty payload |
| Form.Change | src/pages/user/Application.js:67-82 | the named property reads as the digits of the text (ID number), the first file, or the text; every other property, every other error entry and the notice stay the same; the field's error becomes `undefined` |
| Form.ChangeIdempotent | src/pages/user/Application.js:67-82 | repeating the same change gives the same state |
| Form.ChangeIdNumberExample | src/pages/user/Application.js:70-72 | typing "12-34a" into the ID number stores "1234" |
| Form.StoredValue | src/pages/user/Application.js:70-80 | the stored value is never `null`; for the ID number it is an all-digit sub-sequence of the typed text that keeps every digit as often as it was typed; otherwise it is the first selected file, or the text when no file was selected |
| Form.Apply | src/pages/user/Application.js:107-154 | a failed validation replaces the errors with the findings and keeps everything else; acceptance gives the empty draft, no errors and an open notice; a rejection replaces only the errors, verbatim; a failure changes nothing |
| Form.Classify | src/pages/user/Application.js:120-154 | a request counts as accepted only when `res.ok` holds and the body parses; as rejected with the body's map when the status is not ok and the body parses; otherwise as a failure |
| Form.Submit | src/pages/user/Application.js:105-155 | a payload is sent exactly when the draft validates, and it holds the sent draft entries in order; otherwise the errors become the validator's findings and nothing else changes; on acceptance the state becomes the empty draft with no errors and the notice open; on rejection only the errors change, to the server's map verbatim; on failure nothing changes |
| Form.ResubmitSendsSamePayload | src/pages/user/Application.js:148-154 | after a rejection or a failure, calling the submit handler again sends the same payload |
| Form.SubmitEmptyForm | src/pages/user/Application.js:107-111 | calling the submit handler on the empty draft sends nothing and flags all nine required fields |
| Form.SubmitAfterAcceptIsBlocked | src/pages/user/Application.js:127-147 | after an accepted submission, a second call of the submit handler sends nothing, flags all nine required fields and leaves the notice open |
| Form.DismissNotice | src/pages/user/Application.js:455 | closing the notice clears its flag and keeps the draft and errors |
| Form.StepKeepsIdNumberDigits | src/pages/user/Application.js:70-72 | every event keeps the ID number a string of digits |
| Form.RunKeepsIdNumberDigits | src/pages/user/Application.js:70-72 | any sequence of edits, submissions and dismissals keeps the ID number a string of digits |
| Form.ReachableIdNumberDigits | src/pages/user/Application.js:46 | in every state reachable from the mounted page, the ID number holds only digits |
| Form.InitialWellShaped | src/pages/user/Application.js:39-53 | the empty draft has exactly the form's thirteen keys, in order, each once |
| Form.ChangeKeepsShape | src/pages/user/Application.js:72 | an edit of a form field keeps the draft's keys and their order |
| Form.SubmitKeepsShape | src/pages/user/Application.js:129-143 | a submission keeps the draft's keys and their order |
| Form.StepKeepsShape | src/pages/user/Application.js:67-82 | each event raised by the form's inputs keeps the draft's shape |
| Form.RunKeepsShape | src/pages/user/Application.js:67-82 | any run of such events keeps the draft's thirteen keys in order, each once |
| Courses.LoadCourses | src/pages/user/Application.js:58-65 | the stored course list is never falsy; a list body is kept as is; an envelope gives its truthy `results`, or `[]`; a failed request, an unparseable body, `null` or any other body gives `[]` |
| Courses.LoadCoursesGivesList | src/pages/user/Application.js:62 | a list body, or an envelope whose `results` is a list or absent, yields a list; a list body's items are kept in order |
| Courses.LoadCoursesStable | src/pages/user/Application.js:62 | normalising an already normalised list changes nothing |
| Courses.LoadCoursesExamples | src/pages/user/Application.js:62-64 | an envelope holding one course yields that one course; an unparseable body yields `[]` |
| Courses.LoadCoursesKeepsNonList | src/pages/user/Application.js:62 | an envelope whose `results` is the string "x" is stored as it is, so the course list is not a list |
| Courses.LoadCourseList | src/pages/user/Application.js:62 | the intended normaliser always yields a list: a list body as is, an envelope's `results` when it is a list, `[]` otherwise |
| Courses.LoadCourseListAgrees | src/pages/user/Application.js:62 | the intended normaliser agrees with the written one whenever the written one yields a list, and gives `[]` everywhere else |

## Findings

| source | as written | input that shows it | evidently intended | confidence | as-written member | corrected member |
|---|---|---|---|---|---|---|
| src/pages/user/Application.js:62 | `data.results \|\| []` stores any truthy `results`, list or not, and the page then calls `courses.map` on it (line 344) | a body `{"results": "x"}` | store `results` only when it is a list, `[]` otherwise | not executed; medium, a backend that pages its lists always sends a list here | Courses.LoadCoursesKeepsNonList | Courses.LoadCourseList |

No other part of the model reads the course list. `Courses.LoadCourses` keeps the written behaviour, and `Courses.LoadCourseListAgrees` pins down exactly where the two differ.

## Left out

- Rendering: the JSX, Material UI components, helper texts and styling (src/pages/user/Application.js:157-467). This markup also carries checks of its own, which are left out with the browser (next line).
- Form.Submit: `Press` models a direct call of `handleSubmit`. The browser's built-in form validation sits in front of that call and is not modelled: the form has no `noValidate`, there are nine `required` inputs, the e-mail input has `type="email"`, and the ID number has `pattern: "\\d{13}"` (src/pages/user/Application.js:216-326). So in a browser an empty form, or an ID number that is not 13 digits, does not reach the handler at all. The ID number input also has `maxLength: 13`, which limits what its change events can carry; `Edit` events may carry longer text the browser would not produce. That only widens the inputs, so every invariant proved over `Edit` events still holds for the browser's.
- Drafts.Put: states object-spread ordering only for property names that do not look like array indexes. JavaScript orders index-like names such as "0" first. None of the page's thirteen names is index-like.
- The two `fetch` calls and `res.json()`. Their results are parameters: `CourseFetch` for the course list and `Response` for the intake request.
- Clearing the three file inputs through `document.getElementById(...)`, a DOM side effect, and the `console.log` diagnostics.
- The notice's 4000 ms auto-hide timer. The timer firing is the same `Dismiss` event as pressing the close button.
- File contents and the `accept` type hints. Files are opaque tokens, and the code never looks inside them.
- Asynchrony: double submission, responses arriving out of order, and React's batching of state updates (the handlers read the state of the last render). The model applies each event to the latest state, in order.
- Form.Submit: a rejection body is modelled as a map from field name to message or message list. A rejection body that is not a JSON object (a bare string or list) is not modelled, although `setErrors` would store it too.
- Course selection: the course selector hands over the chosen course's `id`, which may be a number. It is modelled as its text.
- Validation.Validate: the 13-character rule counts characters where JavaScript counts UTF-16 code units. The two agree on every digit string, and the change handler only ever stores digit strings in the ID number.
- Courses.LoadCourses: JSON numbers are modelled as integers. Only their truthiness matters here.
- `src/pages/admin/AdminNavbar.js`: navigation chrome whose only state is a drawer's open flag.
