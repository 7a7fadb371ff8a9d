/** The submit-time validator `validate()`: a pure function from the draft to
    a map from field name to message. */
module Validation {
  import opened Options
  import opened Drafts
  import opened EmailPattern

  const RequiredMsg: string := "This field is required"
  const EmailMsg: string := "Enter a valid email address"
  const IdNumberMsg: string := "ID number must be exactly 13 digits"

  /** The nine fields an applicant must fill in, in the order they are checked. */
  const RequiredFields: seq<string> := [
    "first_name", "last_name", "gender", "email", "phone",
    "id_number", "course", "qualification", "id_doc"]

  /** JavaScript truthiness of a property read: `undefined`, `null` and `""`
      are falsy, any other string and any file are truthy. */
  predicate Truthy(v: Option<Value>) {
    match v
    case None => false
    case Some(Null) => false
    case Some(Str(t)) => t != ""
    case Some(File(_)) => true
  }

  /** The text a regular expression sees when handed a value (`String(v)`). */
  function TextOf(v: Value): string {
    match v
    case Null => "null"
    case Str(t) => t
    case File(_) => "[object File]"
  }

  /** The required-field test: `id_doc` is missing when falsy, every other
      field when it is exactly `""` or `null` (an absent property is neither). */
  predicate Missing(d: Draft, f: string) {
    if f == "id_doc" then !Truthy(Lookup(d, f))
    else Lookup(d, f) == Some(Str("")) || Lookup(d, f) == Some(Null)
  }

  /** A truthy e-mail value the pattern does not match. */
  predicate EmailMalformed(d: Draft) {
    Truthy(Lookup(d, "email")) && !EmailShaped(TextOf(Lookup(d, "email").value))
  }

  /** A truthy ID number whose `length` is not 13 (a file has no `length`). */
  predicate IdNumberMalformed(d: Draft) {
    var v := Lookup(d, "id_number");
    Truthy(v) && !(v.value.Str? && |v.value.text| == 13)
  }

  /** The `requiredFields.forEach` loop over `fields`. */
  function RequiredErrors(d: Draft, fields: seq<string>): (m: map<string, string>)
    ensures m.Keys == set f | f in fields && Missing(d, f)
    ensures forall f :: f in m ==> m[f] == RequiredMsg
  {
    if |fields| == 0 then map[]
    else
      var rest := RequiredErrors(d, fields[1..]);
      assert forall f :: f in fields <==> f == fields[0] || f in fields[1..];
      if Missing(d, fields[0]) then rest[fields[0] := RequiredMsg] else rest
  }

  /** `validate()`: every rule is applied; the e-mail and ID-number format
      messages are written after, and so replace, a required message. */
  function Validate(d: Draft): (r: map<string, string>)
    ensures r.Keys <= set f | f in RequiredFields
    ensures forall f :: f in RequiredFields && f != "email" && f != "id_number" ==>
              (f in r <==> Missing(d, f))
    ensures forall f :: f in r && f != "email" && f != "id_number" ==> r[f] == RequiredMsg
    ensures "email" in r <==> Missing(d, "email") || EmailMalformed(d)
    ensures EmailMalformed(d) ==> r["email"] == EmailMsg
    ensures Missing(d, "email") ==> r["email"] == RequiredMsg
    ensures "id_number" in r <==> Missing(d, "id_number") || IdNumberMalformed(d)
    ensures IdNumberMalformed(d) ==> r["id_number"] == IdNumberMsg
    ensures Missing(d, "id_number") ==> r["id_number"] == RequiredMsg
  {
    var required := RequiredErrors(d, RequiredFields);
    var withEmail := if EmailMalformed(d) then required["email" := EmailMsg] else required;
    if IdNumberMalformed(d) then withEmail["id_number" := IdNumberMsg] else withEmail
  }

  /** A draft the validator lets through, stated field by field. */
  predicate Complete(d: Draft) {
    && (forall f :: f in RequiredFields ==> !Missing(d, f))
    && !EmailMalformed(d)
    && !IdNumberMalformed(d)
  }

  /** The validator reports nothing exactly when the draft is complete. */
  lemma ValidateEmptyIffComplete(d: Draft)
    ensures Validate(d) == map[] <==> Complete(d)
  {
    var r := Validate(d);
    if r == map[] {
      forall f | f in RequiredFields ensures !Missing(d, f) {
        assert f !in r;
      }
    } else {
      var f :| f in r;
    }
  }

  /** Every required field is missing from the empty draft. */
  lemma InitialMissing(f: string)
    requires f in RequiredFields
    ensures Missing(InitialDraft(), f)
  {
    assert f in FormFields;
    assert f in FileFields <==> f == "id_doc";
    InitialLookup(f);
  }

  /** A draft missing every required field gets the required message on
      each of them and nothing else. */
  lemma AllMissing(d: Draft)
    requires forall f :: f in RequiredFields ==> Missing(d, f)
    ensures Validate(d) == map f | f in RequiredFields :: RequiredMsg
  {
    var r := Validate(d);
    assert !EmailMalformed(d) && !IdNumberMalformed(d);
    assert r.Keys == (map f | f in RequiredFields :: RequiredMsg).Keys;
  }

  /** The empty draft fails exactly the required rule on all nine fields. */
  lemma ValidateInitialDraft()
    ensures Validate(InitialDraft()) == map f | f in RequiredFields :: RequiredMsg
  {
    forall f | f in RequiredFields ensures Missing(InitialDraft(), f) {
      InitialMissing(f);
    }
    AllMissing(InitialDraft());
  }

  /** A filled-in draft without the identity document is held back by that
      one field alone. */
  lemma OnlyIdDocMissing(d: Draft)
    requires forall f :: f in RequiredFields && f != "id_doc" ==> !Missing(d, f)
    requires !EmailMalformed(d) && !IdNumberMalformed(d)
    requires Missing(d, "id_doc")
    ensures Validate(d) == map["id_doc" := RequiredMsg]
  {
  }

  /** "a@b.co" passes the e-mail rule; "not-an-email" gets the format
      message and not the required one. */
  lemma EmailExamples(d: Draft)
    ensures Lookup(d, "email") == Some(Str("a@b.co")) ==> "email" !in Validate(d)
    ensures Lookup(d, "email") == Some(Str("not-an-email")) ==>
              "email" in Validate(d) && Validate(d)["email"] == EmailMsg
  {
    ShapedExample();
    UnshapedExample();
  }
}
