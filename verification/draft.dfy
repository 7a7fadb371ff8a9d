/** The applicant draft: the `form` object of the intake page.  A JavaScript
    object remembers the order in which its keys were inserted, and that order
    decides the order of the multipart payload, so the draft is an
    association list rather than a map. */
module Drafts {
  import opened Options

  /** A selected file.  The form never reads a file's contents. */
  datatype FileToken = FileToken(id: nat)

  /** What one property of the draft can hold. */
  datatype Value = Null | Str(text: string) | File(file: FileToken)

  datatype Entry = Entry(key: string, value: Value)

  type Draft = seq<Entry>

  /** The property names in insertion order (`Object.keys`). */
  function Keys(d: Draft): (ks: seq<string>)
    ensures |ks| == |d|
    ensures forall i :: 0 <= i < |d| ==> ks[i] == d[i].key
  {
    if |d| == 0 then [] else [d[0].key] + Keys(d[1..])
  }

  /** An object has each property at most once. */
  predicate UniqueKeys(d: Draft) {
    forall i, j :: 0 <= i < j < |d| ==> d[i].key != d[j].key
  }

  /** `form[k]`: the value stored under `k`, or `undefined`. */
  function Lookup(d: Draft, k: string): (r: Option<Value>)
    ensures r.Some? ==> Entry(k, r.value) in d
  {
    if |d| == 0 then None
    else if d[0].key == k then Some(d[0].value)
    else Lookup(d[1..], k)
  }

  /** A key that has an entry can be read. */
  lemma {:induction false} LookupPresent(d: Draft, e: Entry)
    requires e in d
    ensures Lookup(d, e.key).Some?
  {
    if d[0] != e && d[0].key != e.key {
      LookupPresent(d[1..], e);
    }
  }

  /** In an object with distinct keys, looking up the key at position `i`
      finds the value at position `i`. */
  lemma {:induction false} LookupAt(d: Draft, i: int)
    requires UniqueKeys(d)
    requires 0 <= i < |d|
    ensures Lookup(d, d[i].key) == Some(d[i].value)
  {
    if i > 0 {
      LookupAt(d[1..], i - 1);
    }
  }

  /** `{...d, [k]: v}` for the page's property names: a property that
      exists is overwritten where it stands; a new one is appended after all
      others.  (JavaScript would order a name that looks like an array index
      first; none of the page's names does.) */
  function Put(d: Draft, k: string, v: Value): (r: Draft)
    ensures Lookup(r, k) == Some(v)
    ensures forall k' :: k' != k ==> Lookup(r, k') == Lookup(d, k')
    ensures Keys(r) == if k in Keys(d) then Keys(d) else Keys(d) + [k]
  {
    if |d| == 0 then [Entry(k, v)]
    else if d[0].key == k then
      var r := [Entry(k, v)] + d[1..];
      assert r[1..] == d[1..];
      r
    else
      var rest := Put(d[1..], k, v);
      var r := [d[0]] + rest;
      assert r[1..] == rest;
      assert Lookup(r, k) == Lookup(rest, k);
      assert k in Keys(d) <==> k in Keys(d[1..]);
      r
  }

  /** Writing a property never makes a key appear twice. */
  lemma PutKeepsUniqueKeys(d: Draft, k: string, v: Value)
    requires UniqueKeys(d)
    ensures UniqueKeys(Put(d, k, v))
  {
    var r := Put(d, k, v);
    forall i, j | 0 <= i < j < |r| ensures r[i].key != r[j].key {
      assert Keys(r)[i] == r[i].key && Keys(r)[j] == r[j].key;
      if j < |d| {
        assert Keys(d)[i] == d[i].key && Keys(d)[j] == d[j].key;
      } else {
        assert Keys(d)[i] == d[i].key;
      }
    }
  }

  /** Writing the same value twice is the same as writing it once. */
  lemma {:induction false} PutIdempotent(d: Draft, k: string, v: Value)
    ensures Put(Put(d, k, v), k, v) == Put(d, k, v)
  {
    if |d| > 0 && d[0].key != k {
      PutIdempotent(d[1..], k, v);
    }
  }

  /** Every property of the form, in the order the initial object lists them. */
  const FormFields: seq<string> := [
    "first_name", "middle_name", "last_name", "gender", "email", "phone",
    "id_number", "course", "qualification", "motivation",
    "qualification_doc", "id_doc", "cv"]

  /** The properties that hold a selected file rather than text. */
  const FileFields: set<string> := {"qualification_doc", "id_doc", "cv"}

  /** The empty draft the page starts with and returns to after a successful
      submission: every text property `""`, every file property `null`. */
  function InitialDraft(): (d: Draft)
    ensures |d| == |FormFields|
    ensures forall i :: 0 <= i < |d| ==> d[i].key == FormFields[i]
    ensures UniqueKeys(d)
    ensures forall i :: 0 <= i < |d| ==>
              d[i].value == if d[i].key in FileFields then Null else Str("")
  {
    [ Entry("first_name", Str("")), Entry("middle_name", Str("")),
      Entry("last_name", Str("")), Entry("gender", Str("")),
      Entry("email", Str("")), Entry("phone", Str("")),
      Entry("id_number", Str("")), Entry("course", Str("")),
      Entry("qualification", Str("")), Entry("motivation", Str("")),
      Entry("qualification_doc", Null), Entry("id_doc", Null),
      Entry("cv", Null) ]
  }

  /** What the empty draft holds under each property name. */
  lemma InitialLookup(k: string)
    requires k in FormFields
    ensures Lookup(InitialDraft(), k) == Some(if k in FileFields then Null else Str(""))
  {
    var d := InitialDraft();
    var i :| 0 <= i < |FormFields| && FormFields[i] == k;
    assert Keys(d)[i] == d[i].key;
    LookupAt(d, i);
  }

  lemma InitialIdNumber()
    ensures Lookup(InitialDraft(), "id_number") == Some(Str(""))
  {
    InitialLookup("id_number");
  }
}
