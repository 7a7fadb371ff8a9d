/** The multipart payload built by `handleSubmit`: one part per draft
    property, skipping those that hold `null` or `""`. */
module Payload {
  import opened Options
  import opened Seqs
  import opened Drafts

  /** A value that is sent: neither `null` nor the empty string. */
  predicate Sent(v: Value) {
    v != Null && v != Str("")
  }

  /** The parts of the payload, each a field name and its text or file. */
  function Serialize(d: Draft): (parts: seq<Entry>)
    ensures forall e :: e in parts <==> e in d && Sent(e.value)
    ensures IsSubsequence(parts, d)
  {
    if |d| == 0 then []
    else
      var rest := Serialize(d[1..]);
      assert forall e :: e in d <==> e == d[0] || e in d[1..];
      if Sent(d[0].value) then
        var parts := [d[0]] + rest;
        assert parts[1..] == rest;
        parts
      else rest
  }

  /** Each sent entry occurs in the payload exactly as often as in the
      draft, and an entry that is not sent does not occur at all.  With
      `IsSubsequence` this fixes the payload for every draft, even one that
      holds an entry twice. */
  lemma {:induction false} SerializeCounts(d: Draft, e: Entry)
    ensures multiset(Serialize(d))[e] == if Sent(e.value) then multiset(d)[e] else 0
  {
    if |d| > 0 {
      SerializeCounts(d[1..], e);
      assert d == [d[0]] + d[1..];
      if Sent(d[0].value) {
        assert Serialize(d) == [d[0]] + Serialize(d[1..]);
      }
    }
  }

  /** The payload's field names appear in the same order as in the draft,
      and no name is sent twice. */
  lemma {:induction false} SerializeKeepsKeyOrder(d: Draft)
    requires UniqueKeys(d)
    ensures IsSubsequence(Keys(Serialize(d)), Keys(d))
    ensures UniqueKeys(Serialize(d))
  {
    if |d| > 0 {
      assert UniqueKeys(d[1..]);
      SerializeKeepsKeyOrder(d[1..]);
      var rest := Serialize(d[1..]);
      assert Keys(d)[1..] == Keys(d[1..]);
      if Sent(d[0].value) {
        var parts := [d[0]] + rest;
        assert Keys(parts)[1..] == Keys(rest);
        forall j | 0 < j < |parts| ensures parts[0].key != parts[j].key {
          assert parts[j] in d[1..];
        }
      }
    }
  }

  /** For a draft with distinct names, a field is sent exactly when its
      value is sent, and it carries that value. */
  lemma SerializeLookup(d: Draft, k: string)
    requires UniqueKeys(d)
    ensures var v := Lookup(d, k);
            Lookup(Serialize(d), k) == if v.Some? && Sent(v.value) then v else None
  {
    SerializeKeepsKeyOrder(d);
    var parts := Serialize(d);
    var v := Lookup(d, k);
    var w := Lookup(parts, k);
    if w.Some? {
      assert Entry(k, w.value) in d;
      var i :| 0 <= i < |d| && d[i] == Entry(k, w.value);
      LookupAt(d, i);
    } else if v.Some? && Sent(v.value) {
      LookupPresent(parts, Entry(k, v.value));
    }
  }

  /** Nothing of the empty draft is sent. */
  lemma SerializeInitialDraft()
    ensures Serialize(InitialDraft()) == []
  {
  }
}
