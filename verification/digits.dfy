/** The `id_number` input filter: `value.replace(/\D/g, "")`. */
module Digits {
  import opened Seqs

  /** `\d` without the `u` flag: the ASCII digits only. */
  predicate IsDigit(c: char) {
    '0' <= c <= '9'
  }

  predicate AllDigits(s: string) {
    forall i :: 0 <= i < |s| ==> IsDigit(s[i])
  }

  /** Removes every character matched by `\D`, keeping the digits in order. */
  function DigitsOnly(s: string): (r: string)
    ensures AllDigits(r)
    ensures IsSubsequence(r, s)
  {
    if |s| == 0 then ""
    else if IsDigit(s[0]) then [s[0]] + DigitsOnly(s[1..])
      else DigitsOnly(s[1..])
  }

  /** No digit is lost: each digit occurs in the result exactly as often as
      in the input.  Together with `AllDigits` and `IsSubsequence` this pins
      the result down to "the input with the non-digits removed". */
  lemma {:induction false} DigitsOnlyKeepsEveryDigit(s: string, c: char)
    requires IsDigit(c)
    ensures multiset(DigitsOnly(s))[c] == multiset(s)[c]
  {
    if |s| > 0 {
      DigitsOnlyKeepsEveryDigit(s[1..], c);
      assert s == [s[0]] + s[1..];
    }
  }

  /** A string that is already all digits passes the filter unchanged,
      so filtering twice is the same as filtering once. */
  lemma {:induction false} DigitsOnlyKeepsDigitStrings(s: string)
    requires AllDigits(s)
    ensures DigitsOnly(s) == s
  {
    if |s| > 0 {
      assert AllDigits(s[1..]) by {
        forall i | 0 <= i < |s[1..]| ensures IsDigit(s[1..][i]) {
          assert s[1..][i] == s[i + 1];
        }
      }
      DigitsOnlyKeepsDigitStrings(s[1..]);
      assert IsDigit(s[0]);
      assert s == [s[0]] + s[1..];
    }
  }

  lemma DigitsOnlyIdempotent(s: string)
    ensures DigitsOnly(DigitsOnly(s)) == DigitsOnly(s)
  {
    DigitsOnlyKeepsDigitStrings(DigitsOnly(s));
  }

  /** The worked example: a dash and a letter are dropped. */
  lemma DigitsOnlyExample()
    ensures DigitsOnly("12-34a") == "1234"
  {
    var s := "12-34a";
    assert DigitsOnly(s[6..]) == "";
    assert DigitsOnly(s[5..]) == "";
    assert DigitsOnly(s[4..]) == "4";
    assert DigitsOnly(s[3..]) == "34";
    assert DigitsOnly(s[2..]) == "34";
    assert DigitsOnly(s[1..]) == "234";
  }
}
