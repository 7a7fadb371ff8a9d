/** The e-mail shape test `/\S+@\S+\.\S+/.test(email)`.  The pattern is not
    anchored, so it succeeds when SOME stretch of the text has the shape
    "non-blank run, @, non-blank run, dot, non-blank run". */
module EmailPattern {

  /** The characters JavaScript's `\s` matches; `\S` is everything else. */
  predicate IsSpace(c: char) {
    || c == ' ' || c == '\t' || c == '\n' || c == '\r'
    || c == '\U{000B}' || c == '\U{000C}' || c == '\U{00A0}' || c == '\U{1680}'
    || ('\U{2000}' <= c <= '\U{200A}')
    || c == '\U{2028}' || c == '\U{2029}' || c == '\U{202F}' || c == '\U{205F}'
    || c == '\U{3000}' || c == '\U{FEFF}'
  }

  /** No whitespace in `s[lo..hi]`. */
  predicate NoSpaceIn(s: string, lo: int, hi: int)
    requires 0 <= lo <= hi <= |s|
  {
    forall k :: lo <= k < hi ==> !IsSpace(s[k])
  }

  /** The pattern matches with its `@` at index `at` and its `.` at index
      `dot`: one non-blank character before the `@` is all `\S+` needs,
      at least one between `@` and `.`, and one after the `.`. */
  predicate MatchAt(s: string, at: int, dot: int) {
    && 0 < at && at + 2 <= dot && dot + 2 <= |s|
    && s[at] == '@' && s[dot] == '.'
    && NoSpaceIn(s, at - 1, dot + 2)
  }

  /** Reference meaning of the regular-expression test. */
  predicate EmailShaped(s: string) {
    exists at, dot :: 0 <= at < |s| && 0 <= dot < |s| && MatchAt(s, at, dot)
  }

  /** The test as one left-to-right scan.  `start` is where the current
      whitespace-free run begins; `at` is the first `@` of that run that has
      a character of the run before it, or -1. */
  method MatchEmailPattern(s: string) returns (found: bool)
    ensures found <==> EmailShaped(s)
  {
    var start := 0;
    var at := -1;
    var i := 0;
    while i < |s|
      invariant 0 <= start <= i <= |s|
      invariant NoSpaceIn(s, start, i)
      invariant start > 0 ==> IsSpace(s[start - 1])
      invariant at == -1 ==> forall a :: start < a < i ==> s[a] != '@'
      invariant at != -1 ==> start < at < i && s[at] == '@'
      invariant at != -1 ==> forall a :: start < a < at ==> s[a] != '@'
      invariant forall a, d :: 0 <= a < |s| && 0 <= d < i ==> !MatchAt(s, a, d)
    {
      var c := s[i];
      if IsSpace(c) {
        forall a | 0 <= a < |s| ensures !MatchAt(s, a, i) {
        }
        start, at := i + 1, -1;
      } else if c == '@' {
        if at == -1 && start < i {
          at := i;
        }
      } else if c == '.' && at != -1 && at + 2 <= i && i + 1 < |s| && !IsSpace(s[i + 1]) {
        assert MatchAt(s, at, i);
        return true;
      } else {
        forall a | 0 <= a < |s| ensures !MatchAt(s, a, i) {
        }
      }
      i := i + 1;
    }
    return false;
  }

  lemma ShapedExample()
    ensures EmailShaped("a@b.co")
  {
    assert MatchAt("a@b.co", 1, 3);
  }

  lemma UnshapedExample()
    ensures !EmailShaped("not-an-email")
  {
    var s := "not-an-email";
    forall at, dot | 0 <= at < |s| && 0 <= dot < |s| ensures !MatchAt(s, at, dot) {
      assert s[at] != '@';
    }
  }
}
