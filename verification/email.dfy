/** The e-mail shape check of the credential store: the regular expression
    `^[^\s@]+@[^\s@]+\.[^\s@]+$`. */
module Email {
  import opened Results
  import opened Text

  /** A character of the class `[^\s@]`. */
  predicate IsAtom(c: char)
  {
    !IsWhitespace(c) && c != '@'
  }

  predicate AllAtoms(s: string)
  {
    forall i :: 0 <= i < |s| ==> IsAtom(s[i])
  }

  /** Reference reading of the regular expression on positions: an '@' at
      index `a` and a '.' at index `j` split `s` into three non-empty runs of
      `[^\s@]` (local part, domain before the dot, domain after the dot), and
      every other character is in `[^\s@]`. A '.' may also occur inside the
      runs, since `[^\s@]` admits it. */
  ghost predicate MatchesEmailPattern(s: string)
  {
    exists a, j :: 0 < a && a + 1 < j < |s| - 1 && s[a] == '@' && s[j] == '.' &&
      forall k :: 0 <= k < |s| && k != a ==> IsAtom(s[k])
  }

  /** The domain part has a '.' with at least one character on each side. */
  predicate HasInnerDot(d: string)
  {
    exists j :: 1 <= j < |d| - 1 && d[j] == '.'
  }

  /** `isValidEmail`: split at the first '@', then demand a non-empty local
      part, a domain free of '@' and whitespace, and an inner dot. Accepts
      exactly the strings the regular expression matches. */
  function IsValidEmail(s: string): (ok: bool)
    ensures ok <==> MatchesEmailPattern(s)
  {
    match FindFirst(s, c => c == '@')
    case None =>
      assert !MatchesEmailPattern(s);
      false
    case Some(a) =>
      var ok := 0 < a && AllAtoms(s[..a]) && AllAtoms(s[a + 1..]) && HasInnerDot(s[a + 1..]);
      assert ok ==> MatchesEmailPattern(s) by {
        if ok {
          var d := s[a + 1..];
          var j :| 1 <= j < |d| - 1 && d[j] == '.';
          assert s[a + 1 + j] == '.';
          forall k | 0 <= k < |s| && k != a ensures IsAtom(s[k]) {
            if k < a { assert s[k] == s[..a][k]; } else { assert s[k] == d[k - a - 1]; }
          }
        }
      }
      assert MatchesEmailPattern(s) ==> ok by {
        if MatchesEmailPattern(s) {
          var a', j :| 0 < a' && a' + 1 < j < |s| - 1 && s[a'] == '@' && s[j] == '.' &&
            forall k :: 0 <= k < |s| && k != a' ==> IsAtom(s[k]);
          assert !IsAtom(s[a]);
          var d := s[a + 1..];
          assert d[j - a - 1] == '.';
        }
      }
      ok
  }

  /** Consequences spelled out in the front end's own terms: a valid address
      contains no whitespace and exactly one '@', which is not its first
      character. */
  lemma ValidEmailShape(s: string)
    requires IsValidEmail(s)
    ensures forall k :: 0 <= k < |s| ==> !IsWhitespace(s[k])
    ensures exists a :: 0 < a < |s| && s[a] == '@' && forall k :: 0 <= k < |s| && s[k] == '@' ==> k == a
  {
    var a, j :| 0 < a && a + 1 < j < |s| - 1 && s[a] == '@' && s[j] == '.' &&
      forall k :: 0 <= k < |s| && k != a ==> IsAtom(s[k]);
    assert forall k :: 0 <= k < |s| && s[k] == '@' ==> k == a;
  }
}
