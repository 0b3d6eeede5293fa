/**
  The email check of the registration form: the unanchored regular
  expression `\S+@\S+\.\S+`, for which `RegExp.prototype.test` succeeds when
  some substring of the input matches it.
 */
module EmailPattern {
  import opened Text

  /** The literal reading of the pattern: a substring `s[i..j]` splits into
      a non-empty run of non-whitespace, `@`, a non-empty run of
      non-whitespace, `.`, and a non-empty run of non-whitespace. */
  ghost predicate HasMatchingSubstring(s: string)
  {
    exists i, at, dot, j :: MatchingSubstring(s, i, at, dot, j)
  }

  /** `s[i..j]` is `u + "@" + v + "." + w` with `u`, `v`, `w` non-empty runs
      of non-whitespace, `@` at `at` and `.` at `dot`. */
  ghost predicate MatchingSubstring(s: string, i: int, at: int, dot: int, j: int)
  {
    && 0 <= i < at && at + 1 < dot && dot + 1 < j <= |s|
    && s[at] == '@' && s[dot] == '.'
    && NoSpace(s[i..at]) && NoSpace(s[at + 1..dot]) && NoSpace(s[dot + 1..j])
  }

  /** The two runs at the ends can always be shortened to one character, so a
      match is fixed by the index of its `@` and the index of its `.`. */
  predicate MatchesAt(s: string, at: int, dot: int)
  {
    && 0 < at && at + 1 < dot && dot + 1 < |s|
    && s[at] == '@' && s[dot] == '.'
    && !IsSpace(s[at - 1]) && !IsSpace(s[dot + 1])
    && NoSpace(s[at + 1..dot])
  }

  /** `/\S+@\S+\.\S+/.test(s)`. A blank string never matches, so an email
      gets at most one of the "required" and "format" messages. */
  predicate IsEmailLike(s: string)
    ensures IsEmailLike(s) ==> !IsBlank(s)
  {
    exists at, dot | 0 <= at < dot < |s| :: MatchesAt(s, at, dot)
  }

  /** The decision by `@` and `.` positions is exactly the regular expression's
      substring semantics, in both directions. */
  lemma IsEmailLikeIffSubstringMatch(s: string)
    ensures IsEmailLike(s) <==> HasMatchingSubstring(s)
  {
    if IsEmailLike(s) {
      var at, dot :| 0 <= at < dot < |s| && MatchesAt(s, at, dot);
      assert s[at - 1..at] == [s[at - 1]];
      assert s[dot + 1..dot + 2] == [s[dot + 1]];
      assert MatchingSubstring(s, at - 1, at, dot, dot + 2);
    }
    if HasMatchingSubstring(s) {
      var i, at, dot, j :| MatchingSubstring(s, i, at, dot, j);
      assert s[i..at][at - 1 - i] == s[at - 1];
      assert s[dot + 1..j][0] == s[dot + 1];
      assert MatchesAt(s, at, dot);
    }
  }

  /** Every match needs an `@`: a string without one is never email-like. */
  lemma NoAtSignNoMatch(s: string)
    requires forall k | 0 <= k < |s| :: s[k] != '@'
    ensures !IsEmailLike(s)
  {
  }

  /** A match needs at least five characters (`x@y.z`). */
  lemma MatchNeedsFiveCharacters(s: string)
    requires IsEmailLike(s)
    ensures |s| >= 5
  {
  }

  /** The address used as the valid example: `a@b.com`. */
  lemma SampleAddressMatches()
    ensures IsEmailLike("a@b.com")
  {
    assert MatchesAt("a@b.com", 1, 3);
  }
}
