/** The e-mail regular expression `/^[^\s@]+@[^\s@]+\.[^\s@]+$/` that both
    the admin dashboard and the blog use, as an explicit character-level
    predicate (what the expression means) and a scanner (how a match is
    decided), with the proof that the two agree. */
module Patterns {
  import opened Strings

  /** A character of the class `[^\s@]`. */
  predicate EmailChar(c: char)
  {
    c != '@' && !IsWhitespace(c)
  }

  /** `s` reads as `[^\s@]+ @ [^\s@]+ \. [^\s@]+` with the `@` at index `at`
      and the `.` at index `dot`. */
  predicate EmailSplitAt(s: string, at: int, dot: int)
  {
    && 0 < at && at + 1 < dot && dot + 1 < |s|
    && s[at] == '@' && s[dot] == '.'
    && forall k | 0 <= k < |s| && k != at :: EmailChar(s[k])
  }

  /** What the regular expression accepts: a whole-string match. */
  predicate EmailPattern(s: string)
  {
    exists at, dot | 0 <= at < |s| && 0 <= dot < |s| :: EmailSplitAt(s, at, dot)
  }

  /** Index of the first `c` in `s`, or `|s|` when there is none. */
  function IndexOfChar(s: string, c: char): (i: nat)
    ensures i <= |s|
    ensures i < |s| ==> s[i] == c
    ensures forall k | 0 <= k < i :: s[k] != c
  {
    if s == [] then 0
    else if s[0] == c then 0
    else 1 + IndexOfChar(s[1..], c)
  }

  predicate AllEmailChars(t: string)
  {
    forall k | 0 <= k < |t| :: EmailChar(t[k])
  }

  /** The scanner: find the `@`, then check both sides and look for a dot
      that has at least one character on each side of it. */
  function MatchesEmail(s: string): bool
  {
    var at := IndexOfChar(s, '@');
    && 0 < at < |s|
    && AllEmailChars(s[..at])
    && AllEmailChars(s[at + 1..])
    && HasInnerDot(s[at + 1..])
  }

  /** `d` holds a `.` with at least one character before and after it. */
  predicate HasInnerDot(d: string)
  {
    exists j | 1 <= j < |d| - 1 :: d[j] == '.'
  }

  /** The scanner decides the regular expression, in both directions. */
  lemma MatchesEmailCorrect(s: string)
    ensures MatchesEmail(s) <==> EmailPattern(s)
  {
    var at := IndexOfChar(s, '@');
    if MatchesEmail(s) {
      var j :| 1 <= j < |s| - at - 2 && s[at + 1..][j] == '.';
      forall k | 0 <= k < |s| && k != at ensures EmailChar(s[k]) {
        if k < at { assert s[k] == s[..at][k]; }
        else { assert s[k] == s[at + 1..][k - at - 1]; }
      }
      assert EmailSplitAt(s, at, at + 1 + j);
    }
    if EmailPattern(s) {
      var a, d :| 0 <= a < |s| && 0 <= d < |s| && EmailSplitAt(s, a, d);
      assert s[a] == '@';
      assert at <= a;
      assert !EmailChar(s[at]);
      assert s[at + 1..][d - at - 1] == '.';
    }
  }

  /** Reading the expression left to right: any three runs of `[^\s@]`
      joined by `@` and `.` match. */
  lemma EmailPatternIntro(local: string, domain: string, tld: string)
    requires |local| >= 1 && |domain| >= 1 && |tld| >= 1
    requires AllEmailChars(local) && AllEmailChars(domain) && AllEmailChars(tld)
    ensures EmailPattern(local + "@" + domain + "." + tld)
  {
    var s := local + "@" + domain + "." + tld;
    var at, dot := |local|, |local| + 1 + |domain|;
    forall k | 0 <= k < |s| && k != at ensures EmailChar(s[k]) {
      if k < at { assert s[k] == local[k]; }
      else if k < dot { assert s[k] == domain[k - at - 1]; }
      else if k > dot { assert s[k] == tld[k - dot - 1]; }
    }
    assert EmailSplitAt(s, at, dot);
  }

  /** An address the expression accepts holds exactly one `@`, is not empty
      and holds no whitespace. */
  lemma EmailPatternOneAt(s: string)
    requires EmailPattern(s)
    ensures Occurrences(s, '@') == 1
    ensures forall k | 0 <= k < |s| :: !IsWhitespace(s[k])
  {
    var a, d :| 0 <= a < |s| && 0 <= d < |s| && EmailSplitAt(s, a, d);
    OccursOnce(s, '@', a);
  }
}
