/**
 * Python's `str.count(sub)` on strings: the number of non-overlapping
 * occurrences of `sub` in a string, found by scanning from the left.
 */
module PyStr {

  /** `pat` occurs in `s` starting at index `i`. */
  predicate OccursAt(s: string, pat: string, i: nat) {
    i + |pat| <= |s| && s[i..i + |pat|] == pat
  }

  /** `pat` is a substring of `s` (Python's `pat in s`). */
  predicate Contains(s: string, pat: string) {
    exists i: nat | i <= |s| :: OccursAt(s, pat, i)
  }

  /**
   * `s.count(pat)`. An occurrence at the scan position is counted and the scan
   * resumes after it, so occurrences never overlap; the empty pattern matches
   * at each of the |s| + 1 positions.
   */
  function Count(s: string, pat: string): (n: nat)
    ensures pat != [] ==> n * |pat| <= |s|
    decreases |s|
  {
    if pat == [] then |s| + 1
    else if |s| < |pat| then 0
    else if s[..|pat|] == pat then 1 + Count(s[|pat|..], pat)
    else Count(s[1..], pat)
  }

  /** Dropping the first character moves every occurrence one place to the left. */
  lemma OccursAtTail(s: string, pat: string, i: nat)
    requires s != []
    ensures OccursAt(s[1..], pat, i) <==> OccursAt(s, pat, i + 1)
  {
  }

  /** Every occurrence makes the count positive. */
  lemma {:induction false} OccurrenceCounted(s: string, pat: string, i: nat)
    requires OccursAt(s, pat, i)
    ensures Count(s, pat) > 0
    decreases i
  {
    if pat != [] && s[..|pat|] != pat {
      assert i > 0;
      OccursAtTail(s, pat, i - 1);
      OccurrenceCounted(s[1..], pat, i - 1);
    }
  }

  /** A positive count means the pattern occurs somewhere. */
  lemma {:induction false} CountedOccurs(s: string, pat: string)
    requires Count(s, pat) > 0
    ensures Contains(s, pat)
    decreases |s|
  {
    if pat == [] || s[..|pat|] == pat {
      assert OccursAt(s, pat, 0);
    } else {
      CountedOccurs(s[1..], pat);
      var i: nat :| i <= |s[1..]| && OccursAt(s[1..], pat, i);
      OccursAtTail(s, pat, i);
    }
  }

  /** The count is zero exactly when the pattern does not occur at all. */
  lemma CountZeroIff(s: string, pat: string)
    ensures Count(s, pat) == 0 <==> !Contains(s, pat)
  {
    if Contains(s, pat) {
      var i: nat :| i <= |s| && OccursAt(s, pat, i);
      OccurrenceCounted(s, pat, i);
    }
    if Count(s, pat) > 0 {
      CountedOccurs(s, pat);
    }
  }

  /** An occurrence at the very start is counted, and the scan resumes after it. */
  lemma CountLeadingMatch(pat: string, t: string)
    requires pat != []
    ensures Count(pat + t, pat) == 1 + Count(t, pat)
  {
  }

  /**
   * A review made of a word, any separator and the word again counts the word
   * at least twice (for instance "quiet quiet" and "quiet").
   */
  lemma CountRepeated(pat: string, sep: string)
    requires pat != []
    ensures Count(pat + sep + pat, pat) >= 2
  {
    assert pat + sep + pat == pat + (sep + pat);
    CountLeadingMatch(pat, sep + pat);
    assert (sep + pat)[|sep|..|sep| + |pat|] == pat;
    assert OccursAt(sep + pat, pat, |sep|);
    CountZeroIff(sep + pat, pat);
  }
}
