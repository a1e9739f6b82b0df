/** Literal, case-sensitive substring containment, as JavaScript's
    `String.prototype.includes` decides it for the marker and search texts. */
module Text {

  /** `pattern` occurs in `s` starting at position `i`. */
  predicate OccursAt(s: string, pattern: string, i: int)
  {
    0 <= i && i + |pattern| <= |s| && s[i..i + |pattern|] == pattern
  }

  /** True iff `pattern` is a contiguous piece of `s` (so the empty pattern is in every string). */
  function Contains(s: string, pattern: string): (b: bool)
    ensures b <==> exists i :: OccursAt(s, pattern, i)
    decreases |s|
  {
    if |s| < |pattern| then false
    else if s[..|pattern|] == pattern then
      assert OccursAt(s, pattern, 0);
      true
    else
      ShiftOccurrence(s, pattern);
      Contains(s[1..], pattern)
  }

  /** Once `pattern` is not at the front of `s`, its occurrences in `s` are those in `s[1..]`, one place further on. */
  lemma ShiftOccurrence(s: string, pattern: string)
    requires |pattern| <= |s| && s[..|pattern|] != pattern
    ensures (exists i :: OccursAt(s, pattern, i)) <==> (exists i :: OccursAt(s[1..], pattern, i))
  {
    if i :| OccursAt(s, pattern, i) {
      assert i != 0;
      assert s[1..][i - 1..i - 1 + |pattern|] == s[i..i + |pattern|];
      assert OccursAt(s[1..], pattern, i - 1);
    }
    if i :| OccursAt(s[1..], pattern, i) {
      assert s[1..][i..i + |pattern|] == s[i + 1..i + 1 + |pattern|];
      assert OccursAt(s, pattern, i + 1);
    }
  }

  /** The empty pattern is contained in every line; callers therefore reject it before searching. */
  lemma EmptyPatternMatchesEverything(s: string)
    ensures Contains(s, "")
  {
    assert OccursAt(s, "", 0);
  }
}
