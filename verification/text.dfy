/** Case-insensitive substring search on titles. Characters are folded with
    ASCII lower-casing, standing in for a locale-aware comparison. */
module Text {

  /** ASCII lower-casing of one character; every other character is kept. */
  function Lower(c: char): char
  {
    if 'A' <= c <= 'Z' then (c as int - 'A' as int + 'a' as int) as char else c
  }

  /** The string with every character lower-cased. */
  function Fold(s: string): string
  {
    seq(|s|, i requires 0 <= i < |s| => Lower(s[i]))
  }

  /** `needle` occurs in `haystack` starting at position `i`. */
  ghost predicate OccursAt(haystack: string, needle: string, i: int)
  {
    0 <= i && i + |needle| <= |haystack| && haystack[i..i + |needle|] == needle
  }

  /** An occurrence in `h[1..]` is an occurrence in `h` one place later. */
  lemma ShiftOccurrence(h: string, needle: string)
    requires h != []
    ensures forall i :: 0 <= i ==> (OccursAt(h[1..], needle, i) <==> OccursAt(h, needle, i + 1))
  {
  }

  /** Exact substring search, scanning start positions from the left. */
  function Contains(haystack: string, needle: string): (r: bool)
    ensures r <==> exists i :: OccursAt(haystack, needle, i)
    decreases |haystack|
  {
    if |haystack| < |needle| then false
    else if needle <= haystack then
      assert OccursAt(haystack, needle, 0);
      true
    else
      ShiftOccurrence(haystack, needle);
      assert !OccursAt(haystack, needle, 0);
      var r := Contains(haystack[1..], needle);
      assert r ==> exists i :: OccursAt(haystack, needle, i) by {
        if r {
          var i :| OccursAt(haystack[1..], needle, i);
          assert OccursAt(haystack, needle, i + 1);
        }
      }
      assert (exists i :: OccursAt(haystack, needle, i)) ==> r by {
        if i :| OccursAt(haystack, needle, i) {
          assert OccursAt(haystack[1..], needle, i - 1);
        }
      }
      r
  }

  /** The title search of the source: `haystack` contains `needle` once both
      are folded to lower case. */
  function CaseInsensitiveContains(haystack: string, needle: string): bool
  {
    Contains(Fold(haystack), Fold(needle))
  }

  /** Folding twice is folding once. */
  lemma FoldIdempotent(s: string)
    ensures Fold(Fold(s)) == Fold(s)
  {
  }

  /** The search ignores case on both sides: lower-casing the title or the
      search text beforehand changes no answer. */
  lemma CaseInsensitiveContainsIgnoresCase(haystack: string, needle: string)
    ensures CaseInsensitiveContains(Fold(haystack), needle) == CaseInsensitiveContains(haystack, needle)
    ensures CaseInsensitiveContains(haystack, Fold(needle)) == CaseInsensitiveContains(haystack, needle)
  {
    FoldIdempotent(haystack);
    FoldIdempotent(needle);
  }

  /** Folding a slice is slicing the folded string. */
  lemma FoldSlice(s: string, i: nat, j: nat)
    requires i <= j <= |s|
    ensures Fold(s)[i..j] == Fold(s[i..j])
  {
  }

  /** A literal occurrence is also a case-insensitive one. */
  lemma ContainsImpliesCaseInsensitive(haystack: string, needle: string)
    requires Contains(haystack, needle)
    ensures CaseInsensitiveContains(haystack, needle)
  {
    var i :| OccursAt(haystack, needle, i);
    FoldSlice(haystack, i, i + |needle|);
    assert OccursAt(Fold(haystack), Fold(needle), i);
  }
}
