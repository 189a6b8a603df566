/** Case-insensitive substring search, the matcher behind the `search`
    parameter of the movie listing. Case folding covers ASCII letters only. */
module Text {

  /** ASCII lower-casing of one character; every other character is kept. */
  function Lower(c: char): (r: char)
  {
    if 'A' <= c <= 'Z' then (c as int + 32) as char else c
  }

  function LowerAll(s: string): (r: string)
    ensures |r| == |s|
    ensures forall i :: 0 <= i < |s| ==> r[i] == Lower(s[i])
  {
    if s == [] then [] else [Lower(s[0])] + LowerAll(s[1..])
  }

  /** `needle` occurs in `hay` starting at position `i`. */
  predicate OccursAt(hay: string, needle: string, i: nat)
  {
    i + |needle| <= |hay| && hay[i..i + |needle|] == needle
  }

  predicate Contains(hay: string, needle: string)
  {
    exists i: nat | i <= |hay| :: OccursAt(hay, needle, i)
  }

  /** `needle` occurs in `hay` when upper- and lower-case letters are not told apart. */
  predicate ContainsIgnoringCase(hay: string, needle: string): (b: bool)
    ensures needle == "" ==> b
    ensures |hay| < |needle| ==> !b
  {
    // the empty pattern occurs at position 0
    assert needle == "" ==> OccursAt(LowerAll(hay), LowerAll(needle), 0);
    Contains(LowerAll(hay), LowerAll(needle))
  }

  lemma LowerIdempotent(c: char)
    ensures Lower(Lower(c)) == Lower(c)
  {
  }

  lemma LowerAllIdempotent(s: string)
    ensures LowerAll(LowerAll(s)) == LowerAll(s)
  {
    forall i | 0 <= i < |s|
      ensures LowerAll(LowerAll(s))[i] == LowerAll(s)[i]
    {
      LowerIdempotent(s[i]);
    }
  }

  /** The search does not depend on the case of either the name or the pattern. */
  lemma SearchIgnoresCase(hay: string, needle: string)
    ensures ContainsIgnoringCase(hay, needle) == ContainsIgnoringCase(LowerAll(hay), LowerAll(needle))
  {
    LowerAllIdempotent(hay);
    LowerAllIdempotent(needle);
  }

  /** An exact occurrence is also a case-insensitive one. */
  lemma ExactMatchIsFound(hay: string, needle: string, i: nat)
    requires OccursAt(hay, needle, i)
    ensures ContainsIgnoringCase(hay, needle)
  {
    var lh, ln := LowerAll(hay), LowerAll(needle);
    assert lh[i..i + |ln|] == ln by {
      forall k | 0 <= k < |ln|
        ensures lh[i..i + |ln|][k] == ln[k]
      {
        assert hay[i + k] == needle[k] by {
          assert hay[i..i + |needle|][k] == needle[k];
        }
      }
    }
    assert OccursAt(lh, ln, i);
  }
}
