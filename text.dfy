/**
 * Case folding and substring containment, the two string operations the
 * cheat-sheet search is built from: Python's `str.lower()` restricted to
 * ASCII, and Python's `needle in hay` on strings.
 */
module Text {

  /** Python's `str.lower()` on one ASCII character; every other character is kept. */
  function LowerChar(c: char): (r: char)
    ensures 'A' <= c <= 'Z' ==> r as int == c as int + 32
    ensures !('A' <= c <= 'Z') ==> r == c
    ensures !('A' <= r <= 'Z')
  {
    if 'A' <= c <= 'Z' then (c as int + 32) as char else c
  }

  /** Python's `str.upper()` on one ASCII character; every other character is kept. */
  function UpperChar(c: char): (r: char)
    ensures 'a' <= c <= 'z' ==> r as int == c as int - 32
    ensures !('a' <= c <= 'z') ==> r == c
    ensures !('a' <= r <= 'z')
  {
    if 'a' <= c <= 'z' then (c as int - 32) as char else c
  }

  /** `s.lower()`: the same string, each character folded to lower case. */
  function Lower(s: string): (r: string)
    ensures |r| == |s|
    ensures forall i :: 0 <= i < |s| ==> r[i] == LowerChar(s[i])
  {
    seq(|s|, i requires 0 <= i < |s| => LowerChar(s[i]))
  }

  /** `s.upper()`: the same string, each character folded to upper case. */
  function Upper(s: string): (r: string)
    ensures |r| == |s|
    ensures forall i :: 0 <= i < |s| ==> r[i] == UpperChar(s[i])
  {
    seq(|s|, i requires 0 <= i < |s| => UpperChar(s[i]))
  }

  /** `needle` occurs in `hay` starting at position `i`. */
  ghost predicate OccursAt(needle: string, hay: string, i: int)
  {
    0 <= i && i + |needle| <= |hay| && hay[i..i + |needle|] == needle
  }

  /**
   * Python's `needle in hay` for strings: true exactly when `needle` occurs
   * somewhere in `hay`; the empty string occurs in every string.
   */
  function Contains(needle: string, hay: string): (r: bool)
    ensures r <==> exists i :: OccursAt(needle, hay, i)
    decreases |hay|
  {
    if |needle| <= |hay| && hay[..|needle|] == needle then
      assert OccursAt(needle, hay, 0);
      true
    else if hay == [] then
      false
    else
      var r := Contains(needle, hay[1..]);
      ContainsStep(needle, hay);
      r
  }

  /** An occurrence in `hay` not at its head is an occurrence in its tail, and back. */
  lemma ContainsStep(needle: string, hay: string)
    requires hay != []
    requires !(|needle| <= |hay| && hay[..|needle|] == needle)
    ensures (exists i :: OccursAt(needle, hay, i)) <==> (exists j :: OccursAt(needle, hay[1..], j))
  {
    forall i | OccursAt(needle, hay, i)
      ensures OccursAt(needle, hay[1..], i - 1)
    {
      assert i != 0;
      assert hay[1..][i - 1..i - 1 + |needle|] == hay[i..i + |needle|];
    }
    forall j | OccursAt(needle, hay[1..], j)
      ensures OccursAt(needle, hay, j + 1)
    {
      assert hay[1..][j..j + |needle|] == hay[j + 1..j + 1 + |needle|];
    }
  }

  /** Lower-casing is idempotent: `s.lower().lower() == s.lower()`. */
  lemma LowerIdempotent(s: string)
    ensures Lower(Lower(s)) == Lower(s)
  {
    assert forall i :: 0 <= i < |s| ==> Lower(Lower(s))[i] == Lower(s)[i];
  }

  /** Lower-casing forgets an earlier upper-casing: `s.upper().lower() == s.lower()`. */
  lemma LowerOfUpper(s: string)
    ensures Lower(Upper(s)) == Lower(s)
  {
    assert forall i :: 0 <= i < |s| ==> Lower(Upper(s))[i] == Lower(s)[i];
  }

  /** A slice of `hay` that folds to `needle` is an occurrence of `needle` in the folded `hay`. */
  lemma FoldedSliceContained(needle: string, hay: string, i: nat, j: nat)
    requires i <= j <= |hay| && Lower(hay[i..j]) == needle
    ensures Contains(needle, Lower(hay))
  {
    assert Lower(hay)[i..j] == Lower(hay[i..j]);
    assert OccursAt(needle, Lower(hay), i);
  }

  /** A needle holding a character that the hay lacks does not occur in the hay. */
  lemma MissingCharNotContained(needle: string, hay: string, c: char)
    requires c in needle
    requires forall j :: 0 <= j < |hay| ==> hay[j] != c
    ensures !Contains(needle, hay)
  {
    var k :| 0 <= k < |needle| && needle[k] == c;
    forall i | 0 <= i && i + |needle| <= |hay|
      ensures !OccursAt(needle, hay, i)
    {
      assert hay[i..i + |needle|][k] == hay[i + k];
    }
  }
}
