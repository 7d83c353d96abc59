/** Case-insensitive substring matching, the test the recommender uses to
    match a place's city against the requested city. */
module Text {

  /** ASCII lower-casing of one character. */
  function LowerChar(c: char): char
  {
    if 'A' <= c <= 'Z' then (c as int + 32) as char else c
  }

  /** ASCII lower-casing of a string. */
  function Lower(s: string): (r: string)
    ensures |r| == |s|
    ensures forall i :: 0 <= i < |s| ==> r[i] == LowerChar(s[i])
  {
    seq(|s|, i requires 0 <= i < |s| => LowerChar(s[i]))
  }

  predicate IsPrefix(needle: string, hay: string)
  {
    |needle| <= |hay| && hay[..|needle|] == needle
  }

  /** `needle` occurs in `hay` at some position, scanning left to right. */
  predicate IsSubstring(needle: string, hay: string)
    decreases |hay|
  {
    IsPrefix(needle, hay) || (|hay| > 0 && IsSubstring(needle, hay[1..]))
  }

  /** The city test: `needle` occurs in `hay`, ignoring letter case. */
  predicate ContainsIgnoreCase(hay: string, needle: string)
  {
    IsSubstring(Lower(needle), Lower(hay))
  }

  /** `needle` occurs in `hay` starting at position `i`. */
  predicate OccursAt(needle: string, hay: string, i: int)
  {
    0 <= i && i + |needle| <= |hay| && hay[i..i + |needle|] == needle
  }

  /** The scanning definition agrees with the positional one: `needle` is a
      substring of `hay` exactly when some window of `hay` equals it. */
  lemma {:induction false} SubstringAtSomePosition(needle: string, hay: string)
    ensures IsSubstring(needle, hay) <==> exists i :: OccursAt(needle, hay, i)
    decreases |hay|
  {
    if IsPrefix(needle, hay) {
      assert OccursAt(needle, hay, 0);
    } else if |hay| > 0 {
      SubstringAtSomePosition(needle, hay[1..]);
      if IsSubstring(needle, hay[1..]) {
        var i :| OccursAt(needle, hay[1..], i);
        assert hay[1..][i..i + |needle|] == hay[i + 1..i + 1 + |needle|];
        assert OccursAt(needle, hay, i + 1);
      }
      if exists i :: OccursAt(needle, hay, i) {
        var i :| OccursAt(needle, hay, i);
        assert i != 0;
        assert hay[1..][i - 1..i - 1 + |needle|] == hay[i..i + |needle|];
        assert OccursAt(needle, hay[1..], i - 1);
      }
    } else {
      assert |needle| > 0;
    }
  }

  /** Lower-casing the city names first does not change the verdict. */
  lemma CaseOfArgumentsIrrelevant(hay: string, needle: string)
    ensures ContainsIgnoreCase(Lower(hay), Lower(needle)) == ContainsIgnoreCase(hay, needle)
  {
    assert Lower(Lower(hay)) == Lower(hay);
    assert Lower(Lower(needle)) == Lower(needle);
  }
}
