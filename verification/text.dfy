/** Character classes and ordinal substring search over `string` (a sequence of
    Unicode scalar values), the vocabulary every other module is written in. */
module Text {

  /** Upper-case image of one character under the invariant culture. It is exact
      on Basic Latin and Latin-1 (a-z, the accented letters U+00E0..U+00FE except
      the division sign, plus the two Latin-1 letters whose capitals lie outside
      Latin-1); every other character is its own image. */
  function UpperChar(c: char): char
  {
    if 'a' <= c <= 'z' then (c as int - 32) as char
    else if '\U{00E0}' <= c <= '\U{00FE}' && c != '\U{00F7}' then (c as int - 32) as char
    else if c == '\U{00FF}' then '\U{0178}'
    else if c == '\U{00B5}' then '\U{039C}'
    else c
  }

  /** Upper-cases a whole string, character by character. */
  function Upper(s: string): (u: string)
    ensures |u| == |s|
  {
    seq(|s|, i requires 0 <= i < |s| => UpperChar(s[i]))
  }

  /** Upper-casing an upper-cased string changes nothing. */
  lemma UpperIdempotent(s: string)
    ensures Upper(Upper(s)) == Upper(s)
  {
    forall i | 0 <= i < |s|
      ensures Upper(Upper(s))[i] == Upper(s)[i]
    {
      var c := s[i];
      assert UpperChar(UpperChar(c)) == UpperChar(c);
    }
  }

  /** Case-insensitive equality of two characters. */
  predicate SameIgnoringCase(a: char, b: char)
  {
    UpperChar(a) == UpperChar(b)
  }

  /** `k` occurs in `s` starting at offset `i`. */
  predicate OccursAt(s: string, k: string, i: int)
  {
    0 <= i && i + |k| <= |s| && s[i..i + |k|] == k
  }

  /** Ordinal substring test. */
  predicate Contains(s: string, k: string)
  {
    exists i | 0 <= i <= |s| - |k| :: OccursAt(s, k, i)
  }

  /** Offset of the rightmost occurrence of `k` starting at or before `i`, or -1. */
  function LastIndexAtOrBefore(s: string, k: string, i: int): (r: int)
    decreases i + 1
    ensures r == -1 || (0 <= r <= i && OccursAt(s, k, r))
    ensures forall j :: r < j <= i ==> !OccursAt(s, k, j)
  {
    if i < 0 then -1
    else if OccursAt(s, k, i) then i
    else LastIndexAtOrBefore(s, k, i - 1)
  }

  /** Ordinal `LastIndexOf`: the offset of the rightmost occurrence of `k` in `s`,
      or -1 when `k` does not occur. */
  function LastIndexOf(s: string, k: string): (r: int)
    ensures r == -1 <==> !Contains(s, k)
    ensures r != -1 ==> 0 <= r && OccursAt(s, k, r)
    ensures forall j :: r < j ==> !OccursAt(s, k, j)
  {
    LastIndexAtOrBefore(s, k, |s| - |k|)
  }

  /** Number of entries of `keys` (counted with repetition) that occur in `s`;
      the count `Enumerable.Count(key => s.Contains(key))` computes. */
  function CountContained(s: string, keys: seq<string>): (n: nat)
    ensures n <= |keys|
    ensures n == 0 <==> forall k :: k in keys ==> !Contains(s, k)
    ensures n == |keys| <==> forall k :: k in keys ==> Contains(s, k)
  {
    if |keys| == 0 then 0
    else (if Contains(s, keys[0]) then 1 else 0) + CountContained(s, keys[1..])
  }
}
