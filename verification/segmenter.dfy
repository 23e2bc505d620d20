/** Publication segmentation. The text is searched for the case-insensitive
    marker `Publicação\s*:\s*\d+\s*de\s*\d+`; with two or more markers every
    marker starts a block that runs up to the next marker (the last one to the
    end of the text), and text before the first marker belongs to no block;
    otherwise the whole text is the single block. */
module Segmenter {

  import opened Options
  import opened Text
  import opened Extractors

  /** The literal word that opens a marker. */
  const MarkerWord: string := "Publicação"

  /** `\s`: tab, line feed, vertical tab, form feed, carriage return, next line
      and the Unicode separators (category Z). */
  predicate IsSpace(c: char)
  {
    || c == ' ' || c == '\t' || c == '\n' || c == '\U{000B}' || c == '\U{000C}' || c == '\r'
    || c == '\U{0085}' || c == '\U{00A0}' || c == '\U{1680}' || '\U{2000}' <= c <= '\U{200A}'
    || c == '\U{2028}' || c == '\U{2029}' || c == '\U{202F}' || c == '\U{205F}' || c == '\U{3000}'
  }

  /** End of the longest run of spaces starting at `i`. */
  function SkipSpaces(s: string, i: nat): (e: nat)
    requires i <= |s|
    decreases |s| - i
    ensures i <= e <= |s|
  {
    if i == |s| || !IsSpace(s[i]) then i else SkipSpaces(s, i + 1)
  }

  /** The run `SkipSpaces` skips holds only spaces, and stops at the end of the text or
      at a character that is not one. */
  lemma {:induction false} SkipSpacesRun(s: string, i: nat, k: nat)
    requires i <= |s| && i <= k <= SkipSpaces(s, i)
    ensures k < SkipSpaces(s, i) ==> IsSpace(s[k])
    ensures k == SkipSpaces(s, i) ==> k == |s| || !IsSpace(s[k])
    decreases |s| - i
  {
    if i < k {
      SkipSpacesRun(s, i + 1, k);
    }
  }

  /** End of the longest run of digits starting at `i`. */
  function SkipDigits(s: string, i: nat): (e: nat)
    requires i <= |s|
    decreases |s| - i
    ensures i <= e <= |s|
  {
    if i == |s| || !IsDigit(s[i]) then i else SkipDigits(s, i + 1)
  }

  /** The run `SkipDigits` skips holds only digits, and stops at the end of the text or
      at a character that is not one. */
  lemma {:induction false} SkipDigitsRun(s: string, i: nat, k: nat)
    requires i <= |s| && i <= k <= SkipDigits(s, i)
    ensures k < SkipDigits(s, i) ==> IsDigit(s[k])
    ensures k == SkipDigits(s, i) ==> k == |s| || !IsDigit(s[k])
    decreases |s| - i
  {
    if i < k {
      SkipDigitsRun(s, i + 1, k);
    }
  }

  /** The word `w` occurs at offset `i`, ignoring case. */
  predicate WordAt(s: string, w: string, i: nat)
  {
    i + |w| <= |s| && forall j :: 0 <= j < |w| ==> SameIgnoringCase(s[i + j], w[j])
  }

  /** A character that may follow the marker word inside a marker: a space, the
      colon, a digit, or a letter of "de". */
  predicate MarkerTailChar(c: char)
  {
    IsSpace(c) || c == ':' || IsDigit(c) || SameIgnoringCase(c, 'd') || SameIgnoringCase(c, 'e')
  }

  /** The end of `\s*de\s*\d+` from offset `j`, if it matches there. */
  function TotalEnd(s: string, j: nat): (r: Option<nat>)
    requires j <= |s|
    ensures r.Some? ==> j < r.value <= |s|
  {
    var de := SkipSpaces(s, j);
    if de + 2 > |s| || !SameIgnoringCase(s[de], 'd') || !SameIgnoringCase(s[de + 1], 'e') then None
    else
      var total := SkipSpaces(s, de + 2);
      var totalEnd := SkipDigits(s, total);
      if totalEnd == total then None else Some(totalEnd)
  }

  /** The end of `\s*\d+\s*de\s*\d+` from offset `j`, if it matches there. */
  function CountEnd(s: string, j: nat): (r: Option<nat>)
    requires j <= |s|
    ensures r.Some? ==> j < r.value <= |s|
  {
    var number := SkipSpaces(s, j);
    var numberEnd := SkipDigits(s, number);
    if numberEnd == number then None else TotalEnd(s, numberEnd)
  }

  /** The end of `\s*:\s*\d+\s*de\s*\d+` from offset `j`, if it matches there. */
  function TailEnd(s: string, j: nat): (r: Option<nat>)
    requires j <= |s|
    ensures r.Some? ==> j < r.value <= |s|
  {
    var colon := SkipSpaces(s, j);
    if colon == |s| || s[colon] != ':' then None else CountEnd(s, colon + 1)
  }

  /** The end of the marker that starts at offset `i`, if one does. Every
      quantified part of the pattern is followed by a character its own class
      excludes, so taking each run greedily is the only way to match, and the
      final digit run is the longest one, as a greedy engine takes it. */
  function MarkerEnd(s: string, i: nat): (r: Option<nat>)
    requires i <= |s|
    ensures r.Some? ==> i + |MarkerWord| < r.value <= |s| && WordAt(s, MarkerWord, i)
  {
    if !WordAt(s, MarkerWord, i) then None else TailEnd(s, i + |MarkerWord|)
  }

  /** Every character a `TotalEnd` match spans is a marker tail character. */
  lemma TotalTail(s: string, j: nat, k: nat)
    requires j <= |s| && TotalEnd(s, j).Some? && j <= k < TotalEnd(s, j).value
    ensures MarkerTailChar(s[k])
  {
    var de := SkipSpaces(s, j);
    var total := SkipSpaces(s, de + 2);
    if k < de {
      SkipSpacesRun(s, j, k);
    } else if k < de + 2 {
    } else if k < total {
      SkipSpacesRun(s, de + 2, k);
    } else {
      SkipDigitsRun(s, total, k);
    }
  }

  /** Every character a `CountEnd` match spans is a marker tail character. */
  lemma CountTail(s: string, j: nat, k: nat)
    requires j <= |s| && CountEnd(s, j).Some? && j <= k < CountEnd(s, j).value
    ensures MarkerTailChar(s[k])
  {
    var number := SkipSpaces(s, j);
    var numberEnd := SkipDigits(s, number);
    if k < number {
      SkipSpacesRun(s, j, k);
    } else if k < numberEnd {
      SkipDigitsRun(s, number, k);
    } else {
      TotalTail(s, numberEnd, k);
    }
  }

  /** Every character a `TailEnd` match spans is a marker tail character. */
  lemma TailTail(s: string, j: nat, k: nat)
    requires j <= |s| && TailEnd(s, j).Some? && j <= k < TailEnd(s, j).value
    ensures MarkerTailChar(s[k])
  {
    var colon := SkipSpaces(s, j);
    if k < colon {
      SkipSpacesRun(s, j, k);
    } else if colon < k {
      CountTail(s, colon + 1, k);
    }
  }

  /** A marker starts at offset `i`. */
  predicate MarkerAt(s: string, i: nat)
  {
    i <= |s| && MarkerEnd(s, i).Some?
  }

  /** `Regex.Matches`: scan left to right from `from`; after each match resume
      at its end. The offsets of the matches, in order. */
  function ScanMarkers(s: string, from: nat): (ps: seq<nat>)
    requires from <= |s|
    decreases |s| - from
    ensures forall k :: 0 <= k < |ps| ==> from <= ps[k] < |s|
    ensures forall k, l :: 0 <= k < l < |ps| ==> ps[k] < ps[l]
  {
    if from == |s| then []
    else
      match MarkerEnd(s, from)
      case Some(e) => [from] + ScanMarkers(s, e)
      case None => ScanMarkers(s, from + 1)
  }

  /** Every offset at or after `from` where a marker starts, in increasing order. */
  function MarkerStarts(s: string, from: nat): (ps: seq<nat>)
    requires from <= |s|
    decreases |s| - from
    ensures forall k :: 0 <= k < |ps| ==> from <= ps[k] < |s| && MarkerAt(s, ps[k])
    ensures forall k, l :: 0 <= k < l < |ps| ==> ps[k] < ps[l]
  {
    if from == |s| then []
    else if MarkerAt(s, from) then [from] + MarkerStarts(s, from + 1)
    else MarkerStarts(s, from + 1)
  }

  /** Only the letters p and P upper-case to P. */
  lemma UpperIsP(c: char)
    requires UpperChar(c) == 'P'
    ensures c == 'p' || c == 'P'
  {
  }

  /** A marker begins with the letter p, in either case. */
  lemma MarkerBeginsWithP(s: string, p: nat)
    requires MarkerAt(s, p)
    ensures s[p] == 'p' || s[p] == 'P'
  {
    assert WordAt(s, MarkerWord, p);
    assert SameIgnoringCase(s[p + 0], MarkerWord[0]);
    UpperIsP(s[p]);
  }

  /** The marker word has no p after its first letter. */
  lemma MarkerWordHasOneP(j: nat)
    requires 0 < j < |MarkerWord|
    ensures UpperChar(MarkerWord[j]) != 'P'
  {
    assert MarkerWord == ['P', 'u', 'b', 'l', 'i', 'c', 'a', '\U{00E7}', '\U{00E3}', 'o'];
  }

  /** No character of a marker's tail is a p. */
  lemma TailHasNoP(c: char)
    requires MarkerTailChar(c)
    ensures c != 'p' && c != 'P'
  {
  }

  /** No character strictly inside a marker, after its first, is a p. */
  lemma NoPInsideMarker(s: string, i: nat, p: nat)
    requires i <= |s| && MarkerEnd(s, i).Some? && i < p < MarkerEnd(s, i).value
    ensures s[p] != 'p' && s[p] != 'P'
  {
    if p < i + |MarkerWord| {
      var j := p - i;
      assert SameIgnoringCase(s[i + j], MarkerWord[j]);
      MarkerWordHasOneP(j);
    } else {
      TailTail(s, i + |MarkerWord|, p);
      TailHasNoP(s[p]);
    }
  }

  /** No marker starts strictly inside another marker: the marker word contains
      no second p, and the rest of a marker no p at all. */
  lemma NoMarkerInside(s: string, i: nat, p: nat)
    requires i <= |s| && MarkerEnd(s, i).Some? && i < p < MarkerEnd(s, i).value
    ensures !MarkerAt(s, p)
  {
    NoPInsideMarker(s, i, p);
    if MarkerAt(s, p) {
      MarkerBeginsWithP(s, p);
    }
  }

  /** Skipping the inside of a marker skips no marker start. */
  lemma {:induction false} MarkerStartsSkipInside(s: string, i: nat, q: nat)
    requires i <= |s| && MarkerEnd(s, i).Some? && i < q <= MarkerEnd(s, i).value
    ensures MarkerStarts(s, q) == MarkerStarts(s, MarkerEnd(s, i).value)
    decreases MarkerEnd(s, i).value - q
  {
    if q < MarkerEnd(s, i).value {
      NoMarkerInside(s, i, q);
      MarkerStartsSkipInside(s, i, q + 1);
    }
  }

  /** The offsets of the matches `Regex.Matches` reports are exactly the
      offsets where a marker starts. */
  lemma {:induction false} ScanFindsAllMarkers(s: string, from: nat)
    requires from <= |s|
    ensures ScanMarkers(s, from) == MarkerStarts(s, from)
    decreases |s| - from
  {
    if from < |s| {
      match MarkerEnd(s, from)
      case Some(e) =>
        ScanFindsAllMarkers(s, e);
        MarkerStartsSkipInside(s, from, from + 1);
      case None =>
        ScanFindsAllMarkers(s, from + 1);
    }
  }

  /** The blocks cut at the given offsets: each runs from its offset to the next
      one, the last to the end of the text. */
  function Blocks(s: string, ps: seq<nat>): (blocks: seq<string>)
    requires forall k :: 0 <= k < |ps| ==> ps[k] <= |s|
    requires forall k, l :: 0 <= k < l < |ps| ==> ps[k] < ps[l]
    ensures |blocks| == |ps|
  {
    if |ps| == 0 then []
    else if |ps| == 1 then [s[ps[0]..]]
    else [s[ps[0]..ps[1]]] + Blocks(s, ps[1..])
  }

  /** The concatenation of a sequence of strings. */
  function Concat(blocks: seq<string>): string
  {
    if |blocks| == 0 then "" else blocks[0] + Concat(blocks[1..])
  }

  /** The blocks cut at increasing offsets concatenate to the text from the
      first offset on. */
  lemma {:induction false} BlocksConcat(s: string, ps: seq<nat>)
    requires |ps| > 0
    requires forall k :: 0 <= k < |ps| ==> ps[k] <= |s|
    requires forall k, l :: 0 <= k < l < |ps| ==> ps[k] < ps[l]
    ensures Concat(Blocks(s, ps)) == s[ps[0]..]
  {
    if |ps| > 1 {
      BlocksConcat(s, ps[1..]);
      assert s[ps[0]..ps[1]] + s[ps[1]..] == s[ps[0]..];
    }
  }

  /** Block `k` is the text between offset `k` and the next offset (or the end). */
  lemma {:induction false} BlocksSpan(s: string, ps: seq<nat>, k: nat)
    requires forall k :: 0 <= k < |ps| ==> ps[k] <= |s|
    requires forall k, l :: 0 <= k < l < |ps| ==> ps[k] < ps[l]
    requires k < |ps|
    ensures Blocks(s, ps)[k] == s[ps[k]..if k + 1 < |ps| then ps[k + 1] else |s|]
  {
    if k > 0 {
      BlocksSpan(s, ps[1..], k - 1);
    }
  }

  /** Splits a text into publications. */
  function Segment(s: string): (blocks: seq<string>)
    ensures |blocks| >= 1
    ensures |MarkerStarts(s, 0)| >= 2 ==> |blocks| == |MarkerStarts(s, 0)|
    ensures |MarkerStarts(s, 0)| < 2 ==> blocks == [s]
  {
    var ps := ScanMarkers(s, 0);
    ScanFindsAllMarkers(s, 0);
    if |ps| > 1 then Blocks(s, ps) else [s]
  }

  /** With two or more markers the blocks are those cut at the marker offsets. */
  lemma SegmentCutsAtMarkers(s: string)
    requires |MarkerStarts(s, 0)| >= 2
    ensures Segment(s) == Blocks(s, MarkerStarts(s, 0))
  {
    ScanFindsAllMarkers(s, 0);
  }

  /** With two or more markers, block `k` runs from marker `k` to marker `k + 1`
      (the last to the end of the text). */
  lemma SegmentBlockSpan(s: string, k: nat)
    requires |MarkerStarts(s, 0)| >= 2 && k < |MarkerStarts(s, 0)|
    ensures var ps := MarkerStarts(s, 0);
            Segment(s)[k] == s[ps[k]..if k + 1 < |ps| then ps[k + 1] else |s|]
  {
    SegmentCutsAtMarkers(s);
    BlocksSpan(s, MarkerStarts(s, 0), k);
  }

  /** With two or more markers the blocks put together give back the text from
      the first marker on: nothing after it is lost or repeated. */
  lemma SegmentConcat(s: string)
    requires |MarkerStarts(s, 0)| >= 2
    ensures Concat(Segment(s)) == s[MarkerStarts(s, 0)[0]..]
  {
    SegmentCutsAtMarkers(s);
    BlocksConcat(s, MarkerStarts(s, 0));
  }

  /** Cutting the text after a run of spaces leaves the run as it was. */
  lemma {:induction false} SkipSpacesInSlice(s: string, p: nat, q: nat, i: nat)
    requires p <= i <= q <= |s| && SkipSpaces(s, i) <= q
    ensures SkipSpaces(s[p..q], i - p) == SkipSpaces(s, i) - p
    decreases q - i
  {
    if i < q && IsSpace(s[i]) {
      SkipSpacesInSlice(s, p, q, i + 1);
    }
  }

  /** Cutting the text after a run of digits leaves the run as it was. */
  lemma {:induction false} SkipDigitsInSlice(s: string, p: nat, q: nat, i: nat)
    requires p <= i <= q <= |s| && SkipDigits(s, i) <= q
    ensures SkipDigits(s[p..q], i - p) == SkipDigits(s, i) - p
    decreases q - i
  {
    if i < q && IsDigit(s[i]) {
      SkipDigitsInSlice(s, p, q, i + 1);
    }
  }

  /** `TotalEnd` is unchanged by a cut at or after the end of its match. */
  lemma TotalInSlice(s: string, p: nat, q: nat, j: nat)
    requires p <= j <= q <= |s| && TotalEnd(s, j).Some? && TotalEnd(s, j).value <= q
    ensures TotalEnd(s[p..q], j - p) == Some(TotalEnd(s, j).value - p)
  {
    var de := SkipSpaces(s, j);
    SkipSpacesInSlice(s, p, q, j);
    SkipSpacesInSlice(s, p, q, de + 2);
    SkipDigitsInSlice(s, p, q, SkipSpaces(s, de + 2));
  }

  /** `CountEnd` is unchanged by a cut at or after the end of its match. */
  lemma CountInSlice(s: string, p: nat, q: nat, j: nat)
    requires p <= j <= q <= |s| && CountEnd(s, j).Some? && CountEnd(s, j).value <= q
    ensures CountEnd(s[p..q], j - p) == Some(CountEnd(s, j).value - p)
  {
    var number := SkipSpaces(s, j);
    SkipSpacesInSlice(s, p, q, j);
    SkipDigitsInSlice(s, p, q, number);
    TotalInSlice(s, p, q, SkipDigits(s, number));
  }

  /** A `TailEnd` match is a colon after optional spaces followed by a
      `CountEnd` match. */
  lemma TailParts(s: string, j: nat)
    requires j <= |s| && TailEnd(s, j).Some?
    ensures SkipSpaces(s, j) < |s| && s[SkipSpaces(s, j)] == ':'
    ensures TailEnd(s, j) == CountEnd(s, SkipSpaces(s, j) + 1)
  {
  }

  /** A colon after optional spaces continues as the `CountEnd` match after it. */
  lemma TailFromParts(s: string, j: nat, colon: nat)
    requires j <= |s| && colon == SkipSpaces(s, j) && colon < |s| && s[colon] == ':'
    ensures TailEnd(s, j) == CountEnd(s, colon + 1)
  {
  }

  /** `TailEnd` is unchanged by a cut at or after the end of its match. */
  lemma TailInSlice(s: string, p: nat, q: nat, j: nat)
    requires p <= j <= q <= |s| && TailEnd(s, j).Some? && TailEnd(s, j).value <= q
    ensures TailEnd(s[p..q], j - p) == Some(TailEnd(s, j).value - p)
  {
    var colon := SkipSpaces(s, j);
    TailParts(s, j);
    SkipSpacesInSlice(s, p, q, j);
    CountInSlice(s, p, q, colon + 1);
    var b := s[p..q];
    assert b[colon - p] == s[colon];
    TailFromParts(b, j - p, colon - p);
  }

  /** A marker is found again, with the same extent, in any piece of the text
      that starts where it starts and does not cut it short. */
  lemma MarkerInSlice(s: string, p: nat, q: nat)
    requires p <= q <= |s| && MarkerEnd(s, p).Some? && MarkerEnd(s, p).value <= q
    ensures MarkerEnd(s[p..q], 0) == Some(MarkerEnd(s, p).value - p)
  {
    var b := s[p..q];
    assert WordAt(b, MarkerWord, 0) by {
      forall j | 0 <= j < |MarkerWord|
        ensures SameIgnoringCase(b[0 + j], MarkerWord[j])
      {
        assert SameIgnoringCase(s[p + j], MarkerWord[j]);
      }
    }
    TailInSlice(s, p, q, p + |MarkerWord|);
  }

  /** With two or more markers every block begins with a marker. */
  lemma SegmentBlocksBeginWithMarker(s: string, k: nat)
    requires |MarkerStarts(s, 0)| >= 2 && k < |MarkerStarts(s, 0)|
    ensures MarkerAt(Segment(s)[k], 0)
  {
    var ps := MarkerStarts(s, 0);
    var q := if k + 1 < |ps| then ps[k + 1] else |s|;
    SegmentBlockSpan(s, k);
    var e := MarkerEnd(s, ps[k]).value;
    if q < e {
      NoMarkerInside(s, ps[k], q);
    }
    MarkerInSlice(s, ps[k], q);
  }

  /** The cutting loop: each block runs from its offset to the next offset,
      the last to the end of the text. */
  method CutAt(content: string, positions: seq<nat>) returns (blocks: seq<string>)
    requires forall k :: 0 <= k < |positions| ==> positions[k] <= |content|
    requires forall k, l :: 0 <= k < l < |positions| ==> positions[k] < positions[l]
    ensures blocks == Blocks(content, positions)
  {
    ghost var segments := Blocks(content, positions);
    blocks := [];
    var i := 0;
    while i < |positions|
      invariant 0 <= i <= |positions| == |segments|
      invariant blocks == segments[..i]
    {
      var start := positions[i];
      var end := if i + 1 < |positions| then positions[i + 1] else |content|;
      BlocksSpan(content, positions, i);
      blocks := blocks + [content[start..end]];
      i := i + 1;
    }
  }

  /** The segmentation: the marker offsets are collected with the
      left-to-right scan; with two or more the text is cut at them, otherwise
      it is returned whole. It computes `Segment`. */
  method CutPublications(content: string) returns (blocks: seq<string>)
    ensures blocks == Segment(content)
  {
    var positions := ScanMarkers(content, 0);
    if |positions| > 1 {
      blocks := CutAt(content, positions);
    } else {
      blocks := [content];
    }
  }
}
