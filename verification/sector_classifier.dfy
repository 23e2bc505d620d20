/** Sector classification with rightmost-evidence tie-break. For every sector of
    a taxonomy, each keyword found in the upper-cased text is recorded with the
    offset of its rightmost occurrence; the sector's score is its number of
    found keywords and its last position the greatest of those offsets. The
    sector with the greatest score wins; among tied sectors the one whose
    evidence reaches furthest into the text wins (the earliest in taxonomy
    order on a further tie); the keyword reported is the winner's keyword with
    the greatest offset (the earliest in keyword order on a tie). */
module SectorClassifier {

  import opened Text
  import opened Argmax

  /** A sector of the taxonomy: its name and its keywords, in order. */
  datatype Sector = Sector(name: string, keywords: seq<string>)

  /** The keyword is found in the upper-cased text (after upper-casing it). */
  predicate Matched(textUpper: string, keyword: string)
  {
    Contains(textUpper, Upper(keyword))
  }

  /** Offset of the keyword's rightmost occurrence, or -1. */
  function Position(textUpper: string, keyword: string): (p: int)
    ensures p == -1 <==> !Matched(textUpper, keyword)
    ensures p != -1 ==> 0 <= p <= |textUpper| - |keyword|
  {
    LastIndexOf(textUpper, Upper(keyword))
  }

  /** A found keyword: its place in the sector's keyword list and the offset
      of its rightmost occurrence. */
  datatype Hit = Hit(index: nat, position: nat)

  /** The found keywords among `keywords[from..]`, in keyword order. */
  function HitsFrom(textUpper: string, keywords: seq<string>, from: nat): (hs: seq<Hit>)
    requires from <= |keywords|
    decreases |keywords| - from
    ensures |hs| <= |keywords| - from
    ensures forall i :: 0 <= i < |hs| ==>
              from <= hs[i].index < |keywords| && Matched(textUpper, keywords[hs[i].index])
              && hs[i].position == Position(textUpper, keywords[hs[i].index])
    ensures forall i, j :: 0 <= i < j < |hs| ==> hs[i].index < hs[j].index
  {
    if from == |keywords| then []
    else
      var rest := HitsFrom(textUpper, keywords, from + 1);
      var position := Position(textUpper, keywords[from]);
      if position >= 0 then [Hit(from, position)] + rest else rest
  }

  /** Every found keyword of `keywords[from..]` has a hit. */
  lemma {:induction false} HitsFromComplete(textUpper: string, keywords: seq<string>, from: nat, m: nat)
    requires from <= m < |keywords| && Matched(textUpper, keywords[m])
    ensures exists i :: 0 <= i < |HitsFrom(textUpper, keywords, from)| && HitsFrom(textUpper, keywords, from)[i].index == m
    decreases |keywords| - from
  {
    var hs := HitsFrom(textUpper, keywords, from);
    var rest := HitsFrom(textUpper, keywords, from + 1);
    var position := Position(textUpper, keywords[from]);
    assert hs == if position >= 0 then [Hit(from, position)] + rest else rest;
    if m == from {
      assert hs[0] == Hit(from, position);
    } else {
      HitsFromComplete(textUpper, keywords, from + 1, m);
      var i :| 0 <= i < |rest| && rest[i].index == m;
      if position >= 0 {
        assert hs[i + 1] == rest[i];
      } else {
        assert hs[i] == rest[i];
      }
    }
  }

  /** Indices of the found keywords among `keywords[from..]`. */
  function MatchedIndices(textUpper: string, keywords: seq<string>, from: nat): set<nat>
  {
    set m: nat | from <= m < |keywords| && Matched(textUpper, keywords[m])
  }

  /** One hit per found keyword: the number of hits is the number of found
      keywords. */
  lemma {:induction false} HitsFromCount(textUpper: string, keywords: seq<string>, from: nat)
    requires from <= |keywords|
    ensures |HitsFrom(textUpper, keywords, from)| == |MatchedIndices(textUpper, keywords, from)|
    decreases |keywords| - from
  {
    if from < |keywords| {
      HitsFromCount(textUpper, keywords, from + 1);
      var here := MatchedIndices(textUpper, keywords, from);
      var later := MatchedIndices(textUpper, keywords, from + 1);
      if Matched(textUpper, keywords[from]) {
        assert here == later + {from};
        assert from !in later;
      } else {
        assert here == later;
      }
    } else {
      assert MatchedIndices(textUpper, keywords, from) == {};
    }
  }

  /** A sector's score: the number of its keywords found in the text. */
  function SectorScore(textUpper: string, s: Sector): nat
  {
    |MatchedIndices(textUpper, s.keywords, 0)|
  }

  /** The running maximum of hit offsets, starting from -1 and replaced only by
      a strictly greater offset. */
  function LastPosition(hs: seq<Hit>): (p: int)
    ensures |hs| == 0 ==> p == -1
    ensures forall i :: 0 <= i < |hs| ==> hs[i].position <= p
    ensures |hs| > 0 ==> exists i :: 0 <= i < |hs| && hs[i].position == p
  {
    if |hs| == 0 then -1
    else
      var p := LastPosition(hs[..|hs| - 1]);
      assert forall i :: 0 <= i < |hs| - 1 ==> hs[i] == hs[..|hs| - 1][i];
      if hs[|hs| - 1].position > p then hs[|hs| - 1].position else p
  }

  function HitPositions(hs: seq<Hit>): (ps: seq<int>)
    ensures |ps| == |hs|
    ensures forall i :: 0 <= i < |hs| ==> ps[i] == hs[i].position
  {
    seq(|hs|, i requires 0 <= i < |hs| => hs[i].position)
  }

  /** What is recorded for a sector with at least one found keyword. */
  datatype SectorInfo = SectorInfo(index: nat, score: nat, lastPosition: int, hits: seq<Hit>)

  function InfoOf(table: seq<Sector>, textUpper: string, j: nat): SectorInfo
    requires j < |table|
  {
    var hs := HitsFrom(textUpper, table[j].keywords, 0);
    SectorInfo(j, |hs|, LastPosition(hs), hs)
  }

  /** What an info says about its sector: its score is the sector's score, no
      found keyword lies beyond its last position, and some found keyword lies
      exactly there. */
  lemma InfoOfFacts(table: seq<Sector>, textUpper: string, j: nat)
    requires j < |table|
    ensures InfoOf(table, textUpper, j).score == SectorScore(textUpper, table[j])
    ensures forall m :: 0 <= m < |table[j].keywords| && Matched(textUpper, table[j].keywords[m]) ==>
              Position(textUpper, table[j].keywords[m]) <= InfoOf(table, textUpper, j).lastPosition
  {
    var kws := table[j].keywords;
    var hs := HitsFrom(textUpper, kws, 0);
    HitsFromCount(textUpper, kws, 0);
    forall m | 0 <= m < |kws| && Matched(textUpper, kws[m])
      ensures Position(textUpper, kws[m]) <= LastPosition(hs)
    {
      HitsFromComplete(textUpper, kws, 0, m);
    }
  }

  /** The info of every sector of the taxonomy, in taxonomy order. */
  function AllInfos(table: seq<Sector>, textUpper: string): (all: seq<SectorInfo>)
    ensures |all| == |table|
    ensures forall j :: 0 <= j < |table| ==> all[j] == InfoOf(table, textUpper, j)
  {
    seq(|table|, j requires 0 <= j < |table| => InfoOf(table, textUpper, j))
  }

  /** The sectors with at least one found keyword: the entries of the `setorInfo`
      dictionary, in insertion order. */
  function Recorded(all: seq<SectorInfo>): (infos: seq<SectorInfo>)
    ensures forall i :: 0 <= i < |infos| ==> infos[i] in all && infos[i].score > 0
    ensures forall e :: e in all && e.score > 0 ==> e in infos
  {
    if |all| == 0 then []
    else
      var rest := Recorded(all[1..]);
      assert forall e :: e in all ==> e == all[0] || e in all[1..];
      if all[0].score > 0 then [all[0]] + rest else rest
  }

  predicate IndexOrdered(infos: seq<SectorInfo>)
  {
    forall i, j :: 0 <= i < j < |infos| ==> infos[i].index < infos[j].index
  }

  /** In an ordered list every later entry has a greater index than the head,
      and the tail is ordered too. */
  lemma HeadBeforeTail(all: seq<SectorInfo>)
    requires IndexOrdered(all) && |all| > 0
    ensures IndexOrdered(all[1..])
    ensures forall e :: e in all[1..] ==> all[0].index < e.index
  {
    forall e | e in all[1..]
      ensures all[0].index < e.index
    {
      var k :| 0 <= k < |all| - 1 && all[1..][k] == e;
      assert all[k + 1] == e;
    }
  }

  /** Putting an entry before an ordered list of entries with greater indices
      gives an ordered list. */
  lemma ConsOrdered(x: SectorInfo, rest: seq<SectorInfo>)
    requires IndexOrdered(rest)
    requires forall e :: e in rest ==> x.index < e.index
    ensures IndexOrdered([x] + rest)
  {
    var xs := [x] + rest;
    forall i, j | 0 <= i < j < |xs|
      ensures xs[i].index < xs[j].index
    {
      assert xs[j] == rest[j - 1];
      if i == 0 {
        assert rest[j - 1] in rest;
      } else {
        assert xs[i] == rest[i - 1];
      }
    }
  }

  /** Keeping the entries with a positive score keeps taxonomy order. */
  lemma {:induction false} RecordedOrdered(all: seq<SectorInfo>)
    requires IndexOrdered(all)
    ensures IndexOrdered(Recorded(all))
  {
    if |all| > 0 {
      var rest := Recorded(all[1..]);
      HeadBeforeTail(all);
      RecordedOrdered(all[1..]);
      if all[0].score > 0 {
        assert forall e :: e in rest ==> e in all[1..];
        ConsOrdered(all[0], rest);
      }
    }
  }

  /** The recorded infos are the infos of exactly the sectors with a found
      keyword, in taxonomy order. */
  lemma RecordedFacts(table: seq<Sector>, textUpper: string, infos: seq<SectorInfo>)
    requires infos == Recorded(AllInfos(table, textUpper))
    ensures IndexOrdered(infos)
    ensures forall i :: 0 <= i < |infos| ==>
              infos[i].index < |table| && infos[i] == InfoOf(table, textUpper, infos[i].index) && infos[i].score > 0
    ensures forall j :: 0 <= j < |table| && InfoOf(table, textUpper, j).score > 0 ==>
              exists i :: 0 <= i < |infos| && infos[i].index == j
  {
    var all := AllInfos(table, textUpper);
    assert forall j :: 0 <= j < |table| ==> all[j].index == j;
    RecordedOrdered(all);
    forall i | 0 <= i < |infos|
      ensures infos[i].index < |table| && infos[i] == InfoOf(table, textUpper, infos[i].index)
    {
      var j :| 0 <= j < |all| && all[j] == infos[i];
    }
    forall j | 0 <= j < |table| && InfoOf(table, textUpper, j).score > 0
      ensures exists i :: 0 <= i < |infos| && infos[i].index == j
    {
      assert all[j] in all;
      var i :| 0 <= i < |infos| && infos[i] == all[j];
    }
  }

  function InfoScores(infos: seq<SectorInfo>): (xs: seq<int>)
    ensures |xs| == |infos|
    ensures forall i :: 0 <= i < |infos| ==> xs[i] == infos[i].score
  {
    seq(|infos|, i requires 0 <= i < |infos| => infos[i].score)
  }

  function InfoLastPositions(infos: seq<SectorInfo>): (xs: seq<int>)
    ensures |xs| == |infos|
    ensures forall i :: 0 <= i < |infos| ==> xs[i] == infos[i].lastPosition
  {
    seq(|infos|, i requires 0 <= i < |infos| => infos[i].lastPosition)
  }

  /** The infos whose score is `m`, in order. */
  function WithScore(infos: seq<SectorInfo>, m: int): (top: seq<SectorInfo>)
    ensures forall i :: 0 <= i < |top| ==> top[i] in infos && top[i].score == m
    ensures forall e :: e in infos && e.score == m ==> e in top
  {
    if |infos| == 0 then []
    else
      var rest := WithScore(infos[1..], m);
      assert forall e :: e in infos ==> e == infos[0] || e in infos[1..];
      if infos[0].score == m then [infos[0]] + rest else rest
  }

  /** Filtering keeps taxonomy order. */
  lemma {:induction false} WithScoreOrdered(infos: seq<SectorInfo>, m: int)
    requires IndexOrdered(infos)
    ensures IndexOrdered(WithScore(infos, m))
  {
    if |infos| > 0 {
      var rest := WithScore(infos[1..], m);
      HeadBeforeTail(infos);
      WithScoreOrdered(infos[1..], m);
      if infos[0].score == m {
        assert forall e :: e in rest ==> e in infos[1..];
        ConsOrdered(infos[0], rest);
      }
    }
  }

  /** The pick among the top-scoring infos: the only one, or else the first
      with the greatest last position. Its last position is the greatest among
      them, and strictly greater than that of every one before it. */
  lemma ChosenFromTop(top: seq<SectorInfo>, chosen: SectorInfo)
    requires |top| > 0 && IndexOrdered(top)
    requires chosen == if |top| == 1 then top[0] else top[FirstMaxIndex(InfoLastPositions(top))]
    ensures chosen in top
    ensures forall t :: 0 <= t < |top| ==> top[t].lastPosition <= chosen.lastPosition
    ensures forall t :: 0 <= t < |top| && top[t].index < chosen.index ==> top[t].lastPosition < chosen.lastPosition
  {
    if |top| > 1 {
      var k := FirstMaxIndex(InfoLastPositions(top));
      forall t | 0 <= t < |top|
        ensures top[t].lastPosition <= chosen.lastPosition
        ensures top[t].index < chosen.index ==> top[t].lastPosition < chosen.lastPosition
      {
        assert InfoLastPositions(top)[t] <= InfoLastPositions(top)[k];
        if top[t].index < chosen.index {
          assert t < k;
          assert InfoLastPositions(top)[t] < InfoLastPositions(top)[k];
        }
      }
    }
  }

  /** The sector decision: no sector, or the chosen sector's position in the
      taxonomy and the position of the reported keyword in its keyword list. */
  datatype SectorChoice = NoSector | Chosen(sector: nat, keyword: nat)

  /** The offset a choice reports: the rightmost occurrence of its keyword. */
  function ChoicePosition(table: seq<Sector>, textUpper: string, c: SectorChoice): int
    requires c.Chosen? ==> c.sector < |table| && c.keyword < |table[c.sector].keywords|
  {
    if c.NoSector? then -1 else Position(textUpper, table[c.sector].keywords[c.keyword])
  }

  /** The reported keyword of a recorded sector: its hit with the greatest
      offset, the earliest such in keyword order. The keyword is found, its
      offset is the sector's last position, and every earlier found keyword
      lies strictly before it. */
  function BestKeyword(table: seq<Sector>, textUpper: string, e: SectorInfo): (m: nat)
    requires e.index < |table| && e == InfoOf(table, textUpper, e.index) && e.score > 0
    ensures m < |table[e.index].keywords| && Matched(textUpper, table[e.index].keywords[m])
    ensures Position(textUpper, table[e.index].keywords[m]) == e.lastPosition
    ensures forall q :: 0 <= q < m && Matched(textUpper, table[e.index].keywords[q]) ==>
              Position(textUpper, table[e.index].keywords[q]) < e.lastPosition
  {
    var kws := table[e.index].keywords;
    var hs := HitsFrom(textUpper, kws, 0);
    assert e.hits == hs && e.lastPosition == LastPosition(hs);
    var k := FirstMaxIndex(HitPositions(hs));
    var p := LastPosition(hs);
    assert hs[k].position == p by {
      var w :| 0 <= w < |hs| && hs[w].position == p;
      assert HitPositions(hs)[w] <= HitPositions(hs)[k];
    }
    forall q | 0 <= q < hs[k].index && Matched(textUpper, kws[q])
      ensures Position(textUpper, kws[q]) < p
    {
      HitsFromComplete(textUpper, kws, 0, q);
      var i :| 0 <= i < |hs| && hs[i].index == q;
      assert i < k;
      assert HitPositions(hs)[i] < HitPositions(hs)[k];
    }
    hs[k].index
  }

  /** The recorded sector the decision picks: among the recorded sectors with
      the greatest score, the only one, or else the first with the greatest
      last position. */
  function PickSector(table: seq<Sector>, textUpper: string): (e: SectorInfo)
    requires |Recorded(AllInfos(table, textUpper))| > 0
    ensures e.index < |table| && e == InfoOf(table, textUpper, e.index) && e.score > 0
    ensures forall j :: 0 <= j < |table| ==> SectorScore(textUpper, table[j]) <= SectorScore(textUpper, table[e.index])
    ensures forall j, m :: 0 <= j < |table| && 0 <= m < |table[j].keywords|
                           && SectorScore(textUpper, table[j]) == SectorScore(textUpper, table[e.index])
                           && Matched(textUpper, table[j].keywords[m]) ==>
              Position(textUpper, table[j].keywords[m]) <= e.lastPosition
    ensures forall j, m :: 0 <= j < e.index && 0 <= m < |table[j].keywords|
                           && SectorScore(textUpper, table[j]) == SectorScore(textUpper, table[e.index])
                           && Matched(textUpper, table[j].keywords[m]) ==>
              Position(textUpper, table[j].keywords[m]) < e.lastPosition
  {
    var infos := Recorded(AllInfos(table, textUpper));
    var maxScore := Max(InfoScores(infos));
    var top := WithScore(infos, maxScore);
    assert |top| > 0 by {
      var w :| 0 <= w < |infos| && InfoScores(infos)[w] == maxScore;
      assert infos[w] in infos;
    }
    var chosen := if |top| == 1 then top[0] else top[FirstMaxIndex(InfoLastPositions(top))];
    ChosenIsBest(table, textUpper, infos, maxScore, top, chosen);
    chosen
  }

  /** Sector `j` with its keyword `m` is what the decision reports when that
      keyword is found, no sector scores more than sector `j`, no found keyword
      of a sector tied with it lies right of the keyword's rightmost
      occurrence, and every found keyword of a tied sector earlier in the
      taxonomy, or earlier in sector `j`'s own list, lies strictly left of it. */
  predicate BestEvidence(table: seq<Sector>, textUpper: string, j: nat, m: nat)
    requires j < |table| && m < |table[j].keywords|
  {
    var p := Position(textUpper, table[j].keywords[m]);
    && Matched(textUpper, table[j].keywords[m])
    && (forall i :: 0 <= i < |table| ==> SectorScore(textUpper, table[i]) <= SectorScore(textUpper, table[j]))
    && (forall i, n :: 0 <= i < |table| && 0 <= n < |table[i].keywords|
                       && SectorScore(textUpper, table[i]) == SectorScore(textUpper, table[j])
                       && Matched(textUpper, table[i].keywords[n]) ==>
          Position(textUpper, table[i].keywords[n]) <= p)
    && (forall i, n :: 0 <= i < j && 0 <= n < |table[i].keywords|
                       && SectorScore(textUpper, table[i]) == SectorScore(textUpper, table[j])
                       && Matched(textUpper, table[i].keywords[n]) ==>
          Position(textUpper, table[i].keywords[n]) < p)
    && (forall n :: 0 <= n < m && Matched(textUpper, table[j].keywords[n]) ==>
          Position(textUpper, table[j].keywords[n]) < p)
  }

  /** The sector decision over a taxonomy. It is no sector exactly when no
      keyword of any sector is found. Otherwise the chosen sector has the
      greatest score; the reported keyword is one of its found keywords; its
      rightmost offset is at least that of every found keyword of every sector
      tied on score, and strictly greater than that of every found keyword of a
      tied sector earlier in the taxonomy and of every found keyword earlier in
      the chosen sector's own list. */
  function ChooseSector(table: seq<Sector>, textUpper: string): (c: SectorChoice)
    ensures c.Chosen? ==> c.sector < |table| && c.keyword < |table[c.sector].keywords|
    ensures c.NoSector? <==>
              forall j, m :: 0 <= j < |table| && 0 <= m < |table[j].keywords| ==> !Matched(textUpper, table[j].keywords[m])
    ensures c.Chosen? ==> Matched(textUpper, table[c.sector].keywords[c.keyword])
    ensures c.Chosen? ==>
              forall j :: 0 <= j < |table| ==> SectorScore(textUpper, table[j]) <= SectorScore(textUpper, table[c.sector])
    ensures c.Chosen? ==>
              forall j, m :: 0 <= j < |table| && 0 <= m < |table[j].keywords|
                             && SectorScore(textUpper, table[j]) == SectorScore(textUpper, table[c.sector])
                             && Matched(textUpper, table[j].keywords[m]) ==>
                Position(textUpper, table[j].keywords[m]) <= ChoicePosition(table, textUpper, c)
    ensures c.Chosen? ==>
              forall j, m :: 0 <= j < c.sector && 0 <= m < |table[j].keywords|
                             && SectorScore(textUpper, table[j]) == SectorScore(textUpper, table[c.sector])
                             && Matched(textUpper, table[j].keywords[m]) ==>
                Position(textUpper, table[j].keywords[m]) < ChoicePosition(table, textUpper, c)
    ensures c.Chosen? ==>
              forall m :: 0 <= m < c.keyword && Matched(textUpper, table[c.sector].keywords[m]) ==>
                Position(textUpper, table[c.sector].keywords[m]) < ChoicePosition(table, textUpper, c)
  {
    RecordedIffSomeMatch(table, textUpper);
    if |Recorded(AllInfos(table, textUpper))| == 0 then
      NoSector
    else
      var e := PickSector(table, textUpper);
      Chosen(e.index, BestKeyword(table, textUpper, e))
  }

  /** Some sector is recorded exactly when some keyword of some sector is found. */
  lemma RecordedIffSomeMatch(table: seq<Sector>, textUpper: string)
    ensures |Recorded(AllInfos(table, textUpper))| == 0 <==>
              forall j, m :: 0 <= j < |table| && 0 <= m < |table[j].keywords| ==> !Matched(textUpper, table[j].keywords[m])
  {
    var infos := Recorded(AllInfos(table, textUpper));
    RecordedFacts(table, textUpper, infos);
    forall j, m | 0 <= j < |table| && 0 <= m < |table[j].keywords| && Matched(textUpper, table[j].keywords[m])
      ensures |infos| > 0
    {
      HitsFromComplete(textUpper, table[j].keywords, 0, m);
      assert InfoOf(table, textUpper, j).score > 0;
    }
    if |infos| > 0 {
      var e := infos[0];
      assert e == InfoOf(table, textUpper, e.index);
      var h := e.hits[0];
      assert Matched(textUpper, table[e.index].keywords[h.index]);
    }
  }

  /** The sector picked from the top-scoring infos has the greatest score, and
      its last position is at least that of every tied sector and strictly
      greater than that of every tied sector before it. */
  lemma ChosenIsBest(table: seq<Sector>, textUpper: string, infos: seq<SectorInfo>, maxScore: int,
                     top: seq<SectorInfo>, chosen: SectorInfo)
    requires infos == Recorded(AllInfos(table, textUpper)) && |infos| > 0
    requires maxScore == Max(InfoScores(infos))
    requires top == WithScore(infos, maxScore) && |top| > 0
    requires chosen == if |top| == 1 then top[0] else top[FirstMaxIndex(InfoLastPositions(top))]
    ensures chosen.index < |table| && chosen == InfoOf(table, textUpper, chosen.index) && chosen.score > 0
    ensures forall j :: 0 <= j < |table| ==> SectorScore(textUpper, table[j]) <= SectorScore(textUpper, table[chosen.index])
    ensures forall j, m :: 0 <= j < |table| && 0 <= m < |table[j].keywords|
                           && SectorScore(textUpper, table[j]) == SectorScore(textUpper, table[chosen.index])
                           && Matched(textUpper, table[j].keywords[m]) ==>
              Position(textUpper, table[j].keywords[m]) <= chosen.lastPosition
    ensures forall j, m :: 0 <= j < chosen.index && 0 <= m < |table[j].keywords|
                           && SectorScore(textUpper, table[j]) == SectorScore(textUpper, table[chosen.index])
                           && Matched(textUpper, table[j].keywords[m]) ==>
              Position(textUpper, table[j].keywords[m]) < chosen.lastPosition
  {
    RecordedFacts(table, textUpper, infos);
    WithScoreOrdered(infos, maxScore);
    ChosenFromTop(top, chosen);
    var ci := chosen.index;
    InfoOfFacts(table, textUpper, ci);
    forall j | 0 <= j < |table|
      ensures SectorScore(textUpper, table[j]) <= SectorScore(textUpper, table[ci])
    {
      InfoOfFacts(table, textUpper, j);
      if InfoOf(table, textUpper, j).score > 0 {
        var i :| 0 <= i < |infos| && infos[i].index == j;
        assert InfoScores(infos)[i] <= maxScore;
      }
    }
    forall j, m | 0 <= j < |table| && 0 <= m < |table[j].keywords| && Matched(textUpper, table[j].keywords[m])
                  && SectorScore(textUpper, table[j]) == SectorScore(textUpper, table[ci])
      ensures Position(textUpper, table[j].keywords[m]) <= chosen.lastPosition
      ensures j < ci ==> Position(textUpper, table[j].keywords[m]) < chosen.lastPosition
    {
      InfoOfFacts(table, textUpper, j);
      var i :| 0 <= i < |infos| && infos[i].index == j;
      var e := infos[i];
      assert e.score == maxScore;
      assert e in top;
      var t :| 0 <= t < |top| && top[t] == e;
    }
  }
}
