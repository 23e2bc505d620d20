/** Document-type classification: every type is scored by how many of its merged
    keywords occur in the upper-cased text; the first type, in enumeration order,
    with the greatest positive score wins, and `Outros` with confidence 0 is the
    fallback when no type scores. */
module TypeClassifier {

  import opened Text
  import opened Catalog
  import opened Argmax

  /** Score of a type: the number of its merged keywords occurring in the text. */
  function TypeScore(stored: seq<StoredKeyword>, textUpper: string, t: DocType): nat
  {
    CountContained(textUpper, MergedKeywords(stored, t))
  }

  /** Over a duplicate-free list, the count equals the number of distinct
      matching keywords. */
  lemma {:induction false} CountContainedDistinct(s: string, keys: seq<string>)
    requires NoDuplicates(keys)
    ensures CountContained(s, keys) == |set k | k in keys && Contains(s, k)|
  {
    if |keys| > 0 {
      var rest := keys[1..];
      assert NoDuplicates(rest);
      CountContainedDistinct(s, rest);
      var restSet := set k | k in rest && Contains(s, k);
      var allSet := set k | k in keys && Contains(s, k);
      assert keys[0] !in rest;
      if Contains(s, keys[0]) {
        assert allSet == restSet + {keys[0]};
      } else {
        assert allSet == restSet;
      }
    }
  }

  /** A type's score is the number of distinct terms of the union of its stored
      and default keywords that occur in the text. */
  lemma TypeScoreIsDistinctMatchCount(stored: seq<StoredKeyword>, textUpper: string, t: DocType)
    ensures TypeScore(stored, textUpper, t)
         == |set k | k in StoredTerms(stored, t) + DefaultKeywords(t) && Contains(textUpper, k)|
  {
    var merged := MergedKeywords(stored, t);
    CountContainedDistinct(textUpper, merged);
    assert (set k | k in merged && Contains(textUpper, k))
        == (set k | k in StoredTerms(stored, t) + DefaultKeywords(t) && Contains(textUpper, k));
  }

  /** An entry of the score dictionary: the enumeration position of a type and
      its (positive) score. */
  datatype Scored = Scored(index: nat, score: nat)

  /** The score dictionary restricted to positions `from..` of the keyword
      table: the positions whose score is positive, in table order. */
  function PositiveScores(textUpper: string, table: seq<seq<string>>, from: nat): (r: seq<Scored>)
    requires from <= |table|
    decreases |table| - from
    ensures forall i :: 0 <= i < |r| ==>
              from <= r[i].index < |table| && 0 < r[i].score == CountContained(textUpper, table[r[i].index])
    ensures forall i, j :: 0 <= i < j < |r| ==> r[i].index < r[j].index
  {
    if from == |table| then []
    else
      var rest := PositiveScores(textUpper, table, from + 1);
      var score := CountContained(textUpper, table[from]);
      if score > 0 then [Scored(from, score)] + rest else rest
  }

  /** Every position with a positive score has an entry in the dictionary. */
  lemma {:induction false} PositiveScoresComplete(textUpper: string, table: seq<seq<string>>, from: nat, j: nat)
    requires from <= j < |table| && CountContained(textUpper, table[j]) > 0
    ensures exists i :: 0 <= i < |PositiveScores(textUpper, table, from)|
                        && PositiveScores(textUpper, table, from)[i].index == j
    decreases |table| - from
  {
    var r := PositiveScores(textUpper, table, from);
    var rest := PositiveScores(textUpper, table, from + 1);
    var score := CountContained(textUpper, table[from]);
    assert r == if score > 0 then [Scored(from, score)] + rest else rest;
    if j == from {
      assert r[0] == Scored(from, score);
    } else {
      PositiveScoresComplete(textUpper, table, from + 1, j);
      var i :| 0 <= i < |rest| && rest[i].index == j;
      if score > 0 {
        assert r[i + 1] == rest[i];
      } else {
        assert r[i] == rest[i];
      }
    }
  }

  function ScoreValues(scores: seq<Scored>): (values: seq<int>)
    ensures |values| == |scores|
    ensures forall i :: 0 <= i < |scores| ==> values[i] == scores[i].score
  {
    seq(|scores|, i requires 0 <= i < |scores| => scores[i].score)
  }

  /** A positive count over a total at least as large is a fraction in (0, 1]. */
  lemma RatioInUnitInterval(score: nat, total: nat)
    requires 0 < score <= total
    ensures 0.0 < score as real / total as real <= 1.0
  {
    assert score as real <= total as real;
  }

  /** The entry `First(s => s.Value == max)` picks: the first entry whose score
      is the greatest. */
  function BestEntry(scores: seq<Scored>): (k: nat)
    requires |scores| > 0
    ensures k < |scores|
    ensures forall i :: 0 <= i < |scores| ==> scores[i].score <= scores[k].score
    ensures forall i :: 0 <= i < k ==> scores[i].score < scores[k].score
  {
    var values := ScoreValues(scores);
    FirstIndexOf(values, Max(values))
  }

  /** The best entry's score is at least every positive table score, and
      exceeds those of earlier table positions. */
  lemma BestEntryBeats(textUpper: string, table: seq<seq<string>>, scores: seq<Scored>, j: nat)
    requires scores == PositiveScores(textUpper, table, 0) && |scores| > 0
    requires j < |table| && CountContained(textUpper, table[j]) > 0
    ensures CountContained(textUpper, table[j]) <= scores[BestEntry(scores)].score
    ensures j < scores[BestEntry(scores)].index ==> CountContained(textUpper, table[j]) < scores[BestEntry(scores)].score
  {
    var k := BestEntry(scores);
    PositiveScoresComplete(textUpper, table, 0, j);
    var i :| 0 <= i < |scores| && scores[i].index == j;
    assert scores[i].score == CountContained(textUpper, table[j]);
    if j < scores[k].index {
      EarlierIndexEarlierEntry(scores, i, k);
    }
  }

  /** In a dictionary listed by increasing position, an entry with a smaller
      position comes earlier. */
  lemma EarlierIndexEarlierEntry(scores: seq<Scored>, i: nat, k: nat)
    requires forall a, b :: 0 <= a < b < |scores| ==> scores[a].index < scores[b].index
    requires i < |scores| && k < |scores| && scores[i].index < scores[k].index
    ensures i < k
  {
  }

  /** Table position of the winning type: the first maximal entry of the score
      dictionary, or -1 when the dictionary is empty because nothing scored. */
  function BestIndex(textUpper: string, table: seq<seq<string>>): (b: int)
    ensures -1 <= b < |table|
    ensures b == -1 <==> forall j :: 0 <= j < |table| ==> CountContained(textUpper, table[j]) == 0
    ensures b != -1 ==> forall j :: 0 <= j < |table| ==> CountContained(textUpper, table[j]) <= CountContained(textUpper, table[b])
    ensures b != -1 ==> forall j :: 0 <= j < b ==> CountContained(textUpper, table[j]) < CountContained(textUpper, table[b])
  {
    var scores := PositiveScores(textUpper, table, 0);
    if |scores| > 0 then
      var best := scores[BestEntry(scores)];
      assert forall j :: 0 <= j < |table| && CountContained(textUpper, table[j]) > 0 ==>
               CountContained(textUpper, table[j]) <= best.score
               && (j < best.index ==> CountContained(textUpper, table[j]) < best.score) by {
        forall j | 0 <= j < |table| && CountContained(textUpper, table[j]) > 0
          ensures CountContained(textUpper, table[j]) <= best.score
          ensures j < best.index ==> CountContained(textUpper, table[j]) < best.score
        {
          BestEntryBeats(textUpper, table, scores, j);
        }
      }
      best.index
    else
      assert forall j :: 0 <= j < |table| ==> CountContained(textUpper, table[j]) == 0 by {
        forall j | 0 <= j < |table| ensures CountContained(textUpper, table[j]) == 0 {
          if CountContained(textUpper, table[j]) > 0 {
            PositiveScoresComplete(textUpper, table, 0, j);
          }
        }
      }
      -1
  }

  /** The classifier's verdict on the document type. */
  datatype TypeVerdict = TypeVerdict(docType: DocType, confidence: real)

  /** Score of a type read from the `allKeywords` table. */
  lemma TypeScoreFromTable(stored: seq<StoredKeyword>, textUpper: string, t: DocType)
    ensures Rank(t) < |AllKeywords(stored)|
    ensures TypeScore(stored, textUpper, t) == CountContained(textUpper, AllKeywords(stored)[Rank(t)])
  {
    RankIndexesDocTypes(t);
  }

  /** The type classification of an upper-cased text against the active stored
      keywords: the winner has the greatest score of all types, every type before
      it in enumeration order scores strictly less, the confidence is the
      winner's score over its merged keyword count and lies in (0, 1], and the
      verdict is `Outros` with confidence 0 exactly when no type scores. */
  function ClassifyType(stored: seq<StoredKeyword>, textUpper: string): (v: TypeVerdict)
    ensures forall t :: TypeScore(stored, textUpper, t) <= TypeScore(stored, textUpper, v.docType)
    ensures v.confidence != 0.0 ==> forall t :: Rank(t) < Rank(v.docType) ==> TypeScore(stored, textUpper, t) < TypeScore(stored, textUpper, v.docType)
    ensures v.confidence == 0.0 <==> forall t :: TypeScore(stored, textUpper, t) == 0
    ensures v.confidence == 0.0 ==> v.docType == Outros
    ensures v.confidence != 0.0 ==>
              0.0 < v.confidence <= 1.0
              && v.confidence == TypeScore(stored, textUpper, v.docType) as real / |MergedKeywords(stored, v.docType)| as real
  {
    var table := AllKeywords(stored);
    var b := BestIndex(textUpper, table);
    if b == -1 then
      assert forall t :: TypeScore(stored, textUpper, t) == 0 by {
        forall t ensures TypeScore(stored, textUpper, t) == 0 {
          TypeScoreFromTable(stored, textUpper, t);
        }
      }
      TypeVerdict(Outros, 0.0)
    else
      var t := DocTypes[b];
      DocTypesEnumerateEachOnce(b);
      TypeScoreFromTable(stored, textUpper, t);
      var score := CountContained(textUpper, table[b]);
      assert 0 < score <= |table[b]| by {
        assert exists j :: 0 <= j < |table| && CountContained(textUpper, table[j]) != 0;
      }
      RatioInUnitInterval(score, |table[b]|);
      assert forall u :: TypeScore(stored, textUpper, u) <= score
                         && (Rank(u) < b ==> TypeScore(stored, textUpper, u) < score) by {
        forall u ensures TypeScore(stored, textUpper, u) <= score
                   ensures Rank(u) < b ==> TypeScore(stored, textUpper, u) < score {
          TypeScoreFromTable(stored, textUpper, u);
        }
      }
      TypeVerdict(t, score as real / |table[b]| as real)
  }

  /** When no merged keyword of any type occurs in the text the verdict is
      `Outros` with confidence 0. */
  lemma NoMatchFallsBackToOutros(stored: seq<StoredKeyword>, textUpper: string)
    requires forall t, k :: k in MergedKeywords(stored, t) ==> !Contains(textUpper, k)
    ensures ClassifyType(stored, textUpper) == TypeVerdict(Outros, 0.0)
  {
    var v := ClassifyType(stored, textUpper);
    assert TypeScore(stored, textUpper, v.docType) == 0;
  }

  /** A text matching exactly one merged keyword, of exactly one type, is
      classified as that type with confidence one over that type's keyword count. */
  lemma SingleKeywordDecides(stored: seq<StoredKeyword>, textUpper: string, t: DocType)
    requires TypeScore(stored, textUpper, t) == 1
    requires forall u :: u != t ==> TypeScore(stored, textUpper, u) == 0
    ensures ClassifyType(stored, textUpper) == TypeVerdict(t, 1.0 / |MergedKeywords(stored, t)| as real)
  {
    var v := ClassifyType(stored, textUpper);
    assert TypeScore(stored, textUpper, t) <= TypeScore(stored, textUpper, v.docType);
    assert v.docType == t;
    assert v.confidence != 0.0;
    assert TypeScore(stored, textUpper, v.docType) as real == 1.0;
  }
}
