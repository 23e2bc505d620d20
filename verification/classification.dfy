/** The classification service: one publication is classified by document type
    and sector and has its process number and publication date extracted; a
    document is first split into publications and each is classified with the
    same stored keywords. */
module Classification {

  import opened Options
  import opened Text
  import opened Catalog
  import opened TypeClassifier
  import opened SectorClassifier
  import opened SectorTaxonomy
  import opened Extractors
  import opened Segmenter

  /** What the service reports about one publication. */
  datatype ClassificationResult = ClassificationResult(
    docType: DocType,
    processNumber: Option<string>,
    publicationDate: Option<Date>,
    sector: string,
    sectorKeyword: Option<string>,
    confidence: real)

  /** Classifies one publication against the active stored keywords, given in
      the order the repository returns them. Type and sector are decided on the
      upper-cased text; the process number and the date are read from the text
      as it is. */
  function ClassifyAndExtract(content: string, stored: seq<StoredKeyword>): (r: ClassificationResult)
    ensures r.processNumber.None? <==> forall i :: !MatchAt(content, ProcessLayout, i)
    ensures forall i :: LeftmostMatch(content, ProcessLayout, i) ==> r.processNumber == Some(content[i..i + |ProcessLayout|])
    ensures forall i :: LeftmostMatch(content, DateLayout, i) ==> r.publicationDate == ParseDateAt(content, i)
    ensures (forall i :: !MatchAt(content, DateLayout, i)) ==> r.publicationDate.None?
    ensures forall t :: TypeScore(stored, Upper(content), t) <= TypeScore(stored, Upper(content), r.docType)
    ensures r.confidence == 0.0 <==> forall t :: TypeScore(stored, Upper(content), t) == 0
    ensures r.confidence == 0.0 ==> r.docType == Outros
    ensures 0.0 <= r.confidence <= 1.0
    ensures r.confidence != 0.0 ==>
              r.confidence == TypeScore(stored, Upper(content), r.docType) as real / |MergedKeywords(stored, r.docType)| as real
    ensures r.confidence != 0.0 ==>
              forall t :: Rank(t) < Rank(r.docType) ==> TypeScore(stored, Upper(content), t) < TypeScore(stored, Upper(content), r.docType)
    ensures r.sector != ""
    ensures r.sectorKeyword.None? <==> r.sector == NotApplicable
    ensures r.sectorKeyword.Some? ==> Matched(Upper(content), r.sectorKeyword.value)
    ensures IsBestVerdict(SectorTable, Upper(content), SectorVerdict(r.sector, r.sectorKeyword))
  {
    var textUpper := Upper(content);
    var kind := ClassifyType(stored, textUpper);
    var sector := ClassifySector(textUpper);
    ClassificationResult(kind.docType, ExtractProcessNumber(content), ExtractDate(content),
                         sector.sector, sector.keyword, kind.confidence)
  }

  /** The document type alone: a type with the greatest score, the first such
      in enumeration order, and the catch-all type when no keyword is found. */
  function ClassifyDocument(content: string, stored: seq<StoredKeyword>): (t: DocType)
    ensures forall u :: TypeScore(stored, Upper(content), u) <= TypeScore(stored, Upper(content), t)
    ensures TypeScore(stored, Upper(content), t) > 0 ==>
              forall u :: Rank(u) < Rank(t) ==> TypeScore(stored, Upper(content), u) < TypeScore(stored, Upper(content), t)
    ensures (forall u :: TypeScore(stored, Upper(content), u) == 0) ==> t == Outros
  {
    ClassifyAndExtract(content, stored).docType
  }

  /** Type and sector depend on the text only up to case. */
  lemma CaseDoesNotMatter(a: string, b: string, stored: seq<StoredKeyword>)
    requires |a| == |b| && forall i :: 0 <= i < |a| ==> SameIgnoringCase(a[i], b[i])
    ensures ClassifyAndExtract(a, stored).docType == ClassifyAndExtract(b, stored).docType
    ensures ClassifyAndExtract(a, stored).confidence == ClassifyAndExtract(b, stored).confidence
    ensures ClassifyAndExtract(a, stored).sector == ClassifyAndExtract(b, stored).sector
    ensures ClassifyAndExtract(a, stored).sectorKeyword == ClassifyAndExtract(b, stored).sectorKeyword
  {
    assert Upper(a) == Upper(b) by {
      forall i | 0 <= i < |a|
        ensures Upper(a)[i] == Upper(b)[i]
      {
        assert SameIgnoringCase(a[i], b[i]);
      }
    }
  }

  /** An empty publication is unclassified: catch-all type with confidence 0,
      sector "N/A", and neither process number nor date, provided no stored
      term is empty (an empty term occurs in every text). */
  lemma EmptyTextIsUnclassified(stored: seq<StoredKeyword>)
    requires forall i :: 0 <= i < |stored| ==> stored[i].term != ""
    ensures var r := ClassifyAndExtract("", stored);
            r.docType == Outros && r.confidence == 0.0 && r.sector == NotApplicable && r.sectorKeyword.None?
            && r.processNumber.None? && r.publicationDate.None?
  {
    assert Upper("") == "";
    forall t
      ensures TypeScore(stored, "", t) == 0
    {
      DefaultKeywordsNonEmpty(t);
      forall k | k in MergedKeywords(stored, t)
        ensures !Contains("", k)
      {
        if k !in DefaultKeywords(t) {
          var i :| 0 <= i < |stored| && stored[i].docType == t && Upper(stored[i].term) == k;
          assert |k| == |stored[i].term|;
        }
      }
    }
    SectorKeywordsNonEmpty();
    forall j, m | 0 <= j < |SectorTable| && 0 <= m < |SectorTable[j].keywords|
      ensures !Matched("", SectorTable[j].keywords[m])
    {
      assert |Upper(SectorTable[j].keywords[m])| > 0;
    }
  }

  /** Splits a document into publications and classifies each, in order: the
      publications are the segments of the document, so with two or more
      markers each runs from one marker to the next, and with fewer the whole
      document is one publication. */
  method ExtractMultiplePublications(content: string, stored: seq<StoredKeyword>) returns (results: seq<ClassificationResult>)
    ensures |results| == |Segment(content)|
    ensures forall k :: 0 <= k < |results| ==> results[k] == ClassifyAndExtract(Segment(content)[k], stored)
    ensures |MarkerStarts(content, 0)| < 2 ==> results == [ClassifyAndExtract(content, stored)]
  {
    var blocks := CutPublications(content);
    results := seq(|blocks|, k requires 0 <= k < |blocks| => ClassifyAndExtract(blocks[k], stored));
  }
}
