# Classification and segmentation of legal publications

This project models the decision logic of the `ClassificationService` of the
JuridicoAnalise back end, written in Dafny. The service takes the text extracted
from an uploaded court journal and does four things:

- It splits the text into publications. Every case-insensitive
  `Publicação: i de n` marker starts one publication. With fewer than two
  markers the whole text is a single publication.
- It classifies each publication's document type. Every type has a list of
  upper-case keywords: the operator's active stored terms for that type,
  upper-cased, followed by the built-in ones, with duplicates removed. A
  type's score is how many of its keywords occur in the upper-cased text. The
  type with the greatest score wins; on a tie the first type in enumeration
  order wins. When nothing matches, the result is `Outros` with confidence 0.
  Otherwise the confidence is the winning score divided by the length of the
  winner's keyword list.
- It assigns a sector from a fixed taxonomy of 13 sectors. A sector's score
  is the number of its keywords found in the text. The greatest score wins. A
  tie goes to the sector whose rightmost found keyword lies furthest right.
  The reported keyword is the winning sector's rightmost found keyword. When
  no keyword is found, the sector is `"N/A"` and there is no keyword.
- It extracts the first CNJ process number (`\b\d{7}-\d{2}\.\d{4}\.\d\.\d{2}\.\d{4}\b`)
  and the first `\b\d{2}/\d{2}/\d{4}\b` date. The date is kept only when it
  names a real calendar day read as dd/MM/yyyy.

Modules, in dependency order:

- `Options`: the optional value.
- `Text`: invariant upper-casing, and ordinal substring search (`Contains`,
  `LastIndexOf`, counting).
- `Argmax`: maximum, and the first index holding it.
- `Catalog`: the document types in enumeration order, the built-in keywords,
  stored keywords, and the merge with `Distinct`.
- `TypeClassifier`: type scores and the type verdict.
- `SectorClassifier`: sector scores, rightmost positions, and the tie-break
  over any sector table.
- `SectorTaxonomy`: the built-in sector table, and the verdict with its
  `"N/A"` sentinel.
- `Extractors`: the two fixed-layout patterns with `\b`, and date parsing.
- `Segmenter`: the marker pattern, the `Regex.Matches` scan, and the cut into
  blocks.
- `Classification`: classifying one publication, and a whole document.

Every operation is a pure function of its inputs. The active stored keywords
are a parameter, in the order the keyword repository returns them.

Several .NET behaviours are modelled explicitly:

- `Dictionary` enumerates in insertion order.
- `OrderByDescending(...).First()` is stable: among equal keys, the first
  element wins.
- `Distinct` keeps the first occurrence.
- `Regex.Matches` scans left to right and resumes at the end of each match.
- `ToUpperInvariant` maps Latin-1 letters to their capitals.

Two consequences of the merge and scoring code
(`ClassificationService.cs`, lines 106-130) that the model keeps:

- The merge loop walks every enumeration value, `Outros` included, so stored
  terms kept for `Outros` take part in scoring like any other type's terms,
  and `Outros` can win with a positive score.
- A stored term that is the empty string occurs in every text
  (`Contains("")` is true), so even an empty publication then receives a
  type. `EmptyTextIsUnclassified` states that an empty text gives `Outros`,
  confidence 0 and `N/A` when no stored term is empty.

## Model

Source paths are relative to the repository root.

| member | source | states |
|---|---|---|
| Text.UpperChar | src/JuridicoAnalise.Infrastructure/Services/ClassificationService.cs:89 | the invariant upper-case image of one character: a-z and the Latin-1 small letters map to their capitals (ÿ to Ÿ, µ to Μ), everything else to itself |
| Text.Upper | src/JuridicoAnalise.Infrastructure/Services/ClassificationService.cs:89 | upper-casing keeps the text's length, so offsets in the upper-cased text are offsets in the original |
| Text.UpperIdempotent | src/JuridicoAnalise.Infrastructure/Services/ClassificationService.cs:165-166 | upper-casing an upper-cased text changes nothing, so upper-casing the already upper-case sector keywords before searching `contentUpper` leaves them as written |
| Text.Contains | src/JuridicoAnalise.Infrastructure/Services/ClassificationService.cs:125 | ordinal `Contains`: the keyword occurs at some offset of the text at which it fits whole |
| Text.SameIgnoringCase | src/JuridicoAnalise.Infrastructure/Services/ClassificationService.cs:47-49 | two characters are equal ignoring case when their invariant upper-case images are equal |
| Text.CountContained | src/JuridicoAnalise.Infrastructure/Services/ClassificationService.cs:125 | the count is 0 exactly when no keyword occurs, and equals the list length exactly when every keyword occurs |
| Text.LastIndexOf | src/JuridicoAnalise.Infrastructure/Services/ClassificationService.cs:166-168 | the result is -1 exactly when the keyword does not occur; otherwise the keyword occurs there and at no later offset |
| Argmax.Max | src/JuridicoAnalise.Infrastructure/Services/ClassificationService.cs:134 | the result is an element of the list and no element exceeds it |
| Argmax.FirstMaxIndex | src/JuridicoAnalise.Infrastructure/Services/ClassificationService.cs:196 | the index holds a maximum and every earlier element is strictly smaller, as a stable descending sort followed by taking the first gives |
| Argmax.FirstMaxIsFirstOfMax | src/JuridicoAnalise.Infrastructure/Services/ClassificationService.cs:134-135 | the first index holding a maximum is the first index whose value equals the maximum |
| Catalog.RankIndexesDocTypes | src/JuridicoAnalise.Infrastructure/Services/ClassificationService.cs:114 | every document type occurs in the enumeration, at its rank |
| Catalog.DocTypesEnumerateEachOnce | src/JuridicoAnalise.Infrastructure/Services/ClassificationService.cs:114 | the enumeration lists each type once: the type at position i has rank i |
| Catalog.DefaultKeywords | src/JuridicoAnalise.Infrastructure/Services/ClassificationService.cs:15-26 | the built-in keywords of each document type, in the listed order; `Outros` has none |
| Catalog.StoredTerms | src/JuridicoAnalise.Infrastructure/Services/ClassificationService.cs:105-111 | a term is among a type's stored terms exactly when some stored keyword of that type upper-cases to it |
| Catalog.Distinct | src/JuridicoAnalise.Infrastructure/Services/ClassificationService.cs:118 | the result has no duplicates, has exactly the input's elements, and is no longer than the input |
| Catalog.DistinctLength | src/JuridicoAnalise.Infrastructure/Services/ClassificationService.cs:118 | the result's length is the number of different elements of the input |
| Catalog.DistinctOfNoDuplicates | src/JuridicoAnalise.Infrastructure/Services/ClassificationService.cs:118 | removing duplicates from a list without any leaves it unchanged |
| Catalog.MergedKeywords | src/JuridicoAnalise.Infrastructure/Services/ClassificationService.cs:105-119 | a type's merged list has no duplicates and holds exactly the type's upper-cased stored terms and its built-in keywords |
| Catalog.DefaultKeywordsDistinct | src/JuridicoAnalise.Infrastructure/Services/ClassificationService.cs:15-27 | no built-in keyword list repeats a keyword |
| Catalog.DefaultKeywordsNonEmpty | src/JuridicoAnalise.Infrastructure/Services/ClassificationService.cs:15-27 | no built-in keyword is the empty string |
| Catalog.MergedWithoutStoredIsDefaults | src/JuridicoAnalise.Infrastructure/Services/ClassificationService.cs:114-119 | with no stored keywords, a type's merged list is exactly its built-in list, in order |
| Catalog.AllKeywords | src/JuridicoAnalise.Infrastructure/Services/ClassificationService.cs:113-119 | the table has one entry per document type, in enumeration order, and each is that type's merged list |
| TypeClassifier.TypeScore | src/JuridicoAnalise.Infrastructure/Services/ClassificationService.cs:125 | a type's score is the number of entries of its merged keyword list that occur in the upper-cased text |
| TypeClassifier.TypeScoreIsDistinctMatchCount | src/JuridicoAnalise.Infrastructure/Services/ClassificationService.cs:118-126 | a type's score is the number of different keywords, stored or built in, that occur in the text |
| TypeClassifier.PositiveScores | src/JuridicoAnalise.Infrastructure/Services/ClassificationService.cs:122-130 | the recorded scores are exactly the positive ones, each stored under its type, in enumeration order |
| TypeClassifier.PositiveScoresComplete | src/JuridicoAnalise.Infrastructure/Services/ClassificationService.cs:126-130 | every type with a positive score is recorded |
| TypeClassifier.BestIndex | src/JuridicoAnalise.Infrastructure/Services/ClassificationService.cs:132-135 | there is no winner exactly when every score is 0; otherwise the winner has the greatest score and every earlier type scores strictly less |
| TypeClassifier.ClassifyType | src/JuridicoAnalise.Infrastructure/Services/ClassificationService.cs:121-143 | the verdict has the greatest score and beats every earlier type strictly; its confidence is 0 exactly when no keyword matches, in which case the type is `Outros`; otherwise the confidence is score over list length, in (0, 1] |
| TypeClassifier.NoMatchFallsBackToOutros | src/JuridicoAnalise.Infrastructure/Services/ClassificationService.cs:132-143 | when no merged keyword occurs, the verdict is `Outros` with confidence 0 |
| TypeClassifier.SingleKeywordDecides | src/JuridicoAnalise.Infrastructure/Services/ClassificationService.cs:132-137 | when one type scores 1 and every other type 0, that type wins with confidence 1 over its list length |
| SectorClassifier.Matched | src/JuridicoAnalise.Infrastructure/Services/ClassificationService.cs:165-168 | a keyword counts as found when its upper-case form occurs in the upper-cased text |
| SectorClassifier.Position | src/JuridicoAnalise.Infrastructure/Services/ClassificationService.cs:165-166 | the offset of the keyword's rightmost occurrence: -1 exactly when it is not found, otherwise an offset at which the whole keyword fits in the text |
| SectorClassifier.HitsFrom | src/JuridicoAnalise.Infrastructure/Services/ClassificationService.cs:163-176 | each recorded hit is a found keyword at its rightmost offset, in keyword order |
| SectorClassifier.HitsFromComplete | src/JuridicoAnalise.Infrastructure/Services/ClassificationService.cs:163-176 | every found keyword is recorded |
| SectorClassifier.HitsFromCount | src/JuridicoAnalise.Infrastructure/Services/ClassificationService.cs:178-180 | the number of hits, which is the sector's score, is the number of keywords found |
| SectorClassifier.SectorScore | src/JuridicoAnalise.Infrastructure/Services/ClassificationService.cs:178-180 | a sector's score is the number of its keywords found in the text |
| SectorClassifier.InfoOf | src/JuridicoAnalise.Infrastructure/Services/ClassificationService.cs:158-181 | the record kept for a sector: its hits, their number as its score, and their running maximum offset as its last position |
| SectorClassifier.BestEvidence | src/JuridicoAnalise.Infrastructure/Services/ClassificationService.cs:184-206 | a sector and keyword are the best evidence when the keyword is found, no sector scores more, no found keyword of a tied sector lies further right, and earlier tied sectors and earlier keywords of the same sector lie strictly left |
| SectorClassifier.LastPosition | src/JuridicoAnalise.Infrastructure/Services/ClassificationService.cs:161-174 | the last position is -1 without hits, and otherwise the greatest hit offset, held by some hit |
| SectorClassifier.Recorded | src/JuridicoAnalise.Infrastructure/Services/ClassificationService.cs:178-181 | the recorded sectors are exactly those with a positive score, in table order |
| SectorClassifier.RecordedIffSomeMatch | src/JuridicoAnalise.Infrastructure/Services/ClassificationService.cs:178-211 | nothing is recorded exactly when no keyword of any sector is found |
| SectorClassifier.WithScore | src/JuridicoAnalise.Infrastructure/Services/ClassificationService.cs:187 | the tied sectors are exactly the recorded sectors with the greatest score, in order |
| SectorClassifier.BestKeyword | src/JuridicoAnalise.Infrastructure/Services/ClassificationService.cs:196-204 | the reported keyword is found at the sector's last position, and every earlier found keyword lies strictly to its left |
| SectorClassifier.ChooseSector | src/JuridicoAnalise.Infrastructure/Services/ClassificationService.cs:184-211 | no sector exactly when nothing is found; otherwise the chosen sector has the greatest score, its keyword is found, no keyword of a tied sector lies to its right, and ties on position go to the earlier sector and the earlier keyword |
| SectorClassifier.ChosenIsBest | src/JuridicoAnalise.Infrastructure/Services/ClassificationService.cs:186-206 | the entry chosen among the tied sectors has the greatest score and the rightmost evidence, and beats earlier tied sectors strictly |
| SectorTaxonomy.SectorTable | src/JuridicoAnalise.Infrastructure/Services/ClassificationService.cs:29-44 | the 13 sectors with their keywords, in the order listed, which is the order ties between sectors are broken in |
| SectorTaxonomy.ClassifySectorIn | src/JuridicoAnalise.Infrastructure/Services/ClassificationService.cs:153-212 | the verdict is `IsBestVerdict`: "N/A" without a keyword exactly when no keyword of the table is found; otherwise the name of a sector with the greatest score and its found keyword with the rightmost occurrence, no tied sector having a found keyword further right, and ties on that position going to the earlier sector and the earlier keyword |
| SectorTaxonomy.ChoiceIsBestEvidence | src/JuridicoAnalise.Infrastructure/Services/ClassificationService.cs:184-206 | the index-level decision, read back as a sector and keyword, satisfies `BestEvidence`: greatest score, then rightmost evidence |
| SectorTaxonomy.ClassifySector | src/JuridicoAnalise.Infrastructure/Services/ClassificationService.cs:153-212 | over the built-in taxonomy the sector is never empty, it is "N/A" exactly when there is no keyword, a reported keyword is found in the text, and the verdict is the best-evidenced sector and keyword of `IsBestVerdict` |
| SectorTaxonomy.SectorNamesAreProper | src/JuridicoAnalise.Infrastructure/Services/ClassificationService.cs:29-43 | no built-in sector is nameless or named "N/A" |
| SectorTaxonomy.SectorKeywordsNonEmpty | src/JuridicoAnalise.Infrastructure/Services/ClassificationService.cs:29-43 | no built-in sector keyword is empty |
| SectorTaxonomy.RightmostEvidenceWins | src/JuridicoAnalise.Infrastructure/Services/ClassificationService.cs:199-206 | of two sectors tied on the greatest score, the one whose found keywords all lie left of a found keyword of the other is not chosen |
| Extractors.IsDigit | src/JuridicoAnalise.Infrastructure/Services/ClassificationService.cs:52-58 | `\d` is read as the ASCII digits 0 to 9 |
| Extractors.IsWordChar | src/JuridicoAnalise.Infrastructure/Services/ClassificationService.cs:52-58 | the word characters `\b` looks at: Latin letters of the blocks listed under Left out, ASCII digits, every connector punctuation character (`_`, U+203F, U+2040 and the rest of category Pc), combining diacritics and the two zero-width joiners |
| Extractors.IsConnector | src/JuridicoAnalise.Infrastructure/Services/ClassificationService.cs:52-58 | the ten connector punctuation characters of Unicode, which `\w` counts as word characters |
| Extractors.WordBoundary | src/JuridicoAnalise.Infrastructure/Services/ClassificationService.cs:52-58 | `\b` holds at an offset exactly when one of the two neighbouring characters is a word character, a text edge counting as a non-word character |
| Extractors.MatchAt | src/JuridicoAnalise.Infrastructure/Services/ClassificationService.cs:52-58 | a pattern matches at an offset when the characters there spell its digit layout and `\b` holds on both sides |
| Extractors.FirstMatchFrom | src/JuridicoAnalise.Infrastructure/Services/ClassificationService.cs:92-99 | the result is the leftmost match at or after the start offset, or nothing when there is none |
| Extractors.DigitEdgedMatch | src/JuridicoAnalise.Infrastructure/Services/ClassificationService.cs:52-58 | for patterns that begin and end with a digit, `\b` on both sides means a non-word character or a text edge on both sides |
| Extractors.ExtractProcessNumber | src/JuridicoAnalise.Infrastructure/Services/ClassificationService.cs:91-96 | nothing exactly when the pattern matches nowhere; otherwise the text of the leftmost match |
| Extractors.ProcessNumberRoundTrip | src/JuridicoAnalise.Infrastructure/Services/ClassificationService.cs:52-54 | a text that is exactly a well-formed process number yields that process number |
| Extractors.ProcessNumberInContext | src/JuridicoAnalise.Infrastructure/Services/ClassificationService.cs:52-54 | a process number between non-word characters is extracted as written, unless an earlier one is |
| Extractors.SampleProcessNumber | src/JuridicoAnalise.Infrastructure/Services/ClassificationService.cs:52-54 | `1234567-89.2024.1.02.0003` on its own yields itself |
| Extractors.SampleLabelledProcessNumber | src/JuridicoAnalise.Infrastructure/Services/ClassificationService.cs:91-96 | the same number after `Processo: ` and before a full stop yields the number alone |
| Extractors.ParseDateAt | src/JuridicoAnalise.Infrastructure/Services/ClassificationService.cs:100 | a date exactly when the day, month and year fields name a day of the Gregorian calendar, and then that day; formatting the parsed date as dd/MM/yyyy gives back the very window it was read from, so parsing and formatting are inverse on valid windows |
| Extractors.FieldsFormatBack | src/JuridicoAnalise.Infrastructure/Services/ClassificationService.cs:56-58 | the fields read from a window that names a calendar day, formatted as dd/MM/yyyy, are that window character for character |
| Extractors.ValidDate | src/JuridicoAnalise.Infrastructure/Services/ClassificationService.cs:100 | the calendar check of date parsing: a year from 1 to 9999, a month from 1 to 12, and a day from 1 to that month's length, February having 29 days in Gregorian leap years |
| Extractors.ExtractDate | src/JuridicoAnalise.Infrastructure/Services/ClassificationService.cs:98-103 | nothing without a match; otherwise the leftmost match parsed, so a later match is never used; a date returned is a valid calendar day |
| Extractors.FormatDate | src/JuridicoAnalise.Infrastructure/Services/ClassificationService.cs:56-58 | a formatted date has the dd/dd/dddd layout |
| Extractors.ParseFormatRoundTrip | src/JuridicoAnalise.Infrastructure/Services/ClassificationService.cs:100 | parsing a formatted valid date gives the date back |
| Extractors.DateRoundTrip | src/JuridicoAnalise.Infrastructure/Services/ClassificationService.cs:98-103 | a text that is exactly a formatted valid date yields that date |
| Extractors.ImpossibleDateIsAbsent | src/JuridicoAnalise.Infrastructure/Services/ClassificationService.cs:98-103 | `31/02/2024` is matched and then rejected, so no date is reported |
| Segmenter.IsSpace | src/JuridicoAnalise.Infrastructure/Services/ClassificationService.cs:47-49 | `\s` is tab, line feed, vertical tab, form feed, carriage return, next line and the Unicode space separators |
| Segmenter.MarkerAt | src/JuridicoAnalise.Infrastructure/Services/ClassificationService.cs:47-49 | a marker starts at an offset when the marker pattern matches there |
| Segmenter.MarkerEnd | src/JuridicoAnalise.Infrastructure/Services/ClassificationService.cs:47-49 | a marker found at an offset begins with the marker word, ignoring case, and ends after it within the text |
| Segmenter.NoMarkerInside | src/JuridicoAnalise.Infrastructure/Services/ClassificationService.cs:47-49 | no marker starts strictly inside another marker |
| Segmenter.ScanMarkers | src/JuridicoAnalise.Infrastructure/Services/ClassificationService.cs:222 | the offsets of the left-to-right scan that resumes after each match lie in the text and strictly increase |
| Segmenter.ScanFindsAllMarkers | src/JuridicoAnalise.Infrastructure/Services/ClassificationService.cs:222-228 | the offsets of the left-to-right non-overlapping scan are exactly the offsets where a marker starts |
| Segmenter.Segment | src/JuridicoAnalise.Infrastructure/Services/ClassificationService.cs:226-246 | there is at least one block; with two or more markers there is one block per marker, and otherwise the single block is the whole text |
| Segmenter.SegmentBlockSpan | src/JuridicoAnalise.Infrastructure/Services/ClassificationService.cs:230-235 | block k runs from marker k up to marker k + 1, and the last block to the end of the text |
| Segmenter.SegmentConcat | src/JuridicoAnalise.Infrastructure/Services/ClassificationService.cs:230-235 | the blocks put together give back the text from the first marker on |
| Segmenter.SegmentBlocksBeginWithMarker | src/JuridicoAnalise.Infrastructure/Services/ClassificationService.cs:222-235 | every block begins with a marker |
| Segmenter.MarkerInSlice | src/JuridicoAnalise.Infrastructure/Services/ClassificationService.cs:235 | a marker is found again, with the same extent, in any piece of the text that starts where it starts and does not cut it short |
| Segmenter.CutAt | src/JuridicoAnalise.Infrastructure/Services/ClassificationService.cs:230-237 | the loop cuts the blocks between consecutive offsets, as `Blocks` defines them |
| Segmenter.CutPublications | src/JuridicoAnalise.Infrastructure/Services/ClassificationService.cs:222-246 | the scan-and-cut procedure computes `Segment` |
| Classification.ClassifyAndExtract | src/JuridicoAnalise.Infrastructure/Services/ClassificationService.cs:86-151 | the result carries the leftmost process number and leftmost parsed date of the original text; a type of greatest score that beats every earlier type strictly, with confidence its score over the length of its merged keyword list, or `Outros` with confidence 0 exactly when no type keyword matches; and the sector verdict of the upper-cased text, which is the greatest-score, rightmost-evidence sector and keyword of `IsBestVerdict`, never empty, and "N/A" exactly when there is no keyword |
| Classification.ClassifyDocument | src/JuridicoAnalise.Infrastructure/Services/ClassificationService.cs:74-78 | the type alone: a type of greatest score that, when positive, beats every earlier type in enumeration order strictly; `Outros` when nothing matches |
| Classification.CaseDoesNotMatter | src/JuridicoAnalise.Infrastructure/Services/ClassificationService.cs:89-166 | texts equal up to case get the same type, confidence, sector and sector keyword |
| Classification.EmptyTextIsUnclassified | src/JuridicoAnalise.Infrastructure/Services/ClassificationService.cs:86-151 | an empty publication gets `Outros`, confidence 0, "N/A", no keyword, no process number and no date, when no stored term is empty |
| Classification.ExtractMultiplePublications | src/JuridicoAnalise.Infrastructure/Services/ClassificationService.cs:214-247 | one result per segment, in order, each the classification of its segment; with fewer than two markers, the single classification of the whole text |

## Left out

- Reading the active keywords from the database (`GetAllAsync`) inside
  `ClassifyDocumentAsync`, `ClassifyAndExtractAsync` and
  `ExtractMultiplePublicationsAsync`, and their asynchrony. The keyword list
  is a parameter instead. The repository's filter on active
  keywords and its order by type and term are the caller's responsibility.
- Logging: it has no effect on results.
- `SplitByKeywords` and the `PublicationMarkers` list: this private method is
  never called, and segmentation uses only the publication marker.
- The `TipoDocumento` enumeration file is not part of this model.
  `Enum.GetValues` returns the values in increasing numeric order, which is
  declaration order when no explicit values are assigned. The model assumes
  that order is Execucao, Alvara, PericiaQuesitos, Audiencia, Sentenca,
  Despacho, Citacao, Intimacao, Recurso, Outros. This is the order of the
  built-in keyword table with the catch-all last, and it decides type ties.
- Text.Upper: `ToUpperInvariant` is modelled exactly on Latin-1 (including
  ÿ to Ÿ and µ to Μ). Every other character is left unchanged, because a full
  Unicode case table is outside the model.
- Text.LastIndexOf: `string.LastIndexOf(string)` compares with the current
  culture. The model compares ordinally, because culture-specific collation
  (ignorable characters, contractions) is outside the model.
- Extractors.IsWordChar: `\b` uses .NET's word-character class (letters,
  non-spacing marks, decimal digits, connector punctuation and the two
  zero-width joiners). The model has all connector punctuation and the
  joiners, but letters only from ASCII, Latin-1 and Latin Extended-A/B,
  non-spacing marks only from the combining diacritics block, and ASCII
  digits only. Letters, marks and digits outside these blocks (other
  scripts, but also Latin Extended Additional and IPA Extensions) count as
  non-word characters, because a full Unicode category table is outside the
  model.
- Extractors.IsDigit: `\d` also matches non-ASCII decimal digits in .NET.
  The model accepts ASCII digits only.
- Extractors.ParseDateAt: `DateTime.TryParse` depends on the current culture.
  The model reads the match as dd/MM/yyyy, as the Brazilian culture does, and
  keeps only years 1 to 9999. No time of day is attached.
- Text.SameIgnoringCase: `RegexOptions.IgnoreCase` compares with the
  culture's case folding. The model compares invariant upper-case forms.
- TypeClassifier.ClassifyType: the confidence is a `double` in .NET. The
  model uses an exact rational, so rounding is not modelled.
