/** The keyword catalog: the closed enumeration of document types, the built-in
    default keywords per type, and the merge of those defaults with the active
    operator-supplied terms. */
module Catalog {

  import opened Text

  /** The document types, in enumeration declaration order. */
  datatype DocType =
    | Execucao
    | Alvara
    | PericiaQuesitos
    | Audiencia
    | Sentenca
    | Despacho
    | Citacao
    | Intimacao
    | Recurso
    | Outros

  /** The values of the enumeration in increasing numeric order, which is
      declaration order when no explicit values are assigned; the merge loop and
      the score dictionary are both filled in this order. */
  const DocTypes: seq<DocType> :=
    [Execucao, Alvara, PericiaQuesitos, Audiencia, Sentenca, Despacho, Citacao, Intimacao, Recurso, Outros]

  /** Position of a type in the enumeration order above. */
  function Rank(t: DocType): nat
  {
    match t
    case Execucao => 0
    case Alvara => 1
    case PericiaQuesitos => 2
    case Audiencia => 3
    case Sentenca => 4
    case Despacho => 5
    case Citacao => 6
    case Intimacao => 7
    case Recurso => 8
    case Outros => 9
  }

  /** `Rank` is the position of a type in the enumeration. */
  lemma RankIndexesDocTypes(t: DocType)
    ensures Rank(t) < |DocTypes| && DocTypes[Rank(t)] == t
  {
  }

  /** Every type occurs exactly once in the enumeration. */
  lemma DocTypesEnumerateEachOnce(i: nat)
    requires i < |DocTypes|
    ensures Rank(DocTypes[i]) == i
  {
  }

  /** Built-in keywords per document type; `Outros` has none. */
  function DefaultKeywords(t: DocType): seq<string>
  {
    match t
    case Execucao => ["INDICAR MEIOS", "SEGUIMENTO DA EXECUÇÃO", "ENDEREÇO", "SOBRESTAMENTO", "EXECUÇÃO FISCAL", "PENHORA"]
    case Alvara => ["EXPEDIDO ALVARÁ", "ALVARÁ DE LEVANTAMENTO", "ALVARÁ JUDICIAL"]
    case PericiaQuesitos => ["AGENDAMENTO", "PERÍCIA", "QUESITOS", "LAUDO PERICIAL", "PERITO"]
    case Audiencia => ["AUDIÊNCIA", "DESIGNADA AUDIÊNCIA", "PAUTA DE AUDIÊNCIA", "AUDIÊNCIA DE INSTRUÇÃO"]
    case Sentenca => ["SENTENÇA", "JULGO PROCEDENTE", "JULGO IMPROCEDENTE", "DISPOSITIVO"]
    case Despacho => ["DESPACHO", "DETERMINO", "INTIME-SE", "CITE-SE"]
    case Citacao => ["CITAÇÃO", "CITADO", "MANDADO DE CITAÇÃO"]
    case Intimacao => ["INTIMAÇÃO", "INTIMADO", "INTIMAR"]
    case Recurso => ["RECURSO", "APELAÇÃO", "AGRAVO", "EMBARGOS"]
    case Outros => []
  }

  /** No built-in keyword is empty. */
  lemma DefaultKeywordsNonEmpty(t: DocType)
    ensures forall k :: k in DefaultKeywords(t) ==> k != ""
  {
  }

  /** An active operator-supplied keyword, as the keyword store returns it. */
  datatype StoredKeyword = StoredKeyword(term: string, docType: DocType)

  /** The stored terms of one type, upper-cased, in store order: the group the
      `GroupBy(TipoDocumento)` builds for that type (empty when the type has none). */
  function StoredTerms(stored: seq<StoredKeyword>, t: DocType): (terms: seq<string>)
    ensures |terms| <= |stored|
    ensures forall x :: x in terms <==> exists i :: 0 <= i < |stored| && stored[i].docType == t && Upper(stored[i].term) == x
  {
    if |stored| == 0 then []
    else
      var rest := StoredTerms(stored[1..], t);
      assert forall i :: 1 <= i < |stored| ==> stored[i] == stored[1..][i - 1];
      if stored[0].docType == t then [Upper(stored[0].term)] + rest else rest
  }

  predicate NoDuplicates<T(==)>(xs: seq<T>)
  {
    forall i, j :: 0 <= i < j < |xs| ==> xs[i] != xs[j]
  }

  /** `Enumerable.Distinct`: keeps one copy of each element. Which copy and in
      what order does not reach any output, so the contract states the
      elements only. */
  function Distinct(xs: seq<string>): (r: seq<string>)
    ensures NoDuplicates(r)
    ensures forall x :: x in r <==> x in xs
    ensures |r| <= |xs|
  {
    if |xs| == 0 then []
    else
      var prefix := Distinct(xs[..|xs| - 1]);
      assert forall x :: x in xs <==> x in xs[..|xs| - 1] || x == xs[|xs| - 1];
      if xs[|xs| - 1] in prefix then prefix else prefix + [xs[|xs| - 1]]
  }

  /** A duplicate-free sequence has as many elements as its set of elements. */
  lemma {:induction false} NoDuplicatesCardinality(xs: seq<string>)
    requires NoDuplicates(xs)
    ensures |set x | x in xs| == |xs|
  {
    if |xs| > 0 {
      var init := xs[..|xs| - 1];
      assert NoDuplicates(init);
      NoDuplicatesCardinality(init);
      var last := xs[|xs| - 1];
      assert last !in init;
      assert (set x | x in xs) == (set x | x in init) + {last};
    }
  }

  /** `Distinct` keeps exactly one entry per distinct element. */
  lemma DistinctLength(xs: seq<string>)
    ensures |Distinct(xs)| == |set x | x in xs|
  {
    var r := Distinct(xs);
    NoDuplicatesCardinality(r);
    assert (set x | x in r) == (set x | x in xs);
  }

  /** `Distinct` leaves a duplicate-free sequence unchanged, so it is idempotent. */
  lemma {:induction false} DistinctOfNoDuplicates(xs: seq<string>)
    requires NoDuplicates(xs)
    ensures Distinct(xs) == xs
  {
    if |xs| > 0 {
      var init := xs[..|xs| - 1];
      assert NoDuplicates(init);
      DistinctOfNoDuplicates(init);
      assert xs[|xs| - 1] !in init;
      assert init + [xs[|xs| - 1]] == xs;
    }
  }

  /** The keyword list a type is scored against: its upper-cased stored terms
      followed by its defaults, with duplicates removed. */
  function MergedKeywords(stored: seq<StoredKeyword>, t: DocType): (r: seq<string>)
    ensures NoDuplicates(r)
    ensures forall x :: x in r <==> x in StoredTerms(stored, t) || x in DefaultKeywords(t)
    ensures |r| <= |StoredTerms(stored, t)| + |DefaultKeywords(t)|
  {
    Distinct(StoredTerms(stored, t) + DefaultKeywords(t))
  }

  /** The defaults of each type are pairwise distinct. */
  lemma DefaultKeywordsDistinct(t: DocType)
    ensures NoDuplicates(DefaultKeywords(t))
  {
    match t
    case Execucao =>
    case Alvara =>
    case PericiaQuesitos =>
    case Audiencia =>
    case Sentenca =>
    case Despacho =>
    case Citacao =>
    case Intimacao =>
    case Recurso =>
    case Outros =>
  }

  /** With no stored terms a type is scored against exactly its defaults. */
  lemma MergedWithoutStoredIsDefaults(t: DocType)
    ensures MergedKeywords([], t) == DefaultKeywords(t)
  {
    var d := DefaultKeywords(t);
    assert [] + d == d;
    DefaultKeywordsDistinct(t);
    DistinctOfNoDuplicates(d);
  }

  /** The merged keyword list of every type, indexed by enumeration position:
      the `allKeywords` dictionary the classifier builds before scoring. */
  function AllKeywords(stored: seq<StoredKeyword>): (table: seq<seq<string>>)
    ensures |table| == |DocTypes|
    ensures forall t :: table[Rank(t)] == MergedKeywords(stored, t)
  {
    var table := seq(|DocTypes|, i requires 0 <= i < |DocTypes| => MergedKeywords(stored, DocTypes[i]));
    assert forall t :: table[Rank(t)] == MergedKeywords(stored, t) by {
      forall t ensures table[Rank(t)] == MergedKeywords(stored, t) {
        RankIndexesDocTypes(t);
      }
    }
    table
  }
}
