/** The built-in sector taxonomy and the sector verdict the classifier reports:
    a sector name and the keyword that decided it, or "N/A" and no keyword. */
module SectorTaxonomy {

  import opened Options
  import opened Text
  import opened SectorClassifier

  /** The static sector table, in declaration order. */
  const SectorTable: seq<Sector> := [
      Sector("EXECUÇÃO", ["INDICAR MEIOS", "SEGUIMENTO DA EXECUÇÃO", "SEGUIMENTO DA EXECUCAO", "SOBRESTAMENTO", "EXECUÇÃO FISCAL", "EXECUCAO FISCAL", "PENHORA", "HASTA PÚBLICA", "HASTA PUBLICA", "LEILÃO", "LEILAO", "EXPROPRIAÇÃO", "EXPROPRIACAO", "SISBAJUD", "BLOQUEIO DE CREDITO", "BLOQUEIO DE CRÉDITO", "ATOS EXECUTORIOS", "ATOS EXECUTÓRIOS", "INICIADA A EXECUCAO", "INICIADA A EXECUÇÃO", "ORIENTAR A EXECUCAO", "ORIENTAR A EXECUÇÃO"]),
      Sector("ALVARÁ", ["EXPEDIDO ALVARÁ", "EXPEDIDO ALVARA", "ALVARÁ DE LEVANTAMENTO", "ALVARA DE LEVANTAMENTO", "ALVARÁ JUDICIAL", "ALVARA JUDICIAL"]),
      Sector("PERÍCIA/QUESITOS", ["AGENDAMENTO", "PERÍCIA", "PERICIA", "QUESITOS", "LAUDO PERICIAL", "PERITO", "PROVA PERICIAL", "EXAME PERICIAL"]),
      Sector("FALAR DE LAUDO", ["MANIFESTAÇÃO AO LAUDO", "MANIFESTACAO AO LAUDO", "IMPUGNAÇÃO AO LAUDO", "IMPUGNACAO AO LAUDO", "LAUDO COMPLEMENTAR", "FALAR SOBRE O LAUDO", "MANIFESTAR SOBRE LAUDO"]),
      Sector("DADOS BANCÁRIOS", ["INFORMAR DADOS BANCÁRIOS", "INFORMAR DADOS BANCARIOS", "CONTAS", "DADOS PARA TRANSFERÊNCIA", "DADOS PARA TRANSFERENCIA", "HONORÁRIOS", "HONORARIOS", "DEPÓSITO", "DEPOSITO", "PAGAMENTO"]),
      Sector("RECURSAL", ["TURMA", "ACÓRDÃO", "ACORDAO", "CONTRARRAZÕES", "CONTRARRAZOES", "CONTRAMINUTA", "EMBARGOS", "SENTENÇA", "SENTENCA", "RECURSO", "APELAÇÃO", "APELACAO", "AGRAVO", "RECURSO ORDINÁRIO", "RECURSO ORDINARIO"]),
      Sector("AUDIÊNCIA", ["AUDIÊNCIA DESIGNADA", "AUDIENCIA DESIGNADA", "AUDIÊNCIA REDESIGNADA", "AUDIENCIA REDESIGNADA", "AUDIÊNCIA CANCELADA", "AUDIENCIA CANCELADA", "DATA DA AUDIÊNCIA", "DATA DA AUDIENCIA", "HORA DA AUDIÊNCIA", "HORA DA AUDIENCIA", "PAUTA DE AUDIÊNCIA", "PAUTA DE AUDIENCIA", "FOI REDESIGNADA", "FOI DESIGNADA", "AUDIENCIA UNA", "AUDIÊNCIA UNA", "AUSENCIA DO RECLAMANTE", "AUSÊNCIA DO RECLAMANTE", "REDESIGNO AUDIENCIA", "REDESIGNO AUDIÊNCIA", "REDESIGNO A AUDIENCIA", "REDESIGNO A AUDIÊNCIA", "REDESIGNA A AUDIENCIA", "REDESIGNA A AUDIÊNCIA", "REDESIGNA-SE A AUDIENCIA", "REDESIGNA-SE A AUDIÊNCIA", "REDESIGNACAO DA AUDIENCIA", "REDESIGNAÇÃO DA AUDIÊNCIA", "AUDIENCIA DE INSTRUÇÃO", "AUDIENCIA DE INSTRUCAO", "AUDIÊNCIA DE INSTRUÇÃO", "DESIGNO AUDIENCIA", "DESIGNO AUDIÊNCIA", "INSTRUÇÃO E JULGAMENTO", "INSTRUCAO E JULGAMENTO", "TENTATIVA DE CONCILIACAO", "TENTATIVA DE CONCILIAÇÃO", "AUDIENCIA INICIAL", "AUDIÊNCIA INICIAL"]),
      Sector("CÁLCULOS", ["CONTÁBIL", "CONTABIL", "ARTIGOS DE LIQUIDAÇÃO", "ARTIGOS DE LIQUIDACAO", "PLANILHA DE CÁLCULOS", "PLANILHA DE CALCULOS", "FALAR DE CÁLCULOS", "FALAR DE CALCULOS", "APRESENTE CÁLCULOS", "APRESENTE CALCULOS", "LIQUIDAÇÃO", "LIQUIDACAO", "ATUALIZAÇÃO DE CÁLCULOS", "ATUALIZACAO DE CALCULOS"]),
      Sector("INICIAL", ["EMENDA A INICIAL", "CONEXÃO", "CONEXAO", "JUNTAR INICIAL", "PROCURAÇÃO", "PROCURACAO", "EMENDA À INICIAL", "REGULARIZAR INICIAL", "COMPLEMENTAR INICIAL"]),
      Sector("MANIFESTAÇÃO", ["REGULARIZAR POLO", "LITISPENDÊNCIA", "LITISPENDENCIA", "EXCEÇÃO DE INCOMPETÊNCIA", "EXCECAO DE INCOMPETENCIA", "PRAZO PARA MANIFESTAÇÃO", "PRAZO PARA MANIFESTACAO", "VISTA DOS AUTOS", "MANIFESTE-SE", "MANIFESTE", "FALAR SOBRE A PETICAO", "FALAR SOBRE A PETIÇÃO"]),
      Sector("DOCUMENTOS", ["APRESENTE DOCUMENTOS", "JUNTAR DOCUMENTOS", "TRAZER DOCUMENTOS", "JUNTADA DE DOCUMENTOS", "DOCUMENTOS FALTANTES"]),
      Sector("CHC", ["HABILITAÇÃO DE CRÉDITO", "HABILITACAO DE CREDITO", "CHC", "CRÉDITO HABILITADO", "CREDITO HABILITADO"]),
      Sector("IMPUGNAÇÃO", ["MANIFESTAÇÃO AOS DOCUMENTOS", "MANIFESTACAO AOS DOCUMENTOS", "IMPUGNAÇÃO", "IMPUGNACAO", "IMPUGNAR", "CONTESTAÇÃO", "CONTESTACAO"])
    ]

  /** The sentinel sector of a text in which no sector keyword is found. */
  const NotApplicable: string := "N/A"

  /** The sector verdict: a sector name and the keyword that decided it. */
  datatype SectorVerdict = SectorVerdict(sector: string, keyword: Option<string>)

  /** The verdict names sector `j` of the taxonomy and reports its keyword `m`,
      and that pair is the best evidence in the text: greatest score, then
      rightmost keyword occurrence. */
  predicate ReportsBest(table: seq<Sector>, textUpper: string, v: SectorVerdict, j: nat, m: nat)
  {
    && j < |table| && m < |table[j].keywords|
    && v.sector == table[j].name && v.keyword == Some(table[j].keywords[m])
    && BestEvidence(table, textUpper, j, m)
  }

  /** What a correct verdict over a taxonomy is: ("N/A", no keyword) exactly
      when no keyword of any sector is found; otherwise a sector of the
      taxonomy with the greatest score and that sector's found keyword with the
      rightmost occurrence, the rightmost evidence deciding between sectors
      tied on score. */
  predicate IsBestVerdict(table: seq<Sector>, textUpper: string, v: SectorVerdict)
  {
    && (v.keyword.None? <==>
          forall j, m :: 0 <= j < |table| && 0 <= m < |table[j].keywords| ==> !Matched(textUpper, table[j].keywords[m]))
    && (v.keyword.None? ==> v.sector == NotApplicable)
    && (v.keyword.Some? ==>
          exists j, m | 0 <= j < |table| && 0 <= m < |table[j].keywords| :: ReportsBest(table, textUpper, v, j, m))
  }

  /** The sector verdict over a taxonomy: the verdict `IsBestVerdict` describes. */
  function ClassifySectorIn(table: seq<Sector>, textUpper: string): (v: SectorVerdict)
    ensures IsBestVerdict(table, textUpper, v)
  {
    var c := ChooseSector(table, textUpper);
    if c.NoSector? then SectorVerdict(NotApplicable, None)
    else
      var v := SectorVerdict(table[c.sector].name, Some(table[c.sector].keywords[c.keyword]));
      ChoiceIsBestEvidence(table, textUpper);
      assert ReportsBest(table, textUpper, v, c.sector, c.keyword);
      v
  }

  /** The decision's choice is the best evidence of the text. */
  lemma ChoiceIsBestEvidence(table: seq<Sector>, textUpper: string)
    requires ChooseSector(table, textUpper).Chosen?
    ensures var c := ChooseSector(table, textUpper);
            c.sector < |table| && c.keyword < |table[c.sector].keywords| && BestEvidence(table, textUpper, c.sector, c.keyword)
  {
    var c := ChooseSector(table, textUpper);
    assert ChoicePosition(table, textUpper, c) == Position(textUpper, table[c.sector].keywords[c.keyword]);
  }

  /** The sector verdict against the built-in taxonomy: "N/A" exactly when no
      keyword is reported, and otherwise the best-evidenced sector and keyword. */
  function ClassifySector(textUpper: string): (v: SectorVerdict)
    ensures v.sector != ""
    ensures v.keyword.None? <==> v.sector == NotApplicable
    ensures v.keyword.Some? ==> Matched(textUpper, v.keyword.value)
    ensures IsBestVerdict(SectorTable, textUpper, v)
  {
    SectorNamesAreProper();
    ProperNamesGiveProperVerdict(SectorTable, textUpper);
    ClassifySectorIn(SectorTable, textUpper)
  }

  /** Over a taxonomy whose names are neither empty nor the sentinel, the
      verdict names a sector exactly when it reports a keyword. */
  lemma ProperNamesGiveProperVerdict(table: seq<Sector>, textUpper: string)
    requires forall j :: 0 <= j < |table| ==> table[j].name != "" && table[j].name != NotApplicable
    ensures ClassifySectorIn(table, textUpper).sector != ""
    ensures ClassifySectorIn(table, textUpper).keyword.None? <==> ClassifySectorIn(table, textUpper).sector == NotApplicable
  {
  }

  /** No sector of the taxonomy is nameless or named like the sentinel. */
  lemma SectorNamesAreProper()
    ensures forall j :: 0 <= j < |SectorTable| ==> SectorTable[j].name != "" && SectorTable[j].name != NotApplicable
  {
  }

  /** No keyword of the taxonomy is empty. */
  lemma SectorKeywordsNonEmpty()
    ensures forall j, m :: 0 <= j < |SectorTable| && 0 <= m < |SectorTable[j].keywords| ==> SectorTable[j].keywords[m] != ""
  {
  }

  /** Two sectors tied on the greatest score: when every found keyword of the
      first lies before some found keyword of the second, the first is not
      chosen. */
  lemma RightmostEvidenceWins(table: seq<Sector>, textUpper: string, a: nat, b: nat, mb: nat)
    requires a < |table| && b < |table| && mb < |table[b].keywords|
    requires Matched(textUpper, table[b].keywords[mb])
    requires SectorScore(textUpper, table[a]) == SectorScore(textUpper, table[b])
    requires forall j :: 0 <= j < |table| ==> SectorScore(textUpper, table[j]) <= SectorScore(textUpper, table[b])
    requires forall m :: 0 <= m < |table[a].keywords| && Matched(textUpper, table[a].keywords[m]) ==>
               Position(textUpper, table[a].keywords[m]) < Position(textUpper, table[b].keywords[mb])
    ensures ChooseSector(table, textUpper).Chosen?
    ensures ChooseSector(table, textUpper).sector != a
  {
    var c := ChooseSector(table, textUpper);
    assert c.Chosen?;
    assert SectorScore(textUpper, table[b]) <= SectorScore(textUpper, table[c.sector]);
    assert Position(textUpper, table[b].keywords[mb]) <= ChoicePosition(table, textUpper, c);
  }
}
