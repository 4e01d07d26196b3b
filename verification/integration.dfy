/**
 * The producer's document read by the component: what the cards, the
 * action list, the year filter and the problem table show for a document
 * built from a spreadsheet.
 */
module Integration {
  import opened Optional
  import opened Text
  import opened Patterns
  import opened Seqs
  import opened JsValues
  import opened SafeAccess
  import opened Sheet
  import opened StatusRules
  import opened Metrics
  import opened Dashboard
  import opened ViewSelector
  import opened ReportRows

  /**
   * The component looks for `callipersByPass` and `callipersSemVazamento`,
   * which the producer never writes: whatever the spreadsheet holds, those
   * two cards read 0 and neither the no-leak nor the bypass action appears.
   */
  lemma BypassCardAlwaysZero(m: YearMetrics)
    ensures Cards(Encode(m), ComponentFields)[3] == Num(0.0) && Cards(Encode(m), ComponentFields)[4] == Num(0.0)
    ensures forall a :: a in Actions(Encode(m), ComponentFields) ==> a.SealsReplaced?
  {
    EncodeOmits(m);
  }

  /** Read under the producer's keys, the cards show the producer's distinct-turbine counts. */
  lemma CorrectedCardsShowCounts(m: YearMetrics)
    ensures Cards(Encode(m), ProducerFields)[3] == SafeNumber(Count(m.turbinasByPass))
    ensures Cards(Encode(m), ProducerFields)[4] == SafeNumber(Count(m.turbinasSemVazamento))
    ensures m.turbinasByPass > 0 ==> Cards(Encode(m), ProducerFields)[3] == Count(m.turbinasByPass)
    ensures BypassedCalipers(Count(m.turbinasByPass)) in Actions(Encode(m), ProducerFields) <==> m.turbinasByPass > 0
    ensures NoLeakCalipers(Count(m.turbinasSemVazamento)) in Actions(Encode(m), ProducerFields) <==> m.turbinasSemVazamento > 0
  {
    EncodeFields(m);
  }

  /**
   * For a year the producer computed from a spreadsheet, the corrected cards
   * show the distinct turbines of the year, of its bypassed records and of
   * its no-leak records.
   */
  lemma CorrectedCardsFromSheet(rows: seq<Record>, ano: Option<int>)
    ensures var d := YearFilter(rows, ano);
      var cards := Cards(Encode(ForYear(rows, ano)), ProducerFields);
      cards[0] == SafeNumber(Count(Turbines(d))) &&
      cards[3] == SafeNumber(Count(Turbines(Filter(d, Bypassed)))) &&
      cards[4] == SafeNumber(Count(Turbines(Filter(d, NoLeak))))
  {
    var m := ForYear(rows, ano);
    CorrectedCards(m);
  }

  /** The five corrected cards of an encoded year. */
  lemma CorrectedCards(m: YearMetrics)
    ensures var cards := Cards(Encode(m), ProducerFields);
      cards[0] == SafeNumber(Count(m.totalTurbinas)) &&
      cards[3] == SafeNumber(Count(m.turbinasByPass)) &&
      cards[4] == SafeNumber(Count(m.turbinasSemVazamento))
  {
    EncodeFields(m);
  }

  /** Choosing a year the document lacks leaves the component on its loading screen; a year it has does not. */
  lemma MissingYearLoads(all: YearMetrics, y2024: YearMetrics, y2025: YearMetrics, years: seq<int>, parks: seq<string>)
    ensures var doc := Assemble(all, y2024, y2025, years, parks);
      ShowsLoading(ChooseYear(Load(Initial, doc), "2026")) &&
      !ShowsLoading(ChooseYear(Load(Initial, doc), "2024")) &&
      !ShowsLoading(Load(Initial, doc))
  {
    AssembleShape(all, y2024, y2025, years, parks);
  }

  /** A report date cell is localised exactly when the record carried a date; otherwise the sentinel is shown as it is. */
  lemma ProblemDateCell(r: Record)
    ensures DateColumn(Str(DateText(r.ano))).Localized? <==> r.ano.Some?
    ensures r.ano.None? ==> DateColumn(Str(DateText(r.ano))) == DateCell.Shown(Str(DateMissing))
  {
    var t := DateText(r.ano);
    assert |t| > 0 by {
      if r.ano.None? {
        assert t == DateMissing;
      } else {
        assert |t| == 10;
      }
    }
    assert Truthy(Str(t));
    assert Str(t) == Str(DateNotInformed) <==> r.ano.None?;
  }

  /** A record without a status reaches the table as "Status Não Informado", which gets the pending badge. */
  lemma MissingStatusPending(r: Record)
    requires r.status == ""
    ensures StatusBadge(Str(ToProblemRow(r).status)) == PendingBadge
  {
    assert Lower(StatusMissing) == "status não informado";
    AbsentFirstChar(Lower(StatusMissing), "by-pass");
  }

  /** A red badge in the component always marks a record the producer counts as bypassed. */
  lemma RedBadgeIsBypass(p: ProblemRow, r: Record)
    requires p == ToProblemRow(r)
    requires StatusBadge(Str(p.status)) == BypassBadge
    ensures r.status != "" && IsBypass(r.status)
  {
    if r.status == "" {
      MissingStatusPending(r);
      assert false;
    }
    BadgeIff(Str(p.status));
    var i: nat :| SliceAt(Lower(p.status), "by-pass", i);
    HyphenatedIsBypass(r.status, i);
  }

  /** The converse fails: "Bypassado" is a bypass for the producer, yet gets the pending badge. */
  lemma BypassadoPendingBadge()
    ensures IsBypass("Bypassado")
    ensures StatusBadge(Str("Bypassado")) == PendingBadge
  {
    BypassExamples();
    assert Lower("Bypassado") == "bypassado";
    AbsentAtom("bypassado", Literal("by-pass"), 2);
  }

  /** Every problem item the producer writes renders, one table row per item, the placeholder when there are none. */
  lemma ProblemTableOfDocument(m: YearMetrics)
    ensures var items := SafeArray(Get(Encode(m), "maquinasProblema")).items;
      |items| == |m.maquinasProblema| && forall i :: 0 <= i < |items| ==> Renderable(items[i])
    ensures |m.maquinasProblema| == 0 ==> ProblemTable(Encode(m)) == [Placeholder]
    ensures |m.maquinasProblema| > 0 ==> |ProblemTable(Encode(m))| == |m.maquinasProblema|
    ensures forall i :: 0 <= i < |m.maquinasProblema| ==>
      ProblemTable(Encode(m))[i] == RenderRow(ProblemItem(m.maquinasProblema[i])) &&
      ProblemTable(Encode(m))[i].date == DateColumn(Str(m.maquinasProblema[i].ano))
  {
    EncodeFields(m);
  }
}
