/**
 * The per-year figures the producer computes from the filled-in records:
 * the year selection, the real-substitution and problem-machine selections,
 * the distinct-turbine counts, the group counts, the seal/pad tallies with
 * their percentages, and the problem-machine report rows.
 */
module Metrics {
  import opened Optional
  import opened Seqs
  import opened Grouping
  import opened Sheet
  import opened StatusRules

  // ----- selections -----

  predicate InYear(y: int, r: Record) {
    r.ano.Some? && r.ano.value.year == y
  }

  function YearIs(y: int): Record -> bool {
    r => InYear(y, r)
  }

  /** The records of one year; without a year (or with the falsy year 0) every record. */
  function YearFilter(rows: seq<Record>, ano: Option<int>): (r: seq<Record>)
    ensures |r| <= |rows|
    ensures ano.None? || ano == Some(0) ==> r == rows
    ensures ano.Some? && ano.value != 0 ==> r == Filter(rows, YearIs(ano.value))
    ensures ano.Some? && ano.value != 0 ==> forall x :: x in r <==> x in rows && InYear(ano.value, x)
  {
    if ano.Some? && ano.value != 0 then Filter(rows, YearIs(ano.value)) else rows
  }

  /**
   * A year's selection keeps every record of that year as many times as the
   * sheet holds it, duplicates included, in sheet order.
   */
  lemma YearFilterExact(rows: seq<Record>, y: int)
    requires y != 0
    ensures forall x :: multiset(YearFilter(rows, Some(y)))[x] == if InYear(y, x) then multiset(rows)[x] else 0
    ensures |YearFilter(rows, Some(y))| == |PositionsFrom(rows, YearIs(y), 0)|
    ensures forall k :: 0 <= k < |YearFilter(rows, Some(y))| ==>
      YearFilter(rows, Some(y))[k] == rows[PositionsFrom(rows, YearIs(y), 0)[k]]
  {
    FilterCount(rows, YearIs(y));
    FilterAtPositions(rows, YearIs(y));
  }

  /** At least one of the two parts carries a replacement date. */
  predicate HasPart(r: Record) {
    r.oring.Some? || r.pastilha.Some?
  }

  predicate Problem(r: Record) {
    IsProblem(r.status)
  }

  predicate NotProblem(r: Record) {
    !IsProblem(r.status)
  }

  predicate IsReal(r: Record) {
    HasPart(r) && NotProblem(r)
  }

  /** Records with a part replaced, then with the problem statuses removed. */
  function RealSubstitutions(d: seq<Record>): (r: seq<Record>)
    ensures r == Filter(d, IsReal)
    ensures forall x :: x in r <==> x in d && HasPart(x) && !IsProblem(x.status)
  {
    FilterThen(d, HasPart, NotProblem);
    FilterExt(d, Both(HasPart, NotProblem), IsReal);
    Filter(Filter(d, HasPart), NotProblem)
  }

  /** The records whose lower-cased status matches the problem pattern. */
  function ProblemMachines(d: seq<Record>): (r: seq<Record>)
    ensures r == Filter(d, Problem)
    ensures forall x :: x in r <==> x in d && IsProblem(x.status)
  {
    Filter(d, Problem)
  }

  /** The problem machines are every matching record, each as often as it occurs, in record order. */
  lemma ProblemMachinesExact(d: seq<Record>)
    ensures forall x :: multiset(ProblemMachines(d))[x] == if IsProblem(x.status) then multiset(d)[x] else 0
    ensures |ProblemMachines(d)| == |PositionsFrom(d, Problem, 0)|
    ensures forall k :: 0 <= k < |ProblemMachines(d)| ==> ProblemMachines(d)[k] == d[PositionsFrom(d, Problem, 0)[k]]
  {
    FilterCount(d, Problem);
    FilterAtPositions(d, Problem);
  }

  /** The selections of two different years share no record and together take at most all of them. */
  lemma YearsDisjoint(rows: seq<Record>, y1: int, y2: int)
    requires y1 != 0 && y2 != 0 && y1 != y2
    ensures forall x :: x in YearFilter(rows, Some(y1)) ==> x !in YearFilter(rows, Some(y2))
    ensures |YearFilter(rows, Some(y1))| + |YearFilter(rows, Some(y2))| <= |rows|
  {
    FilterExclusive(rows, YearIs(y1), YearIs(y2));
  }

  /** No record is both a real substitution and a problem machine, so the two lists together fit in the year. */
  lemma RealAndProblemDisjoint(d: seq<Record>)
    ensures forall x :: x in RealSubstitutions(d) ==> x !in ProblemMachines(d)
    ensures |RealSubstitutions(d)| + |ProblemMachines(d)| <= |d|
  {
    FilterExclusive(d, IsReal, Problem);
  }

  // ----- distinct turbines -----

  function WtgOf(r: Record): string {
    r.wtg
  }

  /** `nunique()` of the turbine column: how many different turbine names the records carry. */
  function Turbines(d: seq<Record>): (t: nat)
    ensures t == |set r | r in d :: r.wtg|
  {
    var names := Map(d, WtgOf);
    var u := Distinct(names);
    NoDuplicatesCard(u);
    assert (set x | x in u) == (set r | r in d :: r.wtg) by {
      forall x | x in u
        ensures x in (set r | r in d :: r.wtg)
      {
        var i :| 0 <= i < |names| && names[i] == x;
        assert d[i] in d;
      }
      forall x | x in (set r | r in d :: r.wtg)
        ensures x in u
      {
        var r :| r in d && r.wtg == x;
        var i :| 0 <= i < |d| && d[i] == r;
        assert names[i] == x;
      }
    }
    |u|
  }

  predicate Bypassed(r: Record) {
    IsBypass(r.status)
  }

  predicate NoLeak(r: Record) {
    IsNoLeak(r.status)
  }

  /** Distinct turbines among a selection are no more than among all records, and those no more than the records. */
  lemma TurbinesBound(d: seq<Record>, p: Record -> bool)
    ensures Turbines(Filter(d, p)) <= Turbines(d) <= |d|
  {
    MapFilterMembers(d, p, WtgOf);
    DistinctSubsetBound(Map(Filter(d, p), WtgOf), Map(d, WtgOf));
  }

  // ----- seal and pad tallies -----

  predicate HasOring(r: Record) {
    r.oring.Some?
  }

  predicate HasPad(r: Record) {
    r.pastilha.Some?
  }

  /** Every real substitution replaced one or both parts: the tallies lie between one and two per record. */
  lemma TallyBounds(d: seq<Record>)
    ensures var subs := RealSubstitutions(d);
      |subs| <= |Filter(subs, HasOring)| + |Filter(subs, HasPad)| <= 2 * |subs|
  {
    FilterCover(RealSubstitutions(d), HasOring, HasPad);
  }

  /** `part / total * 100`, or 0 for an empty total. */
  function Percent(part: nat, total: nat): (r: real)
    ensures total == 0 ==> r == 0.0
    ensures 0 < total && part <= total ==> 0.0 <= r <= 100.0
  {
    if total > 0 then (part as real / total as real) * 100.0 else 0.0
  }

  datatype TypeRow = TypeRow(tipo: string, percentual: real, quantidade: nat)

  /** The two-row replacement-type table, O-Ring first. */
  function TypeTable(oring: nat, pad: nat): (t: seq<TypeRow>)
    ensures |t| == 2 && t[0].tipo == "O-Ring" && t[1].tipo == "Pastilhas"
    ensures t[0].quantidade == oring && t[1].quantidade == pad
    ensures oring + pad == 0 ==> t[0].percentual == 0.0 && t[1].percentual == 0.0
    ensures oring + pad > 0 ==> t[0].percentual + t[1].percentual == 100.0
  {
    var total := oring + pad;
    PercentsSum(oring, pad);
    [TypeRow("O-Ring", Percent(oring, total), oring), TypeRow("Pastilhas", Percent(pad, total), pad)]
  }

  lemma PercentsSum(a: nat, b: nat)
    ensures a + b > 0 ==> Percent(a, a + b) + Percent(b, a + b) == 100.0
  {
    if a + b > 0 {
      var t := (a + b) as real;
      assert a as real / t + b as real / t == 1.0;
    }
  }

  // ----- group counts -----

  function ParkOf(r: Record): string {
    r.parque
  }

  function StatusOf(r: Record): string {
    r.status
  }

  function PositionOf(r: Record): string {
    r.posicao
  }

  predicate HasDate(r: Record) {
    r.ano.Some?
  }

  /** The month period rendered as text, `YYYY-MM`. */
  function MonthOf(r: Record): (s: string)
    ensures r.ano.Some? ==> |s| == 7 && s[4] == '-'
    ensures r.ano.None? ==> s == ""
  {
    if r.ano.Some? then IsoDate(r.ano.value)[..7] else ""
  }

  /** The first seven characters of the ISO date are the year, a dash and the month. */
  lemma MonthText(d: Date)
    ensures IsoDate(d)[..7] == Pad2(d.year / 100) + Pad2(d.year % 100) + "-" + Pad2(d.month)
  {
    var hi, lo, mm, dd := Pad2(d.year / 100), Pad2(d.year % 100), Pad2(d.month), Pad2(d.day);
    DateLayout(hi, lo, mm, dd);
    var s := IsoDate(d);
    assert s[..7] == s[..4] + [s[4]] + s[5..7];
  }

  /** Where the three digit pairs sit in `YYYY-MM`. */
  lemma MonthPieces(hi: string, lo: string, mm: string)
    requires |hi| == 2 && |lo| == 2 && |mm| == 2
    ensures var s := hi + lo + "-" + mm; s[..2] == hi && s[2..4] == lo && s[5..7] == mm
  {
  }

  /** Equal zero-padded pairs come from equal numbers. */
  lemma Pad2Injective(x: nat, y: nat)
    requires x < 100 && y < 100 && Pad2(x) == Pad2(y)
    ensures x == y
  {
  }

  /** Two dated records fall in the same month group exactly when their year and month agree. */
  lemma MonthOfPeriod(a: Record, b: Record)
    requires a.ano.Some? && b.ano.Some?
    ensures MonthOf(a) == MonthOf(b) <==> a.ano.value.year == b.ano.value.year && a.ano.value.month == b.ano.value.month
  {
    var da, db := a.ano.value, b.ano.value;
    MonthText(da);
    MonthText(db);
    if MonthOf(a) == MonthOf(b) {
      var ha, la, ma := Pad2(da.year / 100), Pad2(da.year % 100), Pad2(da.month);
      var hb, lb, mb := Pad2(db.year / 100), Pad2(db.year % 100), Pad2(db.month);
      MonthPieces(ha, la, ma);
      MonthPieces(hb, lb, mb);
      Pad2Injective(da.year / 100, db.year / 100);
      Pad2Injective(da.year % 100, db.year % 100);
      Pad2Injective(da.month, db.month);
    }
  }

  // ----- problem-machine rows -----

  const WtgMissing: string := "WTG Não Informado"
  const ParkMissing: string := "Parque Não Informado"
  const PositionMissing: string := "Posição Não Informada"
  const StatusMissing: string := "Status Não Informado"
  const DateMissing: string := "Data Não Informada"

  /** An empty cell replaced by its default. */
  function OrDefault(v: string, default: string): (r: string)
    requires default != ""
    ensures r != ""
    ensures v != "" ==> r == v
    ensures v == "" ==> r == default
  {
    if v == "" then default else v
  }

  /** The date column: the ISO date when present, the sentinel otherwise. */
  function DateText(d: Option<Date>): (s: string)
    ensures d.Some? ==> s == IsoDate(d.value)
    ensures d.None? ==> s == DateMissing
    ensures (s == DateMissing) <==> d.None?
  {
    if d.Some? then IsoDate(d.value) else DateMissing
  }

  datatype ProblemRow = ProblemRow(wtg: string, parque: string, posicao: string, status: string, ano: string)

  function ToProblemRow(r: Record): (p: ProblemRow)
    ensures p.wtg != "" && p.parque != "" && p.posicao != "" && p.status != ""
    ensures p.wtg == OrDefault(r.wtg, WtgMissing) && p.parque == OrDefault(r.parque, ParkMissing)
    ensures p.posicao == OrDefault(r.posicao, PositionMissing) && p.status == OrDefault(r.status, StatusMissing)
    ensures p.ano == DateText(r.ano)
  {
    ProblemRow(OrDefault(r.wtg, WtgMissing), OrDefault(r.parque, ParkMissing),
               OrDefault(r.posicao, PositionMissing), OrDefault(r.status, StatusMissing), DateText(r.ano))
  }

  /** One report row per problem machine, in record order. */
  function ProblemRows(d: seq<Record>): (ps: seq<ProblemRow>)
    ensures |ps| == |ProblemMachines(d)|
    ensures forall i :: 0 <= i < |ps| ==> ps[i] == ToProblemRow(ProblemMachines(d)[i])
  {
    Map(ProblemMachines(d), ToProblemRow)
  }

  // ----- the per-year document -----

  datatype YearMetrics = YearMetrics(
    totalTurbinas: nat,
    totalCallipers: nat,
    turbinasByPass: nat,
    turbinasSemVazamento: nat,
    callipersSubstituidos: nat,
    substituicoesPorParque: seq<Group<string>>,
    statusCallipers: seq<Group<string>>,
    substituicoesPorMes: seq<Group<string>>,
    percentualTipoSubstituicao: seq<TypeRow>,
    posicaoCallipers: seq<Group<string>>,
    maquinasProblema: seq<ProblemRow>)

  /** All the figures of one year (or of every year, without one). */
  function ForYear(rows: seq<Record>, ano: Option<int>): (m: YearMetrics)
    ensures m.totalTurbinas == Turbines(YearFilter(rows, ano))
    ensures m.totalCallipers == |YearFilter(rows, ano)|
    ensures m.turbinasByPass == Turbines(Filter(YearFilter(rows, ano), Bypassed))
    ensures m.turbinasSemVazamento == Turbines(Filter(YearFilter(rows, ano), NoLeak))
    ensures m.callipersSubstituidos == |RealSubstitutions(YearFilter(rows, ano))|
    ensures m.substituicoesPorParque == GroupCount(Map(RealSubstitutions(YearFilter(rows, ano)), ParkOf))
    ensures m.statusCallipers == GroupCount(Map(YearFilter(rows, ano), StatusOf))
    ensures m.substituicoesPorMes == GroupCount(Map(Filter(RealSubstitutions(YearFilter(rows, ano)), HasDate), MonthOf))
    ensures var subs := RealSubstitutions(YearFilter(rows, ano));
      m.percentualTipoSubstituicao == TypeTable(|Filter(subs, HasOring)|, |Filter(subs, HasPad)|)
    ensures m.posicaoCallipers == GroupCount(Map(RealSubstitutions(YearFilter(rows, ano)), PositionOf))
    ensures m.maquinasProblema == ProblemRows(YearFilter(rows, ano))
  {
    var d := YearFilter(rows, ano);
    var subs := RealSubstitutions(d);
    var oring, pad := |Filter(subs, HasOring)|, |Filter(subs, HasPad)|;
    YearMetrics(
      Turbines(d), |d|, Turbines(Filter(d, Bypassed)), Turbines(Filter(d, NoLeak)), |subs|,
      GroupCount(Map(subs, ParkOf)),
      GroupCount(Map(d, StatusOf)),
      GroupCount(Map(Filter(subs, HasDate), MonthOf)),
      TypeTable(oring, pad),
      GroupCount(Map(subs, PositionOf)),
      ProblemRows(d))
  }

  /** The card figures are ordered: each selection fits inside the year, each turbine count inside the total. */
  lemma CardBounds(rows: seq<Record>, ano: Option<int>)
    ensures var m := ForYear(rows, ano);
      m.callipersSubstituidos + |m.maquinasProblema| <= m.totalCallipers <= |rows| &&
      m.turbinasByPass <= m.totalTurbinas && m.turbinasSemVazamento <= m.totalTurbinas &&
      m.totalTurbinas <= m.totalCallipers
  {
    var d := YearFilter(rows, ano);
    RealAndProblemDisjoint(d);
    TurbinesBound(d, Bypassed);
    TurbinesBound(d, NoLeak);
  }

  /** The group counts add up: parks and positions to the real substitutions, months to those with a date, statuses to every record. */
  lemma GroupTotals(rows: seq<Record>, ano: Option<int>)
    ensures var m := ForYear(rows, ano);
      Total(m.substituicoesPorParque) == m.callipersSubstituidos &&
      Total(m.posicaoCallipers) == m.callipersSubstituidos &&
      Total(m.substituicoesPorMes) == |Filter(RealSubstitutions(YearFilter(rows, ano)), HasDate)| &&
      Total(m.substituicoesPorMes) <= m.callipersSubstituidos &&
      Total(m.statusCallipers) == m.totalCallipers
  {
    var d := YearFilter(rows, ano);
    var subs := RealSubstitutions(d);
    GroupCountTotal(Map(subs, ParkOf));
    GroupCountTotal(Map(subs, PositionOf));
    GroupCountTotal(Map(Filter(subs, HasDate), MonthOf));
    GroupCountTotal(Map(d, StatusOf));
  }

  /** The type table counts every replaced part: between one and two per real substitution. */
  lemma TypeTableTotals(rows: seq<Record>, ano: Option<int>)
    ensures var m := ForYear(rows, ano);
      var t := m.percentualTipoSubstituicao;
      m.callipersSubstituidos <= t[0].quantidade + t[1].quantidade <= 2 * m.callipersSubstituidos &&
      (m.callipersSubstituidos > 0 ==> t[0].percentual + t[1].percentual == 100.0)
  {
    TallyBounds(YearFilter(rows, ano));
  }

  /** A problem status is never empty, so a problem row always shows the record's own status. */
  lemma ProblemStatusKept(d: seq<Record>)
    ensures forall i :: 0 <= i < |ProblemRows(d)| ==> ProblemRows(d)[i].status == ProblemMachines(d)[i].status
  {
    DefaultNotProblem();
    forall i | 0 <= i < |ProblemRows(d)|
      ensures ProblemRows(d)[i].status == ProblemMachines(d)[i].status
    {
      assert ProblemMachines(d)[i] in ProblemMachines(d);
    }
  }

  /**
   * The cell defaults run before the report rows are built, so an empty
   * turbine cell reaches the report as "Não Informado"; the row's own
   * default appears only for a cell holding the empty string.
   */
  lemma FilledDefaultWins(raw: RawRecord)
    ensures ToProblemRow(FillDefaults(raw)).wtg ==
      if raw.wtg.None? then NotInformed else if raw.wtg.value == "" then WtgMissing else raw.wtg.value
    ensures ToProblemRow(FillDefaults(raw)).parque ==
      if raw.parque.None? then NotInformed else if raw.parque.value == "" then ParkMissing else raw.parque.value
  {
  }
}
