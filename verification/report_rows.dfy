/**
 * What the report tab derives from the current slice: the table of problem
 * machines (badge, field fallbacks, date cell), the recommended-action items
 * shown only for positive counts, and the five metric cards.
 */
module ReportRows {
  import opened Text
  import opened Patterns
  import opened JsValues
  import opened SafeAccess

  const NotAvailable: string := "N/A"
  const DateNotInformed: string := "Data Não Informada"

  datatype Badge = BypassBadge | PendingBadge

  /** The date column: either the value handed to `toLocaleDateString`, or a value shown as it is. */
  datatype DateCell = Localized(date: JsValue) | Shown(value: JsValue)

  datatype TableRow =
    | Placeholder
    | Machine(wtg: JsValue, parque: JsValue, posicao: JsValue, badge: Badge, status: JsValue, date: DateCell)

  /** `status?.toLowerCase()` throws on a present non-string. */
  predicate RenderableStatus(v: JsValue) {
    v.Str? || Nullish(v)
  }

  /** A row the table renders without throwing: not `null`/`undefined`, and its `STATUS` a string or absent. */
  predicate Renderable(m: JsValue) {
    !Nullish(m) && RenderableStatus(Get(m, "STATUS"))
  }

  /** `STATUS?.toLowerCase().includes('by-pass')` picks the red badge; anything else, absent included, is yellow. */
  function StatusBadge(status: JsValue): (b: Badge)
    requires RenderableStatus(status)
    ensures Nullish(status) ==> b == PendingBadge
  {
    if status.Str? && Search(Lower(status.s), Literal("by-pass")) then BypassBadge else PendingBadge
  }

  /** The badge is red exactly when the lower-cased status contains "by-pass". */
  lemma BadgeIff(status: JsValue)
    requires RenderableStatus(status)
    ensures StatusBadge(status) == BypassBadge <==>
      status.Str? && exists i: nat :: SliceAt(Lower(status.s), "by-pass", i)
  {
    if status.Str? {
      LiteralSearchIff(Lower(status.s), "by-pass");
    }
  }

  /** `value || 'N/A'`. */
  function Cell(v: JsValue): (r: JsValue)
    ensures Truthy(r)
    ensures Truthy(v) ==> r == v
    ensures !Truthy(v) ==> r == Str(NotAvailable)
  {
    Or(v, Str(NotAvailable))
  }

  /**
   * A present date other than the sentinel is localised; otherwise the value
   * itself is shown, so the sentinel appears verbatim and a falsy date as 'N/A'.
   */
  function DateColumn(d: JsValue): (c: DateCell)
    ensures c.Localized? <==> Truthy(d) && d != Str(DateNotInformed)
    ensures c.Localized? ==> c.date == d
    ensures d == Str(DateNotInformed) ==> c == Shown(d)
    ensures !Truthy(d) ==> c == Shown(Str(NotAvailable))
  {
    if Truthy(d) && d != Str(DateNotInformed) then Localized(d) else Shown(Or(d, Str(NotAvailable)))
  }

  function RenderRow(m: JsValue): (r: TableRow)
    requires Renderable(m)
    ensures r.Machine?
    ensures r.badge == StatusBadge(Get(m, "STATUS"))
    ensures r.wtg == Cell(Get(m, "WTG")) && r.parque == Cell(Get(m, "PARQUE"))
    ensures r.posicao == Cell(Get(m, "POSICAO_CALLIPER")) && r.status == Cell(Get(m, "STATUS"))
    ensures r.date == DateColumn(Get(m, "ANO_SUBSTITUICAO"))
  {
    Machine(Cell(Get(m, "WTG")), Cell(Get(m, "PARQUE")), Cell(Get(m, "POSICAO_CALLIPER")),
            StatusBadge(Get(m, "STATUS")), Cell(Get(m, "STATUS")), DateColumn(Get(m, "ANO_SUBSTITUICAO")))
  }

  /** The table body: a single placeholder row for an empty list, otherwise one row per machine in order. */
  function RenderTable(ms: seq<JsValue>): (r: seq<TableRow>)
    requires forall i :: 0 <= i < |ms| ==> Renderable(ms[i])
    ensures |ms| == 0 ==> r == [Placeholder]
    ensures |ms| > 0 ==> |r| == |ms| && forall i :: 0 <= i < |ms| ==> r[i] == RenderRow(ms[i])
    ensures |ms| > 0 ==> forall i :: 0 <= i < |r| ==> r[i].Machine?
  {
    if |ms| == 0 then [Placeholder]
    else seq(|ms|, i requires 0 <= i < |ms| => RenderRow(ms[i]))
  }

  /** The table of the current slice reads its list through `getSafeArray`: a missing or non-array list shows the placeholder. */
  function ProblemTable(view: JsValue): (r: seq<TableRow>)
    requires !Nullish(view)
    requires forall i :: 0 <= i < |SafeArray(Get(view, "maquinasProblema")).items| ==>
      Renderable(SafeArray(Get(view, "maquinasProblema")).items[i])
    ensures Get(view, "maquinasProblema").Arr? ==>
      SafeArray(Get(view, "maquinasProblema")) == Get(view, "maquinasProblema") &&
      r == RenderTable(Get(view, "maquinasProblema").items)
    ensures !Get(view, "maquinasProblema").Arr? ==> r == [Placeholder]
  {
    RenderTable(SafeArray(Get(view, "maquinasProblema")).items)
  }

  /** Every displayed text cell is truthy: missing fields never render blank. */
  lemma NoBlankCells(m: JsValue)
    requires Renderable(m)
    ensures Truthy(RenderRow(m).wtg) && Truthy(RenderRow(m).parque)
    ensures Truthy(RenderRow(m).posicao) && Truthy(RenderRow(m).status)
    ensures RenderRow(m).date.Shown? ==> Truthy(RenderRow(m).date.value)
  {
  }

  /** The two documented examples: "By-Pass — urgent" is red, "Sem vazamento" is yellow, and no status is yellow. */
  lemma BadgeExamples()
    ensures StatusBadge(Str("By-Pass — urgent")) == BypassBadge
    ensures StatusBadge(Str("Sem vazamento")) == PendingBadge
    ensures StatusBadge(Undefined) == PendingBadge
  {
    var t := Lower("By-Pass — urgent");
    assert t[0..7] == "by-pass";
    LiteralMatchesAt(t, "by-pass", 0);
    var u := Lower("Sem vazamento");
    assert u == "sem vazamento";
    AbsentFirstChar(u, "by-pass");
  }

  /** JavaScript `v > 0` for the values a count can hold after `getSafeNumber`. */
  predicate Positive(v: JsValue)
    requires v.Num? || v.Bool? || Nullish(v)
  {
    match v
    case Num(n) => n > 0.0
    case Bool(b) => b
    case _ => false
  }

  /** A count field the action list can compare with 0: a number, a boolean, or absent. */
  predicate NumericOrAbsent(v: JsValue) {
    v.Num? || v.Bool? || Nullish(v)
  }

  /** Where a view reads its bypass and no-leak counts from. */
  datatype CountFields = CountFields(bypass: string, noLeak: string)

  /** The keys the component reads. */
  const ComponentFields: CountFields := CountFields("callipersByPass", "callipersSemVazamento")

  /** The keys the producer writes the same counts under. */
  const ProducerFields: CountFields := CountFields("turbinasByPass", "turbinasSemVazamento")

  datatype Action = SealsReplaced(count: JsValue) | NoLeakCalipers(count: JsValue) | BypassedCalipers(count: JsValue)

  /** Where an action sits in the list. */
  function Rank(a: Action): nat {
    match a
    case SealsReplaced(_) => 0
    case NoLeakCalipers(_) => 1
    case BypassedCalipers(_) => 2
  }

  /** The guard `getSafeNumber(count) > 0` of one recommended action. */
  predicate Offered(count: JsValue)
    requires NumericOrAbsent(count)
    ensures Offered(count) <==> (count.Num? && count.n > 0.0) || count == Bool(true)
  {
    NumericOrAbsent(SafeNumber(count)) && Positive(SafeNumber(count))
  }

  /**
   * The recommended actions, in display order: seals replaced, calipers
   * without leak, calipers bypassed — each present only when its count is
   * positive, and carrying that count.
   */
  function Actions(view: JsValue, keys: CountFields): (r: seq<Action>)
    requires !Nullish(view)
    requires NumericOrAbsent(Get(view, "callipersSubstituidos"))
    requires NumericOrAbsent(Get(view, keys.noLeak))
    requires NumericOrAbsent(Get(view, keys.bypass))
    ensures |r| <= 3
    ensures forall i, j :: 0 <= i < j < |r| ==> Rank(r[i]) < Rank(r[j])
    ensures forall a :: a in r ==>
      a == SealsReplaced(SafeNumber(Get(view, "callipersSubstituidos"))) ||
      a == NoLeakCalipers(SafeNumber(Get(view, keys.noLeak))) ||
      a == BypassedCalipers(SafeNumber(Get(view, keys.bypass)))
    ensures SealsReplaced(SafeNumber(Get(view, "callipersSubstituidos"))) in r <==> Offered(Get(view, "callipersSubstituidos"))
    ensures NoLeakCalipers(SafeNumber(Get(view, keys.noLeak))) in r <==> Offered(Get(view, keys.noLeak))
    ensures BypassedCalipers(SafeNumber(Get(view, keys.bypass))) in r <==> Offered(Get(view, keys.bypass))
    ensures forall a :: a in r ==> Truthy(a.count)
  {
    var replaced := SafeNumber(Get(view, "callipersSubstituidos"));
    var noLeak := SafeNumber(Get(view, keys.noLeak));
    var bypassed := SafeNumber(Get(view, keys.bypass));
    (if Offered(Get(view, "callipersSubstituidos")) then [SealsReplaced(replaced)] else [])
    + (if Offered(Get(view, keys.noLeak)) then [NoLeakCalipers(noLeak)] else [])
    + (if Offered(Get(view, keys.bypass)) then [BypassedCalipers(bypassed)] else [])
  }

  /** A missing count never produces an action. */
  lemma MissingCountHidden(view: JsValue, key: string)
    requires !Nullish(view) && Nullish(Get(view, key))
    ensures !Offered(Get(view, key))
  {
  }

  /** The five metric cards: turbines, calipers, replaced, bypassed, original seals, each through `getSafeNumber`. */
  function Cards(view: JsValue, keys: CountFields): (r: seq<JsValue>)
    requires !Nullish(view)
    ensures |r| == 5
    ensures forall i :: 0 <= i < 5 ==> !Nullish(r[i])
    ensures r[0] == SafeNumber(Get(view, "totalTurbinas"))
    ensures r[1] == SafeNumber(Get(view, "totalCallipers"))
    ensures r[2] == SafeNumber(Get(view, "callipersSubstituidos"))
    ensures r[3] == SafeNumber(Get(view, keys.bypass))
    ensures r[4] == SafeNumber(Get(view, keys.noLeak))
  {
    [SafeNumber(Get(view, "totalTurbinas")), SafeNumber(Get(view, "totalCallipers")),
     SafeNumber(Get(view, "callipersSubstituidos")), SafeNumber(Get(view, keys.bypass)),
     SafeNumber(Get(view, keys.noLeak))]
  }
}
