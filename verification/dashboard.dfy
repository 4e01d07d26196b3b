/**
 * The document the producer writes: one figures object per year key
 * ("todos", "2024", "2025"), the available years and the parks, with the
 * colour of every status, type and position item attached, and every list
 * key guaranteed present.
 */
module Dashboard {
  import opened Optional
  import opened Text
  import opened Seqs
  import opened Grouping
  import opened JsValues
  import opened Sheet
  import opened Metrics

  // ----- colour lookups -----

  const HexGrey: string := "#6b7280"
  const HexRed: string := "#ef4444"
  const HexGreen: string := "#22c55e"
  const HexAmber: string := "#f59e0b"
  const HexBlue: string := "#3b82f6"
  const HexViolet: string := "#8b5cf6"

  const StatusColors: map<string, string> := map[
    "by-passado" := HexRed,
    "bypassado" := HexRed,
    "sem vazamento" := HexGreen,
    "pendente" := HexAmber,
    "reparos substituidos" := HexBlue,
    "reparado" := HexBlue,
    "operacional" := HexGreen,
    "não informado" := HexGrey]

  const PositionColors: map<string, string> := map["1" := HexBlue, "2" := HexGreen, "3" := HexAmber, "4" := HexRed, "5" := HexViolet]

  /** A lookup with a default, as `dict.get(key, default)`. */
  function LookupOr(m: map<string, string>, key: string, default: string): (r: string)
    ensures key in m ==> r == m[key]
    ensures key !in m ==> r == default
  {
    if key in m then m[key] else default
  }

  /** The colour of a status: the lower-cased, trimmed text looked up, grey when unknown. */
  function StatusColor(status: string): (c: string)
    ensures c in StatusColors.Values || c == HexGrey
    ensures Strip(Lower(status)) in StatusColors ==> c == StatusColors[Strip(Lower(status))]
  {
    LookupOr(StatusColors, Strip(Lower(status)), HexGrey)
  }

  /** The colour of a replacement type: blue for "O-Ring", amber for anything else. */
  function TypeColor(tipo: string): (c: string)
    ensures c == HexBlue <==> tipo == "O-Ring"
    ensures c != HexBlue ==> c == HexAmber
  {
    if tipo == "O-Ring" then HexBlue else HexAmber
  }

  /** The colour of a position: its trimmed text looked up among "1" to "5", grey otherwise. */
  function PositionColor(posicao: string): (c: string)
    ensures c in PositionColors.Values || c == HexGrey
    ensures Strip(posicao) in PositionColors ==> c == PositionColors[Strip(posicao)]
    ensures Strip(posicao) !in PositionColors ==> c == HexGrey
  {
    LookupOr(PositionColors, Strip(posicao), HexGrey)
  }

  /** Lower-casing and trimming a status again does not change its colour: the lookup ignores case and surrounding space. */
  lemma StatusColorNormalised(status: string)
    ensures StatusColor(Strip(Lower(status))) == StatusColor(status)
    ensures StatusColor(Lower(status)) == StatusColor(status)
  {
    LowerStripIdempotent(status);
    LowerIdempotent(status);
  }

  /** The palette: every status colour is one of the table's colours, and an unlisted status is grey. */
  lemma StatusColorRange(status: string)
    ensures StatusColor(status) in {HexRed, HexGreen, HexAmber, HexBlue, HexGrey}
    ensures Strip(Lower(status)) !in StatusColors ==> StatusColor(status) == HexGrey
  {
  }

  /** A bypass status is red whatever its case. */
  lemma BypassStatusRed()
    ensures StatusColor("By-Passado") == HexRed
  {
    var k := "by-passado";
    assert Lower("By-Passado") == k;
    StripNoop(k);
    assert k in StatusColors && StatusColors[k] == HexRed;
  }

  /** The filled-in default status is grey. */
  lemma DefaultStatusGrey()
    ensures StatusColor(NotInformed) == HexGrey
  {
    var k := "não informado";
    assert Lower(NotInformed) == k;
    StripNoop(k);
    assert k in StatusColors && StatusColors[k] == HexGrey;
  }

  /** In the two-row type table the O-Ring row is blue and the pad row amber. */
  lemma TypeColors(oring: nat, pad: nat)
    ensures TypeColor(TypeTable(oring, pad)[0].tipo) == HexBlue
    ensures TypeColor(TypeTable(oring, pad)[1].tipo) == HexAmber
  {
  }

  /** A position label carrying the "Calliper " prefix never matches a key of the position table. */
  lemma PrefixedPositionGrey(n: string)
    ensures PositionColor("Calliper " + n) == HexGrey
  {
    var s := "Calliper " + n;
    StripShape(s);
    assert !IsSpace(s[0]);
    var t := Strip(s);
    assert |t| > 0 && t[0] == 'C' by {
      assert Leading(s) == 0;
      assert Trailing(s) >= 1 by {
        assert !IsSpace(s[7]);
      }
    }
  }

  // ----- encoding -----

  function Count(n: nat): JsValue {
    Num(n as real)
  }

  function ParkItem(g: Group<string>): JsValue {
    Obj(map["PARQUE" := Str(g.key), "Total_Substituicoes" := Count(g.count)])
  }

  function StatusItem(g: Group<string>): JsValue {
    Obj(map["Status" := Str(g.key), "Quantidade" := Count(g.count), "color" := Str(StatusColor(g.key))])
  }

  function MonthItem(g: Group<string>): JsValue {
    Obj(map["Mes_Ano" := Str(g.key), "Total_Substituicoes" := Count(g.count)])
  }

  function TypeItem(t: TypeRow): JsValue {
    Obj(map["Tipo" := Str(t.tipo), "Percentual" := Num(t.percentual), "Quantidade" := Count(t.quantidade),
            "color" := Str(TypeColor(t.tipo))])
  }

  function PositionItem(g: Group<string>): JsValue {
    Obj(map["Posicao" := Str(g.key), "Quantidade" := Count(g.count), "color" := Str(PositionColor(g.key))])
  }

  function ProblemItem(p: ProblemRow): JsValue {
    Obj(map["WTG" := Str(p.wtg), "PARQUE" := Str(p.parque), "POSICAO_CALLIPER" := Str(p.posicao),
            "STATUS" := Str(p.status), "ANO_SUBSTITUICAO" := Str(p.ano)])
  }

  /** The six list keys every year document must hold. */
  const ListKeys: seq<string> := ["substituicoesPorParque", "statusCallipers", "substituicoesPorMes",
                                  "percentualTipoSubstituicao", "posicaoCallipers", "maquinasProblema"]

  /** The five number keys of a year document. */
  const CountKeys: seq<string> := ["totalTurbinas", "totalCallipers", "turbinasByPass", "turbinasSemVazamento",
                                   "callipersSubstituidos"]

  /** The six list keys, spelled out. */
  predicate HasLists(fields: map<string, JsValue>) {
    "substituicoesPorParque" in fields && "statusCallipers" in fields && "substituicoesPorMes" in fields &&
    "percentualTipoSubstituicao" in fields && "posicaoCallipers" in fields && "maquinasProblema" in fields
  }

  lemma HasListsAll(fields: map<string, JsValue>)
    requires HasLists(fields)
    ensures forall k :: k in ListKeys ==> k in fields
  {
  }

  /** One year's figures as the JSON object the dashboard reads, colours attached. */
  function Encode(m: YearMetrics): (v: JsValue)
    ensures v.Obj? && HasLists(v.fields)
  {
    var r := Obj(map[
      "totalTurbinas" := Count(m.totalTurbinas),
      "totalCallipers" := Count(m.totalCallipers),
      "turbinasByPass" := Count(m.turbinasByPass),
      "turbinasSemVazamento" := Count(m.turbinasSemVazamento),
      "callipersSubstituidos" := Count(m.callipersSubstituidos),
      "substituicoesPorParque" := Arr(Map(m.substituicoesPorParque, ParkItem)),
      "statusCallipers" := Arr(Map(m.statusCallipers, StatusItem)),
      "substituicoesPorMes" := Arr(Map(m.substituicoesPorMes, MonthItem)),
      "percentualTipoSubstituicao" := Arr(Map(m.percentualTipoSubstituicao, TypeItem)),
      "posicaoCallipers" := Arr(Map(m.posicaoCallipers, PositionItem)),
      "maquinasProblema" := Arr(Map(m.maquinasProblema, ProblemItem))]);
    r
  }

  /** The producer never writes `callipersByPass` or `callipersSemVazamento`. */
  lemma EncodeOmits(m: YearMetrics)
    ensures "callipersByPass" !in Encode(m).fields && "callipersSemVazamento" !in Encode(m).fields
  {
  }

  /** The keys the producer writes for the bypass and no-leak counts, and the problem list it writes. */
  lemma EncodeFields(m: YearMetrics)
    ensures "totalTurbinas" in Encode(m).fields && Encode(m).fields["totalTurbinas"] == Count(m.totalTurbinas)
    ensures "turbinasByPass" in Encode(m).fields && Encode(m).fields["turbinasByPass"] == Count(m.turbinasByPass)
    ensures "turbinasSemVazamento" in Encode(m).fields && Encode(m).fields["turbinasSemVazamento"] == Count(m.turbinasSemVazamento)
    ensures "totalCallipers" in Encode(m).fields && Encode(m).fields["totalCallipers"] == Count(m.totalCallipers)
    ensures "callipersSubstituidos" in Encode(m).fields && Encode(m).fields["callipersSubstituidos"] == Count(m.callipersSubstituidos)
    ensures Encode(m).fields["maquinasProblema"] == Arr(Map(m.maquinasProblema, ProblemItem))
  {
  }

  // Every group list is written item by item: one object per group, in the
  // group order, holding the group's key and count and, for statuses, types
  // and positions, the colour of its key.

  /** `substituicoesPorParque`: one park item per group. */
  lemma EncodeParks(m: YearMetrics)
    ensures var items := Encode(m).fields["substituicoesPorParque"].items;
      |items| == |m.substituicoesPorParque| &&
      forall i :: 0 <= i < |items| ==> var g := m.substituicoesPorParque[i];
        items[i].Obj? && "PARQUE" in items[i].fields && "Total_Substituicoes" in items[i].fields &&
        items[i].fields["PARQUE"] == Str(g.key) && items[i].fields["Total_Substituicoes"] == Count(g.count)
  {
  }

  /** `statusCallipers`: one status item per group, coloured by its status. */
  lemma EncodeStatuses(m: YearMetrics)
    ensures var items := Encode(m).fields["statusCallipers"].items;
      |items| == |m.statusCallipers| &&
      forall i :: 0 <= i < |items| ==> var g := m.statusCallipers[i];
        items[i].Obj? && "Status" in items[i].fields && "Quantidade" in items[i].fields && "color" in items[i].fields &&
        items[i].fields["Status"] == Str(g.key) && items[i].fields["Quantidade"] == Count(g.count) &&
        items[i].fields["color"] == Str(StatusColor(g.key))
  {
  }

  /** `substituicoesPorMes`: one month item per group. */
  lemma EncodeMonths(m: YearMetrics)
    ensures var items := Encode(m).fields["substituicoesPorMes"].items;
      |items| == |m.substituicoesPorMes| &&
      forall i :: 0 <= i < |items| ==> var g := m.substituicoesPorMes[i];
        items[i].Obj? && "Mes_Ano" in items[i].fields && "Total_Substituicoes" in items[i].fields &&
        items[i].fields["Mes_Ano"] == Str(g.key) && items[i].fields["Total_Substituicoes"] == Count(g.count)
  {
  }

  /** `percentualTipoSubstituicao`: one type item per table row, coloured by its type. */
  lemma EncodeTypes(m: YearMetrics)
    ensures var items := Encode(m).fields["percentualTipoSubstituicao"].items;
      |items| == |m.percentualTipoSubstituicao| &&
      forall i :: 0 <= i < |items| ==> var t := m.percentualTipoSubstituicao[i];
        items[i].Obj? && "Tipo" in items[i].fields && "Percentual" in items[i].fields &&
        "Quantidade" in items[i].fields && "color" in items[i].fields &&
        items[i].fields["Tipo"] == Str(t.tipo) && items[i].fields["Percentual"] == Num(t.percentual) &&
        items[i].fields["Quantidade"] == Count(t.quantidade) && items[i].fields["color"] == Str(TypeColor(t.tipo))
  {
  }

  /** `posicaoCallipers`: one position item per group, coloured by its position. */
  lemma EncodePositions(m: YearMetrics)
    ensures var items := Encode(m).fields["posicaoCallipers"].items;
      |items| == |m.posicaoCallipers| &&
      forall i :: 0 <= i < |items| ==> var g := m.posicaoCallipers[i];
        items[i].Obj? && "Posicao" in items[i].fields && "Quantidade" in items[i].fields && "color" in items[i].fields &&
        items[i].fields["Posicao"] == Str(g.key) && items[i].fields["Quantidade"] == Count(g.count) &&
        items[i].fields["color"] == Str(PositionColor(g.key))
  {
  }

  // ----- available years and parks -----

  predicate Ascending(s: seq<int>) {
    forall i, j :: 0 <= i < j < |s| ==> s[i] <= s[j]
  }

  /** Places `x` before the first element not below it. */
  function InsertAscending(x: int, s: seq<int>): seq<int> {
    if |s| == 0 || x <= s[0] then [x] + s
    else [s[0]] + InsertAscending(x, s[1..])
  }

  /** Insertion adds exactly `x`. */
  lemma {:induction false} InsertAscendingPermutes(x: int, s: seq<int>)
    ensures multiset(InsertAscending(x, s)) == multiset(s) + multiset{x}
  {
    if |s| > 0 && x > s[0] {
      var u := s[1..];
      assert s == [s[0]] + u;
      var t := InsertAscending(x, u);
      assert InsertAscending(x, s) == [s[0]] + t;
      InsertAscendingPermutes(x, u);
      assert multiset([s[0]] + t) == multiset{s[0]} + multiset(t);
      assert multiset(s) == multiset{s[0]} + multiset(u);
    }
  }

  /** Insertion into an ascending sequence keeps it ascending. */
  lemma {:induction false} InsertAscendingSorted(x: int, s: seq<int>)
    requires Ascending(s)
    ensures Ascending(InsertAscending(x, s))
  {
    var r := InsertAscending(x, s);
    if |s| == 0 || x <= s[0] {
      assert r == [x] + s;
      forall i, j | 0 <= i < j < |r|
        ensures r[i] <= r[j]
      {
        if i == 0 && j > 1 { assert s[0] <= s[j - 1]; }
      }
    } else {
      var u := s[1..];
      assert Ascending(u);
      InsertAscendingSorted(x, u);
      InsertAscendingPermutes(x, u);
      var t := InsertAscending(x, u);
      assert r == [s[0]] + t;
      forall i, j | 0 <= i < j < |r|
        ensures r[i] <= r[j]
      {
        if i == 0 {
          var y := r[j];
          assert y in multiset(t);
          if y != x {
            assert y in u;
          }
        } else {
          assert r[i] == t[i - 1] && r[j] == t[j - 1];
        }
      }
    }
  }

  /** `list.sort()` on integers. */
  function SortAscending(s: seq<int>): (r: seq<int>)
    ensures Ascending(r)
    ensures multiset(r) == multiset(s)
  {
    if |s| == 0 then []
    else
      var p, last := s[..|s| - 1], s[|s| - 1];
      assert s == p + [last];
      var q := SortAscending(p);
      InsertAscendingSorted(last, q);
      InsertAscendingPermutes(last, q);
      InsertAscending(last, q)
  }

  function YearOf(r: Record): int {
    if r.ano.Some? then r.ano.value.year else 0
  }

  /** The distinct years of the dated records, ascending. */
  function AvailableYears(rows: seq<Record>): (ys: seq<int>)
    ensures Ascending(ys)
  {
    SortAscending(Distinct(Map(Filter(rows, HasDate), YearOf)))
  }

  /** The available years are exactly the years of the dated records, each once. */
  lemma AvailableYearsExact(rows: seq<Record>)
    ensures NoDuplicates(AvailableYears(rows))
    ensures forall y :: y in AvailableYears(rows) <==> exists r :: r in rows && r.ano.Some? && r.ano.value.year == y
  {
    var dated := Filter(rows, HasDate);
    var years := Distinct(Map(dated, YearOf));
    var ys := AvailableYears(rows);
    assert forall y :: y in ys <==> y in years by {
      forall y
        ensures y in ys <==> y in years
      {
        assert y in ys <==> y in multiset(ys);
      }
    }
    MultisetNoDuplicates(years, ys);
    forall y | y in ys
      ensures exists r :: r in rows && r.ano.Some? && r.ano.value.year == y
    {
      var i :| 0 <= i < |dated| && Map(dated, YearOf)[i] == y;
      assert dated[i] in rows;
    }
    forall r | r in rows && r.ano.Some?
      ensures r.ano.value.year in ys
    {
      assert r in dated;
      var i :| 0 <= i < |dated| && dated[i] == r;
      assert Map(dated, YearOf)[i] == r.ano.value.year;
    }
  }

  /** A permutation of a duplicate-free sequence is duplicate-free. */
  lemma MultisetNoDuplicates(a: seq<int>, b: seq<int>)
    requires NoDuplicates(a) && multiset(a) == multiset(b)
    ensures NoDuplicates(b)
  {
    NoDuplicatesMultiplicity(a);
    forall i, j | 0 <= i < j < |b|
      ensures b[i] != b[j]
    {
      if b[i] == b[j] {
        PairMultiplicity(b, i, j);
        assert false;
      }
    }
  }

  lemma {:induction false} NoDuplicatesMultiplicity(a: seq<int>)
    requires NoDuplicates(a)
    ensures forall x :: multiset(a)[x] <= 1
  {
    if |a| > 0 {
      var t := a[1..];
      assert a == [a[0]] + t;
      assert NoDuplicates(t) by {
        forall i, j | 0 <= i < j < |t|
          ensures t[i] != t[j]
        {
          assert t[i] == a[i + 1] && t[j] == a[j + 1];
        }
      }
      NoDuplicatesMultiplicity(t);
      assert a[0] !in t by {
        forall k | 0 <= k < |t|
          ensures t[k] != a[0]
        {
          assert t[k] == a[k + 1];
        }
      }
    }
  }

  /** Two positions holding the same value give it multiplicity at least two. */
  lemma PairMultiplicity(b: seq<int>, i: nat, j: nat)
    requires i < j < |b|
    ensures multiset(b)[b[i]] >= 2 || b[i] != b[j]
  {
    if b[i] == b[j] {
      assert b == b[..i] + [b[i]] + b[i + 1..j] + [b[j]] + b[j + 1..];
    }
  }

  // ----- the document -----

  /** The whole document: all years, 2024, 2025, the available years and the parks in order of first appearance. */
  function Build(rows: seq<Record>): (doc: JsValue)
    ensures doc.Obj? && doc.fields.Keys == {"todos", "2024", "2025", "anosDisponiveis", "parques"}
  {
    Assemble(ForYear(rows, None), ForYear(rows, Some(2024)), ForYear(rows, Some(2025)),
             AvailableYears(rows), Distinct(Map(rows, ParkOf)))
  }

  /** The document layout around already computed figures, years and parks. */
  function Assemble(all: YearMetrics, y2024: YearMetrics, y2025: YearMetrics, years: seq<int>, parks: seq<string>): (doc: JsValue)
    ensures doc.Obj? && doc.fields.Keys == {"todos", "2024", "2025", "anosDisponiveis", "parques"}
    ensures doc.fields["anosDisponiveis"].Arr? && |doc.fields["anosDisponiveis"].items| == |years|
    ensures forall i :: 0 <= i < |years| ==> doc.fields["anosDisponiveis"].items[i] == Num(years[i] as real)
    ensures doc.fields["parques"] == Arr(Map(parks, (p: string) => Str(p)))
  {
    Obj(map[
      "todos" := Encode(all),
      "2024" := Encode(y2024),
      "2025" := Encode(y2025),
      "anosDisponiveis" := Arr(Map(years, (y: int) => Num(y as real))),
      "parques" := Arr(Map(parks, (p: string) => Str(p)))])
  }

  /** A document with an object under every year key, the shape the last pass indexes into. */
  predicate YearShaped(doc: JsValue) {
    doc.Obj? && "todos" in doc.fields && doc.fields["todos"].Obj? &&
    "2024" in doc.fields && doc.fields["2024"].Obj? && "2025" in doc.fields && doc.fields["2025"].Obj?
  }

  /** Every year document of a shaped document holds every list key. */
  predicate ListsPresent(doc: JsValue)
    requires YearShaped(doc)
  {
    HasLists(doc.fields["todos"].fields) && HasLists(doc.fields["2024"].fields) && HasLists(doc.fields["2025"].fields)
  }

  /** Each year key holds that year's figures, and each of those holds every list key. */
  lemma AssembleShape(all: YearMetrics, y2024: YearMetrics, y2025: YearMetrics, years: seq<int>, parks: seq<string>)
    ensures var doc := Assemble(all, y2024, y2025, years, parks);
      YearShaped(doc) && ListsPresent(doc) &&
      doc.fields["todos"] == Encode(all) && doc.fields["2024"] == Encode(y2024) && doc.fields["2025"] == Encode(y2025) &&
      "2026" !in doc.fields
  {
  }

  lemma BuildShape(rows: seq<Record>)
    ensures YearShaped(Build(rows)) && ListsPresent(Build(rows))
    ensures "2026" !in Build(rows).fields
  {
    AssembleShape(ForYear(rows, None), ForYear(rows, Some(2024)), ForYear(rows, Some(2025)),
                  AvailableYears(rows), Distinct(Map(rows, ParkOf)));
  }

  /** Under "todos", "2024" and "2025" the built document holds the figures of every year, of 2024 and of 2025. */
  lemma BuildYearFigures(rows: seq<Record>)
    ensures var doc := Build(rows);
      doc.fields["todos"] == Encode(ForYear(rows, None)) &&
      doc.fields["2024"] == Encode(ForYear(rows, Some(2024))) &&
      doc.fields["2025"] == Encode(ForYear(rows, Some(2025)))
  {
    var all, y2024, y2025 := ForYear(rows, None), ForYear(rows, Some(2024)), ForYear(rows, Some(2025));
    AssembleShape(all, y2024, y2025, AvailableYears(rows), Distinct(Map(rows, ParkOf)));
  }

  /**
   * Under "anosDisponiveis" the built document lists the available years in
   * their order: ascending, each once, exactly the years of the dated records
   * (AvailableYears and AvailableYearsExact).
   */
  lemma BuildYearsList(rows: seq<Record>)
    ensures var years, ys := Build(rows).fields["anosDisponiveis"], AvailableYears(rows);
      years.Arr? && |years.items| == |ys| && forall i :: 0 <= i < |ys| ==> years.items[i] == Num(ys[i] as real)
  {
  }

  /**
   * Under "parques" the built document lists the sheet's parks as `unique()`
   * gives them: each once, in order of first appearance (Distinct and
   * DistinctOrder).
   */
  lemma BuildParksList(rows: seq<Record>)
    ensures var parks, ps := Build(rows).fields["parques"], Distinct(Map(rows, ParkOf));
      parks.Arr? && |parks.items| == |ps| && forall i :: 0 <= i < |ps| ==> parks.items[i] == Str(ps[i])
  {
  }

  /** Adds an empty list under every key of `keys` that `fields` lacks. */
  function WithLists(fields: map<string, JsValue>, keys: seq<string>): (r: map<string, JsValue>)
    ensures r.Keys == fields.Keys + set k | k in keys
    ensures forall k :: k in keys ==> k in r
    ensures forall k :: k in fields ==> k in r && r[k] == fields[k]
    ensures forall k :: k in r && k !in fields ==> k in keys && r[k] == Arr([])
  {
    if |keys| == 0 then fields
    else
      var rest := WithLists(fields, keys[1..]);
      assert forall k :: k in keys ==> k == keys[0] || k in keys[1..];
      if keys[0] in rest then rest else rest[keys[0] := Arr([])]
  }

  /** The last pass: each year document gets an empty list under any missing list key. */
  function EnsureLists(doc: JsValue): (r: JsValue)
    requires YearShaped(doc)
    ensures r.Obj? && r.fields.Keys == doc.fields.Keys
    ensures YearShaped(r) && ListsPresent(r)
  {
    var f := doc.fields;
    Obj(f["todos" := FillLists(f["todos"])]["2024" := FillLists(f["2024"])]["2025" := FillLists(f["2025"])])
  }

  /** The pass touches only the three year documents: every other key keeps its value. */
  lemma EnsureListsFrame(doc: JsValue)
    requires YearShaped(doc)
    ensures forall k :: k in doc.fields && k != "todos" && k != "2024" && k != "2025" ==>
      EnsureLists(doc).fields[k] == doc.fields[k]
  {
    var f := doc.fields;
    var g := f["todos" := FillLists(f["todos"])]["2024" := FillLists(f["2024"])]["2025" := FillLists(f["2025"])];
    assert EnsureLists(doc).fields == g;
  }

  /** Each year document is replaced by its filled-in version. */
  lemma EnsureListsYears(doc: JsValue)
    requires YearShaped(doc)
    ensures EnsureLists(doc).fields["todos"] == FillLists(doc.fields["todos"])
    ensures EnsureLists(doc).fields["2024"] == FillLists(doc.fields["2024"])
    ensures EnsureLists(doc).fields["2025"] == FillLists(doc.fields["2025"])
  {
    var f := doc.fields;
    var g := f["todos" := FillLists(f["todos"])]["2024" := FillLists(f["2024"])]["2025" := FillLists(f["2025"])];
    assert EnsureLists(doc).fields == g;
  }

  /** One year document with its missing list keys filled in. */
  function FillLists(v: JsValue): (r: JsValue)
    requires v.Obj?
    ensures r.Obj? && HasLists(r.fields)
    ensures forall k :: k in r.fields <==> k in v.fields || k in ListKeys
    ensures forall k :: k in v.fields ==> r.fields[k] == v.fields[k]
    ensures forall k :: k in r.fields && k !in v.fields ==> r.fields[k] == Arr([])
    ensures HasLists(v.fields) ==> r == v
  {
    var w := WithLists(v.fields, ListKeys);
    assert HasLists(w) by {
      assert forall k :: k in ListKeys ==> k in w;
      assert "substituicoesPorParque" in ListKeys && "statusCallipers" in ListKeys && "substituicoesPorMes" in ListKeys;
      assert "percentualTipoSubstituicao" in ListKeys && "posicaoCallipers" in ListKeys && "maquinasProblema" in ListKeys;
    }
    if HasLists(v.fields) then
      HasListsAll(v.fields);
      WithListsNoop(v.fields, ListKeys);
      v
    else Obj(w)
  }

  /** The pass changes nothing in a document whose year documents already hold every list key. */
  lemma EnsureListsKeeps(doc: JsValue)
    requires YearShaped(doc) && ListsPresent(doc)
    ensures EnsureLists(doc) == doc
  {
    var f := doc.fields;
    assert f["todos" := f["todos"]]["2024" := f["2024"]]["2025" := f["2025"]] == f;
  }

  /** So on the producer's own document the pass is a no-op. */
  lemma EnsureListsNoop(rows: seq<Record>)
    ensures YearShaped(Build(rows)) && EnsureLists(Build(rows)) == Build(rows)
  {
    BuildShape(rows);
    EnsureListsKeeps(Build(rows));
  }

  lemma {:induction false} WithListsNoop(fields: map<string, JsValue>, keys: seq<string>)
    requires forall k :: k in keys ==> k in fields
    ensures WithLists(fields, keys) == fields
  {
    if |keys| > 0 {
      WithListsNoop(fields, keys[1..]);
    }
  }
}
