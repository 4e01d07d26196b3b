/**
 * The component's data state: the loaded document (`dashboardData`), the
 * active year key (`anoFiltro`, initially "todos") and the slice every
 * widget reads (`dadosFiltrados`). Events are pure transitions; the effect
 * that re-selects the slice whenever the key or the document changes is the
 * transition `Sync`.
 */
module ViewSelector {
  import opened JsValues

  datatype State = State(dashboardData: JsValue, anoFiltro: string, dadosFiltrados: JsValue)

  const AllYears: string := "todos"

  /** Both pieces of data state start as `null`; the filter starts on all years. */
  const Initial: State := State(Null, AllYears, Null)

  /**
   * The fetch resolving with parsed document `data`: the document is stored,
   * then the slice is set to `data.todos`. For a `null` document reading
   * `.todos` throws after the first update, so only the document is stored.
   */
  function Load(st: State, data: JsValue): (r: State)
    ensures r.dashboardData == data && r.anoFiltro == st.anoFiltro
    ensures !Nullish(data) ==> r.dadosFiltrados == Get(data, AllYears)
    ensures Nullish(data) ==> r.dadosFiltrados == st.dadosFiltrados
  {
    if Nullish(data) then st.(dashboardData := data)
    else st.(dashboardData := data, dadosFiltrados := Get(data, AllYears))
  }

  /** `handleFiltrar(key)`: only the key changes. */
  function SetFilter(st: State, key: string): (r: State)
    ensures r.anoFiltro == key
    ensures r.dashboardData == st.dashboardData && r.dadosFiltrados == st.dadosFiltrados
  {
    st.(anoFiltro := key)
  }

  /** The effect on `[anoFiltro, dashboardData]`: with a document loaded, the slice becomes `dashboardData[anoFiltro]`. */
  function Sync(st: State): (r: State)
    ensures r.dashboardData == st.dashboardData && r.anoFiltro == st.anoFiltro
    ensures Truthy(st.dashboardData) ==> r.dadosFiltrados == Get(st.dashboardData, st.anoFiltro)
    ensures !Truthy(st.dashboardData) ==> r == st
  {
    if Truthy(st.dashboardData) then st.(dadosFiltrados := Get(st.dashboardData, st.anoFiltro))
    else st
  }

  /** A filter click as the user sees it: the key changes and the effect runs. */
  function ChooseYear(st: State, key: string): (r: State)
    ensures r.anoFiltro == key && r.dashboardData == st.dashboardData
    ensures Truthy(st.dashboardData) ==> r.dadosFiltrados == Get(st.dashboardData, key)
    ensures !Truthy(st.dashboardData) ==> r.dadosFiltrados == st.dadosFiltrados
  {
    Sync(SetFilter(st, key))
  }

  /** The loading screen is rendered exactly when the document or the slice is falsy. */
  predicate ShowsLoading(st: State)
    ensures Nullish(st.dashboardData) || Nullish(st.dadosFiltrados) ==> ShowsLoading(st)
    ensures st.dashboardData.Obj? && st.dadosFiltrados.Obj? ==> !ShowsLoading(st)
  {
    !Truthy(st.dashboardData) || !Truthy(st.dadosFiltrados)
  }

  /** Before any document arrives the loading screen shows. */
  lemma InitialLoading()
    ensures ShowsLoading(Initial)
  {
  }

  /** Loading a document on the initial key leaves the slice `data.todos`, also after the effect runs. */
  lemma LoadShowsAllYears(data: JsValue)
    requires Truthy(data)
    ensures Load(Initial, data).dadosFiltrados == Get(data, AllYears)
    ensures Sync(Load(Initial, data)) == Load(Initial, data)
  {
  }

  /** If the key changed while the fetch was pending, the effect then selects that key's slice, not `todos`. */
  lemma LoadThenSync(st: State, data: JsValue)
    requires Truthy(data)
    ensures Sync(Load(st, data)).dadosFiltrados == Get(data, st.anoFiltro)
  {
  }

  /** With a document loaded, filtering shows `data[key]` and changes nothing but the key and the slice. */
  lemma FilterSelects(st: State, key: string)
    requires Truthy(st.dashboardData)
    ensures ChooseYear(st, key).dadosFiltrados == Get(st.dashboardData, key)
    ensures ChooseYear(st, key).dashboardData == st.dashboardData
    ensures ChooseYear(st, key).anoFiltro == key
  {
  }

  /** Applying the same key twice gives the same state as applying it once; re-running the effect is invisible. */
  lemma FilterIdempotent(st: State, key: string)
    ensures ChooseYear(ChooseYear(st, key), key) == ChooseYear(st, key)
    ensures Sync(Sync(st)) == Sync(st)
  {
  }

  /** Only the last filter click matters once a document is loaded. */
  lemma LastFilterWins(st: State, k1: string, k2: string)
    requires Truthy(st.dashboardData)
    ensures ChooseYear(ChooseYear(st, k1), k2) == ChooseYear(st, k2)
  {
  }

  /** Without a document, clicks change the key but the loading screen stays. */
  lemma FilterBeforeLoad(st: State, key: string)
    requires !Truthy(st.dashboardData)
    ensures ChooseYear(st, key).dadosFiltrados == st.dadosFiltrados
    ensures ShowsLoading(ChooseYear(st, key))
  {
  }

  /**
   * With a document loaded, the loading screen shows after a filter exactly
   * when the key's slice is falsy — in particular for a key the document
   * lacks, which looks the same as not being loaded yet.
   */
  lemma LoadingIffSliceMissing(st: State, key: string)
    requires Truthy(st.dashboardData)
    ensures ShowsLoading(ChooseYear(st, key)) <==> !Truthy(Get(st.dashboardData, key))
    ensures st.dashboardData.Obj? && key !in st.dashboardData.fields ==> ShowsLoading(ChooseYear(st, key))
  {
  }

  /** The scenario: all years has 47 turbines, 2024 has one bypass, and 2026 is absent. */
  lemma Scenario()
    ensures
      var todos := Obj(map["totalTurbinas" := Num(47.0), "callipersByPass" := Num(3.0)]);
      var y2024 := Obj(map["totalTurbinas" := Num(47.0), "callipersByPass" := Num(1.0)]);
      var data := Obj(map["todos" := todos, "2024" := y2024]);
      var loaded := Load(Initial, data);
      && Get(loaded.dadosFiltrados, "totalTurbinas") == Num(47.0)
      && Get(ChooseYear(loaded, "2024").dadosFiltrados, "callipersByPass") == Num(1.0)
      && ChooseYear(loaded, "2026").dadosFiltrados == Undefined
      && ShowsLoading(ChooseYear(loaded, "2026"))
  {
  }
}
