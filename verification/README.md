# Caliper-replacement dashboard — a Dafny model

The dashboard has two halves. A Python producer reads the spreadsheet of
caliper interventions, one record per caliper, and computes figures for every
year and for 2024 and 2025. These are the year selection, "real
substitutions" (a part replaced, and the status not a problem), "problem
machines" (status matching `by.pass|bypass|sem vazamento|pendente`),
distinct-turbine counts, group counts, O-Ring/pad tallies with percentages,
and the problem report rows. It writes them, with colours attached, as one
JSON document. A React component reads that document. Its view logic is:

- the year-filter state with its loading guard;
- the safe readers `getSafeArray`/`getSafeNumber`;
- the red-to-green colour interpolator;
- the numeric sort of the "Calliper N" position labels;
- the problem-machine table;
- the recommended-action list, gated on positive counts.

The model covers both halves as pure functions over immutable data. The
spreadsheet is a sequence of `Sheet.Record`. The JSON document is a
`JsValues.JsValue` with JavaScript truthiness. Dates are abstract
(year, month, day) values.

| file | module | what it holds |
|---|---|---|
| optional.dfy | Optional | `Option` |
| numerals.dfy | Numerals | `toString(radix)`, `padStart`, reading digits back |
| text.dfy | Text | ASCII `lower`, Python `strip`, JavaScript `replace` (first occurrence) |
| patterns.dfy | Patterns | the regular-expression fragment the status rules use, and substring search |
| seqs.dfy | Seqs | order-preserving selection (`df[mask]`), mapping, first-appearance de-duplication (`unique`) |
| grouping.dfy | Grouping | `groupby(...).size()` / `value_counts()` as (key, count) groups |
| js_value.dfy | JsValues, SafeAccess | JSON values, `||`, property access; `getSafeArray`, `getSafeNumber` |
| color.dfy | Color | `calcularCorHex` |
| position_sort.dfy | PositionSort | `parseInt`, the position key, the stable sort by it |
| view_selector.dfy | ViewSelector | `dashboardData` / `anoFiltro` / `dadosFiltrados` transitions and the loading guard |
| report_rows.dfy | ReportRows | problem-table rows, badges, date cells, action items, metric cards |
| sheet.dfy | Sheet | raw and filled-in records, `fillna` defaults, `strftime('%Y-%m-%d')` |
| status_rules.dfy | StatusRules | the three status patterns |
| metrics.dfy | Metrics | `calcular_dados_por_ano` |
| dashboard.dfy | Dashboard | colour tables, JSON encoding, the whole document, the "ensure arrays" pass |
| integration.dfy | Integration | what the component shows for a document the producer built |

## Model

| member | source | states |
|---|---|---|
| Color.ColorHex | src/App.jsx:56-64 | the colour is `#` plus six lower-case hex digits; red reads back as floor(255·(max−q)/max), green as floor(255·q/max), and blue is always `32` |
| Color.ChannelBounds | src/App.jsx:57-60 | for 0 ≤ q ≤ max, both channels are within 0..255 |
| Color.Endpoints | src/App.jsx:56-63 | with the default max 47, quantity 0 gives `#ff0032` and 47 gives `#00ff32` |
| Color.Monotone | src/App.jsx:57-60 | as the quantity rises, red never increases and green never decreases |
| Color.Complementary | src/App.jsx:57-60 | red + green is 255 when the ratio lands on an integer and 254 otherwise |
| Color.Hex2 | src/App.jsx:63 | a byte renders as two lower-case hex digits that read back as the byte |
| Color.Hex2IsPaddedToString | src/App.jsx:63 | that rendering is exactly `n.toString(16).padStart(2, '0')` |
| Color.BlueDigits | src/App.jsx:61-63 | blue 50 renders as `32` |
| Numerals.ToRadixRoundTrip | src/App.jsx:63 | `toString(radix)` reads back as the number and uses only lower-case digits |
| Numerals.ToRadixNoLeadingZero | src/App.jsx:63 | the rendering of a positive number never starts with `0` |
| Numerals.ZeroPaddedRoundTrip | src/App.jsx:63 | left-padding with zeros does not change the value read back |
| Numerals.PadStart | src/App.jsx:63 | `padStart`: the result is at least `width` long, ends with the input, and is fill characters before it |
| SafeAccess.SafeArray | src/App.jsx:246 | an array comes back unchanged and anything else becomes `[]` |
| SafeAccess.SafeNumber | src/App.jsx:247 | a truthy value comes back unchanged and a falsy one becomes 0 |
| SafeAccess.SafeNumberNeverNullish | src/App.jsx:247 | the result is never null or undefined; it is truthy or exactly 0 |
| SafeAccess.SafeNumberFalsyInputs | src/App.jsx:247 | `undefined`, `null`, `0`, `""` and `false` all read as 0 |
| SafeAccess.SafeArrayIdempotent | src/App.jsx:246 | applying `getSafeArray` twice is applying it once |
| SafeAccess.SafeNumberIdempotent | src/App.jsx:247 | applying `getSafeNumber` twice is applying it once |
| JsValues.Or | src/App.jsx:247 | `a \|\| b` is `a` when `a` is truthy and `b` otherwise |
| PositionSort.ParseDecimal | src/App.jsx:558-559 | `parseInt` of a number's decimal rendering gives the number back |
| PositionSort.ParseInt | src/App.jsx:558-559 | a text without a decimal digit parses to NaN |
| PositionSort.ParseSigned | src/App.jsx:558-559 | after the white space, a text without a decimal digit is NaN |
| PositionSort.ParseSkipsSpace | src/App.jsx:558-559 | leading white space does not change the result |
| PositionSort.PositionKey | src/App.jsx:558-559 | an entry that is absent or whose `Posicao` is not a string has no key |
| PositionSort.Sort | src/App.jsx:556-561 | the sorted copy has as many entries as the input |
| PositionSort.LabelKey | src/App.jsx:558-559 | the key of `"Calliper " + decimal(n)` is n |
| PositionSort.KeyLeTotalOrder | src/App.jsx:556-561 | the comparator's order on keys is reflexive, total, antisymmetric and transitive |
| PositionSort.SortPermutes | src/App.jsx:556-561 | the sorted copy is a permutation of the input: the same entries, as many times each |
| PositionSort.SortSorted | src/App.jsx:556-561 | the sorted list is ascending by its key; the chart's key is the number after `"Calliper "` |
| PositionSort.SortStable | src/App.jsx:556-561 | entries with equal keys keep their input order |
| PositionSort.SortedUnique | src/App.jsx:580-585 | two ascending lists that agree on the order of each key's entries are equal |
| PositionSort.SortCharacterised | src/App.jsx:580-585 | so the bar cells, sorted by the same comparator, come out in the bars' order |
| PositionSort.NumericNotLexicographic | src/App.jsx:556-561 | "Calliper 10", "Calliper 2", "Calliper 1" sort to 1, 2, 10 |
| ViewSelector.Load | src/App.jsx:43-44 | loading stores the document and sets the slice to `data.todos` |
| ViewSelector.SetFilter | src/App.jsx:66-68 | a filter click changes only the key |
| ViewSelector.Sync | src/App.jsx:49-53 | once a document is loaded, the effect sets the slice to `dashboardData[anoFiltro]`, and it changes nothing before |
| ViewSelector.ChooseYear | src/App.jsx:49-68 | a filter click followed by the effect: the key is the clicked one; with a document loaded the slice is its entry for that key |
| ViewSelector.ShowsLoading | src/App.jsx:250 | an absent document or slice shows the loading screen; an object document and slice do not |
| ViewSelector.InitialLoading | src/App.jsx:27-29 | the initial state shows the loading screen |
| ViewSelector.LoadShowsAllYears | src/App.jsx:43-44 | after loading on the initial key the slice is `data.todos`, and the effect keeps it |
| ViewSelector.LoadThenSync | src/App.jsx:43-53 | a key chosen before the fetch resolves wins once the effect runs |
| ViewSelector.FilterSelects | src/App.jsx:49-53 | after a filter change the slice is the document's entry for that key, and the document is unchanged |
| ViewSelector.FilterIdempotent | src/App.jsx:66-68 | applying the same key twice gives the same state as applying it once |
| ViewSelector.LastFilterWins | src/App.jsx:66-68 | after two filter changes only the last key matters |
| ViewSelector.FilterBeforeLoad | src/App.jsx:49-53 | before a document is loaded a filter change moves only the key |
| ViewSelector.LoadingIffSliceMissing | src/App.jsx:250 | with a document loaded, the loading screen shows exactly when the chosen key's slice is missing or falsy |
| ViewSelector.Scenario | src/App.jsx:43-53 | load, choose 2024, choose an unknown year: view todos, then 2024, then loading |
| ReportRows.BadgeIff | src/App.jsx:829-837 | the badge is red exactly when the lower-cased status contains "by-pass"; a missing status is yellow |
| ReportRows.BadgeExamples | src/App.jsx:829-837 | "By-Pass — urgent" is red, "Sem vazamento" is yellow, and no status is yellow |
| ReportRows.Cell | src/App.jsx:825-836 | a cell shows its value when truthy and `N/A` otherwise, so it is never falsy |
| ReportRows.DateColumn | src/App.jsx:840-843 | a present date other than "Data Não Informada" is localised; the sentinel shows as it is; a falsy date shows `N/A` |
| ReportRows.RenderRow | src/App.jsx:824-843 | a row's cells, badge and date cell follow those rules for its machine |
| ReportRows.RenderTable | src/App.jsx:822-857 | an empty list renders one placeholder row; otherwise there is one machine row per entry, in order |
| ReportRows.ProblemTable | src/App.jsx:271 | an array list renders as the table of its items; a missing or non-array list renders the placeholder |
| ReportRows.NoBlankCells | src/App.jsx:826-843 | every text cell of a row is truthy |
| ReportRows.Actions | src/App.jsx:759-791 | each recommended action appears exactly when its `getSafeNumber` count is above 0, carrying that count; the list holds only those three actions, in display order: seals replaced, then no leak, then bypassed |
| ReportRows.MissingCountHidden | src/App.jsx:759-791 | an absent count never shows its action |
| ReportRows.Cards | src/App.jsx:358-392 | five cards, never null: `getSafeNumber` of `totalTurbinas`, `totalCallipers`, `callipersSubstituidos`, then of the bypass and no-leak keys |
| ReportRows.StatusBadge | src/App.jsx:829-837 | an absent status gets the yellow badge |
| ReportRows.Offered | src/App.jsx:759-790 | `getSafeNumber(v) > 0` holds exactly for a positive number and for `true` |
| Text.Lower | calculate_metrics.py:68 | lower-casing keeps the length and maps each character |
| Text.LowerIdempotent | calculate_metrics.py:68 | lower-casing twice is lower-casing once |
| Text.Strip | calculate_metrics.py:225 | the stripped text is no longer than the input and, when not empty, neither starts nor ends with whitespace |
| Text.StripShape | calculate_metrics.py:225 | `strip` removes the leading and trailing whitespace and keeps the middle |
| Text.StripIdempotent | calculate_metrics.py:225 | stripping twice is stripping once |
| Text.LowerStripIdempotent | calculate_metrics.py:225 | re-normalising an already lower-cased, stripped key changes nothing |
| Text.ReplaceLeading | src/App.jsx:558 | `replace('Calliper ', '')` on a prefixed label returns the rest |
| Patterns.SearchIff | calculate_metrics.py:68 | the left-to-right search succeeds exactly when the pattern matches at some position |
| Patterns.LiteralSearchIff | src/App.jsx:831 | searching for a plain string is substring containment (`includes`) |
| Patterns.SearchAnyIff | calculate_metrics.py:68 | an alternation matches exactly when one alternative does |
| Patterns.SearchAnyAppend | calculate_metrics.py:78-82 | splitting an alternation into two groups splits the match |
| Patterns.AbsentAtom | calculate_metrics.py:68 | a pattern needing a character the text lacks never matches |
| StatusRules.ProblemSplits | calculate_metrics.py:68-82 | the four-way problem pattern holds exactly when the bypass or the no-leak pattern does |
| StatusRules.HyphenatedIsBypass | calculate_metrics.py:78 | a status containing "by-pass" is a bypass, since the dot matches the hyphen |
| StatusRules.CaseInsensitive | calculate_metrics.py:68 | a status and its lower-cased form are classified alike |
| StatusRules.BypassExamples | calculate_metrics.py:212-214 | "By-Passado" and "Bypassado" are bypasses |
| StatusRules.NoLeakExamples | calculate_metrics.py:215-216 | "Sem vazamento" and "Pendente" match the no-leak pattern |
| StatusRules.DefaultNotProblem | calculate_metrics.py:47 | the filled-in "Não Informado", and an empty status, are not problems |
| Seqs.Filter | calculate_metrics.py:54 | a boolean-mask selection: every kept element matches, and every matching element is kept |
| Seqs.FilterCount | calculate_metrics.py:54 | each matching element is kept as many times as it occurs, duplicates included; others not at all |
| Seqs.PositionsFrom | calculate_metrics.py:54 | the positions whose element matches, strictly ascending, and all of them |
| Seqs.FilterAtPositions | calculate_metrics.py:54 | the selection is the input read at exactly those positions, in order: it keeps the row order |
| Seqs.FilterThen | calculate_metrics.py:61-69 | two successive masks select by their conjunction |
| Seqs.FilterExclusive | calculate_metrics.py:191-193 | selections by exclusive predicates together take at most every element once |
| Seqs.Distinct | calculate_metrics.py:74 | `unique()` has no duplicates and the same members as its input |
| Seqs.FirstIndex | calculate_metrics.py:208 | the position of a value's first occurrence: it holds the value and no earlier position does |
| Seqs.WithoutOrder | calculate_metrics.py:208 | removing every occurrence of a third value keeps the order of two values' first occurrences |
| Seqs.DistinctOrder | calculate_metrics.py:208 | `unique()` lists the values in order of their first appearance |
| Seqs.DistinctOrderStep | calculate_metrics.py:208 | the head of the input comes first, and the order of the rest carries over |
| Seqs.DistinctSubsetBound | calculate_metrics.py:79-83 | a sub-collection has no more distinct values than the whole |
| Grouping.GroupCountContents | calculate_metrics.py:86 | groups have distinct keys, each counting that key's occurrences (at least 1), and every value has its group |
| Grouping.GroupCountLookup | calculate_metrics.py:90 | a key's group count is its number of occurrences, 0 when absent |
| Grouping.GroupCountTotal | calculate_metrics.py:86-97 | the group counts add up to the number of values grouped |
| Grouping.GroupCount | calculate_metrics.py:86-90 | one group per distinct value, in order of first appearance |
| Sheet.FillDefaults | calculate_metrics.py:43-47 | empty park, turbine, position, status and technician cells become "Não Informado", a "-" technician too; dates are untouched |
| Sheet.FillDefaultsIdempotent | calculate_metrics.py:43-47 | the technician is never left as "-", and filling again changes nothing |
| Sheet.FillAll | calculate_metrics.py:43-47 | the defaults apply to every record, keeping the order and the count |
| Sheet.IsoDate | calculate_metrics.py:170 | `YYYY-MM-DD`: ten characters, dashes at 4 and 7, digits elsewhere; month and day read back |
| Sheet.IsoDateYear | calculate_metrics.py:170 | the first four characters read back as the year |
| Metrics.YearFilter | calculate_metrics.py:53-56 | with a year, the mask selection of the records dated in that year; without one, or with 0, every record |
| Metrics.YearFilterExact | calculate_metrics.py:53-54 | a year's selection holds each of its records as often as the sheet does, in sheet order |
| Metrics.YearsDisjoint | calculate_metrics.py:191-193 | two years' selections share no record and together count at most all calipers |
| Metrics.RealSubstitutions | calculate_metrics.py:61-69 | exactly the records with an O-Ring or pad date whose status is not a problem |
| Metrics.ProblemMachines | calculate_metrics.py:140-142 | the mask selection of the records whose status is a problem |
| Metrics.ProblemMachinesExact | calculate_metrics.py:140-142 | it holds every problem record as often as it occurs, in record order, and nothing else |
| Metrics.RealAndProblemDisjoint | calculate_metrics.py:67-69 | no record is both, so together they fit within the year |
| Metrics.TurbinesBound | calculate_metrics.py:74-83 | distinct turbines of a selection ≤ distinct turbines of the year ≤ calipers |
| Metrics.Turbines | calculate_metrics.py:74-83 | `nunique()`: the number of different turbine names among the records |
| Metrics.TallyBounds | calculate_metrics.py:108-114 | O-Ring plus pad replacements lie between one and two per real substitution |
| Metrics.Percent | calculate_metrics.py:122-123 | 0 for an empty total, otherwise within 0..100 |
| Metrics.PercentsSum | calculate_metrics.py:122-127 | with a positive total the two percentages sum to exactly 100 |
| Metrics.TypeTable | calculate_metrics.py:129-133 | two rows, O-Ring first, carrying both counts; both 0 % or summing to 100 % |
| Metrics.OrDefault | calculate_metrics.py:156-163 | an empty cell takes its default; the result is never empty |
| Metrics.DateText | calculate_metrics.py:170 | the ISO date when present, "Data Não Informada" exactly when absent |
| Metrics.ToProblemRow | calculate_metrics.py:149-171 | a report row has non-empty turbine, park, position and status, each defaulted when empty |
| Metrics.ProblemRows | calculate_metrics.py:148-171 | one report row per problem machine, in record order |
| Metrics.ForYear | calculate_metrics.py:52-188 | every field from its own selection of the year: distinct turbines of the year, of its bypassed and of its no-leak records; calipers; real substitutions; park, status, month and position groups; the type table; the problem report |
| Metrics.CardBounds | calculate_metrics.py:74-83 | replaced + problem ≤ calipers; bypass and no-leak turbines ≤ turbines ≤ calipers |
| Metrics.GroupTotals | calculate_metrics.py:86-137 | park and position groups sum to the replaced calipers; months sum to the replaced calipers that have a date, so to at most that; statuses sum to all calipers |
| Metrics.MonthOf | calculate_metrics.py:95-98 | a dated record's month text is seven characters with a dash at 4; an undated one has none |
| Metrics.MonthOfPeriod | calculate_metrics.py:95-98 | two dated records share a month group exactly when their year and month agree |
| Metrics.TypeTableTotals | calculate_metrics.py:108-133 | the type table's counts lie between one and two per replaced caliper, percentages summing to 100 when any |
| Metrics.ProblemStatusKept | calculate_metrics.py:162-163 | a problem status is never empty, so "Status Não Informado" never appears |
| Metrics.FilledDefaultWins | calculate_metrics.py:156-159 | an empty turbine or park cell reaches the report as "Não Informado", never as the row default |
| Dashboard.LookupOr | calculate_metrics.py:226 | `dict.get(key, default)` |
| Dashboard.StatusColor | calculate_metrics.py:224-226 | a status colour is a colour of the table or grey; a listed normalised status gets its table colour |
| Dashboard.TypeColor | calculate_metrics.py:228-232 | blue exactly for "O-Ring", amber otherwise |
| Dashboard.PositionColor | calculate_metrics.py:234-237 | a listed trimmed position gets its table colour, any other grey |
| Dashboard.StatusColorNormalised | calculate_metrics.py:225-226 | the status colour ignores case and surrounding whitespace |
| Dashboard.StatusColorRange | calculate_metrics.py:212-226 | every status colour is in the table's palette, and an unlisted status is grey |
| Dashboard.BypassStatusRed | calculate_metrics.py:212-226 | "By-Passado" is red: the lookup lower-cases before matching |
| Dashboard.DefaultStatusGrey | calculate_metrics.py:219-226 | the filled-in "Não Informado" is grey |
| Dashboard.TypeColors | calculate_metrics.py:228-232 | the O-Ring row is blue and the pad row amber |
| Dashboard.PrefixedPositionGrey | calculate_metrics.py:234-237 | a position labelled "Calliper …" never matches the keys "1".."5", so it is always grey |
| Dashboard.Encode | calculate_metrics.py:176-188 | a year document is an object holding all six list keys; its fields are stated by EncodeFields and the five list lemmas below |
| Dashboard.EncodeFields | calculate_metrics.py:177-187 | the document has `totalTurbinas`, `totalCallipers`, `turbinasByPass`, `turbinasSemVazamento` and `callipersSubstituidos` with the computed counts, and the problem list item by item |
| Dashboard.EncodeParks | calculate_metrics.py:182 | one park item per group, in group order, with the park and its count |
| Dashboard.EncodeStatuses | calculate_metrics.py:223-226 | one status item per group, in group order, with the status, its count and the status colour |
| Dashboard.EncodeMonths | calculate_metrics.py:184 | one month item per group, in group order, with the month and its count |
| Dashboard.EncodeTypes | calculate_metrics.py:228-232 | one type item per table row, with the type, percentage, count and the type colour |
| Dashboard.EncodePositions | calculate_metrics.py:234-237 | one position item per group, in group order, with the position, its count and the position colour |
| Dashboard.EncodeOmits | calculate_metrics.py:176-188 | the document has no `callipersByPass` or `callipersSemVazamento` key |
| Dashboard.SortAscending | calculate_metrics.py:198 | `list.sort()`: ascending, a permutation |
| Dashboard.AvailableYears | calculate_metrics.py:196-198 | the available years are ascending |
| Dashboard.AvailableYearsExact | calculate_metrics.py:196-198 | they are exactly the years of the dated records, each once |
| Dashboard.Assemble | calculate_metrics.py:203-209 | the document has exactly the keys "todos", "2024", "2025", "anosDisponiveis" and "parques"; the years and parks are listed in order |
| Dashboard.Build | calculate_metrics.py:191-209 | the built document has exactly those five keys |
| Dashboard.BuildYearFigures | calculate_metrics.py:191-206 | "todos", "2024" and "2025" hold the figures of every year, of 2024 and of 2025 |
| Dashboard.BuildYearsList | calculate_metrics.py:196-207 | "anosDisponiveis" lists the available years, item by item in their ascending order |
| Dashboard.BuildParksList | calculate_metrics.py:208 | "parques" lists the distinct parks, item by item in order of first appearance |
| Dashboard.AssembleShape | calculate_metrics.py:203-209 | "todos", "2024" and "2025" hold the three year documents, and there is no other year key |
| Dashboard.BuildShape | calculate_metrics.py:203-209 | every year document of the built document holds all six list keys |
| Dashboard.WithLists | calculate_metrics.py:241-244 | every listed key becomes present, existing keys are kept, and added ones hold `[]` |
| Dashboard.EnsureLists | calculate_metrics.py:239-244 | after the pass every year document holds all six list keys, and the document has the same keys |
| Dashboard.EnsureListsFrame | calculate_metrics.py:239-244 | every key other than the three year keys keeps its value |
| Dashboard.EnsureListsYears | calculate_metrics.py:239-244 | each year document is replaced by its `FillLists` version |
| Dashboard.FillLists | calculate_metrics.py:242-244 | a year document gains exactly the missing list keys, each holding `[]`; every existing field keeps its value |
| Dashboard.EnsureListsKeeps | calculate_metrics.py:239-244 | the pass changes nothing when the keys are already there |
| Dashboard.EnsureListsNoop | calculate_metrics.py:239-244 | so on the producer's own document the pass is a no-op |
| Integration.BypassCardAlwaysZero | src/App.jsx:381-388 | for every producer document, the bypass and no-leak cards read 0 and only the "replaced" action can appear |
| Integration.CorrectedCardsShowCounts | calculate_metrics.py:179-180 | read under the producer's keys, the bypass and no-leak cards show the year's `turbinasByPass` and `turbinasSemVazamento`, and their actions appear exactly when those are positive |
| Integration.CorrectedCards | src/App.jsx:358-392 | the corrected cards 1, 4 and 5 show the year's turbine, bypass and no-leak counts |
| Integration.CorrectedCardsFromSheet | calculate_metrics.py:74-83 | for a year computed from a sheet, those cards show the distinct turbines of the year, of its bypassed records and of its no-leak records |
| Integration.MissingYearLoads | src/App.jsx:250 | choosing a year the document lacks shows the loading screen; 2024 and the initial view do not |
| Integration.ProblemDateCell | src/App.jsx:840-843 | a report date cell is localised exactly when the record had a date |
| Integration.MissingStatusPending | src/App.jsx:829-837 | a record without a status shows "Status Não Informado" with the yellow badge |
| Integration.RedBadgeIsBypass | src/App.jsx:829-837 | a red badge always marks a record that has a status and that the producer counts as bypassed |
| Integration.BypassadoPendingBadge | src/App.jsx:829-837 | the converse fails: "Bypassado" is a bypass for the producer but gets the yellow badge |
| Integration.ProblemTableOfDocument | src/App.jsx:822-857 | every producer problem item renders, one row each (or the placeholder); each date cell follows the date text |

## Findings

| source | as written | input that shows it | evidently intended | confidence | as-written member | corrected member |
|---|---|---|---|---|---|---|
| src/App.jsx:381 | the bypass and no-leak cards and actions (381, 388, 770, 781) read `callipersByPass` and `callipersSemVazamento`; the producer writes `turbinasByPass` and `turbinasSemVazamento` (calculate_metrics.py:179-180) | any spreadsheet with a status "By-Passado": the producer counts 1 bypassed turbine, but the card shows 0 and no bypass action appears | the component reads the keys the producer writes | high; not executed | Integration.BypassCardAlwaysZero | Integration.CorrectedCardsShowCounts |

`ReportRows.Cards` and `ReportRows.Actions` take the pair of keys as a
`CountFields` argument. `ComponentFields` is the code as written and
`ProducerFields` is the correction.

## Left out

- Fetching and parsing the JSON, console output, page reload and the export button: I/O.
- The JSX, styling, chart and icon components, tabs and hover state: presentation only.
- Excel loading, column renaming, file writing and prints in the producer: I/O.
- Date parsing (`to_datetime(errors='coerce')`) and `toLocaleDateString('pt-BR')`: dates are abstract. A cell that does not parse is absent, and a localised cell is recorded as "localised", not as text.
- The ad-hoc colour ladders the charts apply by exact status (src/App.jsx:512-518, 734-737): presentation.
- Text.Lower: ASCII only. Python `lower()` and JavaScript `toLowerCase()` also fold non-ASCII letters, so "NÃO" stays "nÃo" here.
- Text.Strip: strips ASCII whitespace only. Python also strips other Unicode spaces.
- Color.ColorHex: integer arithmetic is exact, while the source computes in floating point. For the default max 47 the two agree, because 47 never divides 255·k for 0 < k < 47, so no exact value lies within rounding error of an integer. Other maxima are not checked.
- Color.ColorHex: quantities outside 0..max are a precondition. The source does not clamp them.
- PositionSort.Sort: a label whose `parseInt` is NaN sorts after every number. JavaScript's order for a comparator that returns NaN is implementation-defined.
- PositionSort.PositionKey: a `null` entry, or one whose `Posicao` is not a string, has no key here. In JavaScript, `a.Posicao` on `null` throws at src/App.jsx:558, and `.replace` on a non-string throws.
- Grouping.GroupCount: groups come in first-appearance order. pandas sorts `groupby` keys and orders `value_counts` by count, so only the (key, count) contents are modelled.
- Metrics.Percent: exact rationals; floating-point rounding is not modelled.
- Sheet.Record: text cells are strings. A spreadsheet cell holding a number (a numeric WTG, say) would be a number in pandas.
- JsValues.Get: the receiver must not be `null` or `undefined`. Reading a property of either throws in JavaScript; the throw is not modelled.
- ReportRows.RenderRow: each row must be a non-null value whose `STATUS` is a string or absent. A `null` row, or a non-string `STATUS` reaching `?.toLowerCase()`, throws at src/App.jsx:825-831; the throw is not modelled.
- ReportRows.RenderTable: the same requirement on every item of the list.
- ReportRows.ProblemTable: the same requirement on every item of the slice's list.
- ReportRows.Cell: a truthy value that is not a string (`true`, an array, an object) is returned as it is. React renders `true` and `[]` as nothing and throws on an object child; that rendering is not modelled.
- ReportRows.Actions: counts must be numbers, booleans or absent. The `> 0` comparison's coercion of other values is not modelled.
- JsValues.JsValue: numbers are reals, so NaN and Infinity are not modelled.
- Dashboard.Encode: the status, type and position colours are attached while encoding, not in a later loop (calculate_metrics.py:223-237). EncodeStatuses, EncodeTypes and EncodePositions state each item's colour as that loop computes it.
- Dashboard.AvailableYears: only dated records contribute. `dropna` removes exactly the undated ones.
