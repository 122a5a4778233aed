# Radar-Saude patient dashboard: a verified model of its data logic

Radar-Saude is a Streamlit page. It merges two uploaded rosters, one of
hypertensive ("Hipertenso") and one of diabetic ("Diabético") patients. It
derives each patient's neighbourhood ("Bairro") from the address and the days
since the last visit. It then shows counts, two warnings, and a bar chart of
patients per neighbourhood for the selected patient types.

This project models the deterministic part of `streamlit_app.py` in Dafny:

- `address.dfy` (module `Address`) models `extrair_bairro`. It has a
  declarative meaning of the two regular expressions (`MatchAt`), a
  recursive scanner for the leftmost match (`Search`), Python's
  `str.strip()` (`Strip`) and whitespace set (`IsSpace`), and lemmas for the
  rule priority, the fallback and the shape of the result.
- `address_examples.dfy` (module `AddressExamples`) applies those lemmas to
  whole families of addresses.
- `table.dfy` (module `Table`) models the rows of `df_total`: tagging each
  sheet with its type, concatenating the sheets, counting rows by type, and
  adding the derived columns.
- `indicators.dfy` (module `Indicators`) models the overdue count, the
  percentage, the mean over present day counts, and the two warnings. The
  warnings are proved equal to integer conditions.
- `value_counts.dfy` (module `ValueCounts`) models pandas' `value_counts()`
  as a tally followed by an insertion sort by count.
- `dashboard.dfy` (module `Dashboard`) models the type filter and what the
  dashboard shows: a prompt to select a type, a "no data" warning, or the
  chart.
- `session.dfy` (module `App`) models `st.session_state` as a class
  `SessionState`. The stage `etapa` and the table `df_total` are fields. One
  method models a run of the upload stage and one a run of the charts stage.
  The second adds the derived columns to the stored rows in place.

The regular expressions are not run by an engine. Each group excludes `,`,
and the fixed suffix `, Porto Alegre - RS` starts with `,`. So a match at a
given start is unique: its group is the maximal run of allowed characters,
and the match exists iff that run is non-empty and followed by the suffix.
`MatchEndUnique` proves this, and `SearchFindsLeftmost` proves that the
scanner returns the leftmost match.

Behaviour of the code worth noting:

- The neighbourhood can be the empty string when the group is all whitespace
  (`AddressExamples.EmptyNeighbourhood`). It is not always a non-empty name.
- The fallback is the literal "Desconhecido".
- When every date fails to parse, the mean is NaN, not 0. So the mean warning
  does not fire.
- The chart's counts are ordered by count, largest first. `value_counts`
  sorts them.
- Merging performs no column-layout check and raises no error.

## Model

| member | source | states |
|---|---|---|
| `Address.IsSpace` | streamlit_app.py:18-23 | Python's whitespace set (`\s` and what `.strip()` removes); every whitespace character lies inside both group classes, so a group can be all whitespace |
| `Address.MatchAt` | streamlit_app.py:18-21 | the meaning of either pattern at one start; a match's group contains no ',' and stops right at the ',' that begins the city suffix |
| `Address.Strip` | streamlit_app.py:20 | `.strip()`: the result is a slice of the input, only whitespace is cut from each end, and it has no whitespace at either end |
| `Address.StripTrimmed` | streamlit_app.py:20 | stripping a string with no whitespace at its ends returns it unchanged |
| `Address.StripIdempotent` | streamlit_app.py:23 | stripping twice is the same as stripping once |
| `Address.GroupEnd` | streamlit_app.py:18 | the end of the maximal run of group characters: every character before it is in the class, and the one at it is not |
| `Address.MatchEndUnique` | streamlit_app.py:18-21 | a match of either pattern at a given start has exactly one group end: the end of the maximal run |
| `Address.TryAt` | streamlit_app.py:18-21 | at one start, returns a group end exactly when the pattern matches there |
| `Address.Search` | streamlit_app.py:18-21 | `re.search` semantics: it returns a match whose start is at or after `from` with no match starting earlier, or it returns None and no match starts at or after `from` |
| `Address.SearchFindsLeftmost` | streamlit_app.py:18-21 | when a leftmost match (i, j) exists, the scanner returns exactly (i, j) |
| `Address.NonTextFallback` | streamlit_app.py:15-16 | a missing cell (`pd.isna`), or one on which `re.search` raises, gives "Desconhecido" |
| `Address.DotRuleWins` | streamlit_app.py:18-20 | if the dot rule matches, the result is the stripped group of its leftmost match, even when the hyphen rule also matches |
| `Address.HyphenRuleApplies` | streamlit_app.py:21-23 | when the dot rule matches nowhere, the result is the stripped group of the leftmost hyphen match |
| `Address.Neighbourhood` | streamlit_app.py:17-26 | the two `re.search` calls in order: no neighbourhood exactly when neither rule matches anywhere (the result is then "Desconhecido"); which group is returned otherwise is stated by `DotRuleWins` and `HyphenRuleApplies` |
| `Address.ExtractBairro` | streamlit_app.py:14-26 | `extrair_bairro`: the result is "Desconhecido" or a neighbourhood with no whitespace at its ends and no '.' or ','; the branches are stated by `NonTextFallback`, `DotRuleWins`, `HyphenRuleApplies` and `Address.Neighbourhood` |
| `Address.MatchGroupInClass` | streamlit_app.py:18-21 | every character of a matched group is in the group's character class |
| `Address.StripKeepsGroup` | streamlit_app.py:20 | stripping keeps every character inside the group's class |
| `Address.GroupExcludes` | streamlit_app.py:18-21 | a group has no '.' and no ','; a dot-rule group also has no '-' |
| `Address.CaptureShape` | streamlit_app.py:18-23 | the stripped group of a match has no whitespace at its ends and no '.' or ','; from the dot rule it also has no '-' |
| `Address.NeighbourhoodShape` | streamlit_app.py:18-23 | any neighbourhood found has the same shape; it has no '-' whenever the dot rule matches somewhere |
| `AddressExamples.NoDotWithoutPeriod` | streamlit_app.py:18 | an address without '.' never matches the dot rule |
| `AddressExamples.HyphenAfterStreet` | streamlit_app.py:21-23 | "street - X, Porto Alegre - RS", with no '.' and no '-' in the street, gives strip(X); X may contain " - " ("A - B - C" gives "B - C") |
| `AddressExamples.DotAfterText` | streamlit_app.py:18-20 | "text. X, Porto Alegre - RS..." gives strip(X) when the text has no '.', whatever hyphen matches the text holds |
| `AddressExamples.EmptyNeighbourhood` | streamlit_app.py:18-20 | an all-whitespace group strips to "", not to the fallback |
| `Table.Label` | streamlit_app.py:48-49 | the "Tipo" text is "Hipertenso" exactly for hypertensive rows and "Diabético" exactly for diabetic rows |
| `Table.LabelInjective` | streamlit_app.py:48-49 | the two "Tipo" texts differ, so comparing texts (lines 68-69, 102) is comparing types |
| `Table.Tag` | streamlit_app.py:48-49 | tagging keeps each sheet's rows in order and sets the type on every row |
| `Table.CountKind` | streamlit_app.py:68-69 | the number of rows of a type is at most the number of rows |
| `Table.CountKindAppend` | streamlit_app.py:50 | type counts add up over a concatenation |
| `Table.CountKindTag` | streamlit_app.py:48-49 | a tagged sheet has its length as its own type's count and 0 for the other type |
| `Table.KindsPartition` | streamlit_app.py:68-70 | `total_hipertensos + total_diabeticos == total_pacientes` for any table |
| `Table.Merge` | streamlit_app.py:48-50 | `df_total` is the hypertensive rows in order, then the diabetic rows, each tagged with its type |
| `Table.MergeCounts` | streamlit_app.py:48-50 | `df_total` is the hypertensive rows in order, then the diabetic rows, each tagged; each type count is its sheet's length |
| `Table.Enrich` | streamlit_app.py:57-66 | every row gets as "Bairro" `extrair_bairro` of its address and as day count the row's given value; type and sheet columns are left unchanged |
| `Table.EnrichKeepsCounts` | streamlit_app.py:59-70 | adding the derived columns leaves the type counts unchanged |
| `Indicators.Overdue` | streamlit_app.py:72 | `sem_atendimento_6m` is at most the number of rows |
| `Indicators.Present` | streamlit_app.py:74 | the number of present day counts is at most the number of rows |
| `Indicators.DaySum` | streamlit_app.py:74 | the sum of the present day counts (pandas skips NaN); 0 when none is present |
| `Indicators.OverdueOnlyPresent` | streamlit_app.py:72 | a row with a missing day count is never overdue: overdue ≤ present, and with none present, none are overdue |
| `Indicators.Percent` | streamlit_app.py:73 | the percentage lies between 0 and 100, and is 0 for an empty table |
| `Indicators.MeanDays` | streamlit_app.py:74 | the mean is 0 for an empty table |
| `Indicators.PercentWarning` | streamlit_app.py:88-89 | `percentual_sem_6m > 50`; characterised in integers by `PercentWarningIff` |
| `Indicators.MeanWarning` | streamlit_app.py:90-91 | `media_dias > 180`, false for NaN; characterised in integers by `MeanWarningIff` |
| `Indicators.RatioAbove` | streamlit_app.py:88-91 | arithmetic helper of `PercentWarningIff` and `MeanWarningIff`, not a model of these lines: a quotient exceeds k exactly when the dividend exceeds k times the positive divisor |
| `Indicators.PercentWarningIff` | streamlit_app.py:72-89 | the ">50%" warning fires iff the table is non-empty and 2·overdue > total |
| `Indicators.MeanWarningIff` | streamlit_app.py:74-91 | the mean warning fires iff some day count is present and their sum exceeds 180 per present count; it never fires on an empty table or when every date is missing |
| `Indicators.SnapshotOf` | streamlit_app.py:68-91 | in the shown figures, the two type totals add up to the total, overdue ≤ total, and an empty table raises no warning |
| `ValueCounts.KeysOf` | streamlit_app.py:105-106 | the "Bairro" column of the counts, entry by entry |
| `ValueCounts.Bump` | streamlit_app.py:105 | counting one more occurrence adds 1 to that value's entry and leaves every other entry as it was, or appends (value, 1) when the value is new |
| `ValueCounts.BumpDistinct` | streamlit_app.py:105 | counting one more occurrence never gives a value two entries |
| `ValueCounts.BumpTotal` | streamlit_app.py:105 | counting one more occurrence adds 1 to the sum of the counts |
| `ValueCounts.BumpKeys` | streamlit_app.py:105 | after counting one more occurrence of a value, the values listed are the old ones plus that value |
| `ValueCounts.Tally` | streamlit_app.py:105 | the tally has no value twice, and its counts sum to the number of values |
| `ValueCounts.TallyKeys` | streamlit_app.py:105 | the tally has an entry for exactly the values that occur |
| `ValueCounts.TallyCounts` | streamlit_app.py:105 | each tally entry carries its value's number of occurrences |
| `ValueCounts.Insert` | streamlit_app.py:105 | insertion adds one entry |
| `ValueCounts.InsertPermutes` | streamlit_app.py:105 | insertion adds exactly the new entry (as multisets) and its count to the total |
| `ValueCounts.InsertKeys` | streamlit_app.py:105 | after insertion, the values are the old values plus the new one |
| `ValueCounts.InsertAtMost` | streamlit_app.py:105 | insertion keeps every count within a common bound |
| `ValueCounts.InsertSorted` | streamlit_app.py:105 | inserting into a list in non-increasing count order keeps that order |
| `ValueCounts.HeadNotInTail` | streamlit_app.py:105 | in a list without repeated values, the first value does not reappear |
| `ValueCounts.InsertDistinct` | streamlit_app.py:105 | inserting a new value into a list without repeats keeps it without repeats |
| `ValueCounts.SortByCount` | streamlit_app.py:105 | sorting keeps the length |
| `ValueCounts.SortByCountCorrect` | streamlit_app.py:105 | sorting permutes the entries, keeps the total, and orders them by non-increasing count |
| `ValueCounts.SortByCountKeys` | streamlit_app.py:105 | sorting keeps the set of values, and adds no repeats |
| `ValueCounts.Counts` | streamlit_app.py:105 | `value_counts()`: tally in order of first occurrence, then sort by count; its contract is stated by `CountsEntries` and `CountsCorrect` |
| `ValueCounts.CountsEntries` | streamlit_app.py:105-106 | every `value_counts` entry's count is its value's number of occurrences, and at least 1 |
| `ValueCounts.CountsCorrect` | streamlit_app.py:105-106 | `value_counts()` lists each value once, with its number of occurrences (≥ 1), lists every value, has counts summing to the number of values, and puts the largest count first |
| `Dashboard.Filter` | streamlit_app.py:102 | `isin` filtering keeps exactly the rows whose type is selected |
| `Dashboard.FilterMultiset` | streamlit_app.py:102 | `isin` keeps every row of a selected type as often as the table holds it, and no row of another type |
| `Dashboard.FilterAppend` | streamlit_app.py:102 | filtering goes row by row and keeps the order: the filter of a concatenation is the concatenation of the filters |
| `Dashboard.FilterAll` | streamlit_app.py:95-102 | selecting both types (the default) keeps the whole table in order |
| `Dashboard.FilterOne` | streamlit_app.py:68-102 | selecting one type keeps as many rows as that type's count |
| `Dashboard.FilterEnriched` | streamlit_app.py:102 | filtering keeps the derived columns present |
| `Dashboard.Bairros` | streamlit_app.py:105 | the "Bairro" column of the filtered rows, row by row |
| `Dashboard.ShowPanel` | streamlit_app.py:101-118 | the three outcomes of the charts section; stated by `Dashboard.PanelCorrect` |
| `Dashboard.PanelCorrect` | streamlit_app.py:101-118 | empty selection gives "select at least one", and only it does; a selection no row has gives "no data"; otherwise the chart lists each neighbourhood of the selected rows once, with its row count (≥ 1), counts summing to the number of selected rows, largest first |
| `App.SessionState.constructor` | streamlit_app.py:9-10 | a session starts in "inicio" with no stored table |
| `App.SessionState.Confirm` | streamlit_app.py:32-51 | only in "inicio", with both sheets uploaded, "Sim" chosen and the button pressed, the merged tagged table is stored and the stage becomes "graficos"; otherwise nothing changes |
| `App.SessionState.Charts` | streamlit_app.py:52-118 | the stored table gets its derived columns in place, and the figures and panel are computed from it; the stage stays "graficos" |
| `App.SnapshotOfUpload` | streamlit_app.py:48-74 | end to end: after merging and enriching, each type total is its sheet's length, the total is their sum, and an empty upload raises no warning |

## Left out

- Streamlit rendering is not modelled: page setup, uploaders, tables, metrics,
  warnings as text, the radio, the button, the multiselect widget and the
  Plotly chart (lines 6, 12, 29-30, 37-43, 77-85, 94-99, 109-114). Their
  inputs and outputs become parameters and results: the uploaded rows, the
  answer, the button press, the selection, the `Panel` and the `Snapshot`.
- `pd.read_excel` (lines 34-35) is file I/O. Its result is the `Patient`
  rows passed to `Confirm`.
- `pd.to_datetime(..., errors="coerce", dayfirst=True)` and
  `pd.Timestamp.today()` (lines 62, 65-66) are library date parsing and the
  wall clock. Their combined effect is the optional day count per row,
  passed to `Charts` as `dias`. The "Último Atendimento" column itself is not
  kept.
- The percentage and the mean are computed in floating point and shown with
  `:.1f` / `:.0f` (lines 84-85). The model uses exact rationals, so rounding
  is not modelled.
- The headers of `df_total` are not modelled. The model does not capture the
  rename of the address column (line 58), pandas' column union when the two
  sheets' headers differ, or sheet columns beyond the third. Rows have fixed
  positions: identifier, address, date.
- With a sheet of fewer than three columns, `columns[1]` or `columns[2]`
  would name the added "Tipo" column or raise. That case is not modelled.
- `ValueCounts.CountsCorrect`: the order of neighbourhoods with equal counts
  is not claimed. pandas sorts with a non-stable sort, and the model's
  insertion sort fixes an order of its own.
- `App.SessionState.Charts`: the source adds "Bairro" for all rows and then
  the day counts for all rows, in two column passes. The model adds both to
  each row in one pass. The result is the same.
- Dafny strings are sequences of Unicode scalar values. Python strings with
  lone surrogates are not modelled.
