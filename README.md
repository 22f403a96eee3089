# Logistics dashboard: a Dafny model of its data core

`app.py` is a Streamlit page. It reads a daily Excel workbook containing a
*coletas* (pickups) sheet and an *entregas* (deliveries) sheet. Column and
sheet names are matched loosely, meaning case, accents and extra spaces are
ignored. Each sheet becomes a display table. Two tabs then show these tables
after a chain of filters:
- a date range, with "include records without a date";
- the service levels;
- a region (UF) and a city, where the page's own sentinel `(Todas)` means "all";
- a status derived from a sentinel text.

Each tab also shows four counters.

This project models that core in Dafny:

- `Text`: the parts of Python's `str` that the page relies on. These are
  `isspace`, `strip`, `split()`, `" ".join` and the regex collapse
  `\s+ → " "`. The lemmas connect them. The chief one is
  `strip(re.sub(r"\s+", " ", s)) == " ".join(s.split())`.
- `Keys`: `norm_key`, the sheet and column key. It lower-cases the text,
  maps the accented letters in its table to plain ones, and collapses the
  whitespace.
- `Seqs`: boolean-mask selection (`df[mask]`), modelled as an
  order-preserving `Filter`. Also `Count` (a `.sum()` of a mask), `Map`, and
  `Distinct`, the set behind `unique()` and `nunique(dropna=True)`.
- `Resolve`:
  - `pick_col` (an imperative loop over the candidates);
  - `ensure_cols` (an imperative loop over the mapping that collects the
    resolved columns and the missing canonical names);
  - the required-sheet check of `read_excel`.

  All three take the key function as a parameter. The page always passes
  `norm_key`.
- `Records`: the time model, the cells, the two row normalisations and their
  sentinels, and the two mapping constants:
  - a timestamp is an integer number of nanoseconds; a day is an integer
    number of days since the epoch;
  - a cell holds text or nothing.
- `Load`: the top-level script up to the two normalised tables. It checks the
  sheets, resolves the COLETAS columns, then the ENTREGAS columns, then
  normalises both. The first failure stops the page.
- `Pipeline`:
  - `apply_date_filter` and the default date range of `date_filter_ui`;
  - the two tab filter chains, as methods that reassign `tmp` step by step;
    they are proved equal to one declarative selection. The chain takes the
    date test as a parameter. The tabs use the test as written, and lemmas
    compare it with the whole-day test described under Findings. On first
    load every offered service level is selected (app.py:273, app.py:324),
    and `Pipeline.DefaultLevelsKeepLevelled` shows that this default is not
    neutral: as soon as some record has a level, the records with no service
    level disappear from the tab, unlike with an empty level selection;
  - the counters (KPIs).

## Model

| member | source | states |
|---|---|---|
| Text.StripEmptyIff | app.py:198 | `s.strip() == ""` holds exactly when every character of `s` is whitespace |
| Text.SplitWords | app.py:52 | every piece produced by `split()` is a non-empty run without whitespace |
| Text.SplitJoin | app.py:52 | splitting a single-space join of words gives back the same words |
| Text.JoinSplit | app.py:52 | re-joining the pieces of a single-spaced text gives the text back |
| Text.JoinSingleSpaced | app.py:52 | a single-space join of words has no leading, trailing or repeated whitespace |
| Text.SplitAppend | app.py:226-230 | splitting a concatenation that meets at whitespace gives the concatenation of the splits |
| Text.CollapseIsJoinSplit | app.py:230 | replacing every whitespace run by one space and then stripping equals `" ".join(s.split())` |
| Text.SplitStrip | app.py:41 | `strip()` does not change the words `split()` yields |
| Text.SplitCollapse | app.py:230 | collapsing whitespace runs does not change the words `split()` yields |
| Keys.NormKey | app.py:37-53 | the key has single spacing, and contains no upper-case letter and no accented letter from the table |
| Keys.NormKeyOfNone | app.py:39-40 | a missing name has the empty key |
| Keys.NormKeyFixpoint | app.py:37-53 | a text is its own key exactly when it is single-spaced and already folded |
| Keys.NormKeyIdempotent | app.py:37-53 | normalising a key again changes nothing |
| Keys.SpaceUntouched | app.py:41-51 | lower-casing and the accent table keep whitespace as whitespace and create none |
| Keys.FoldedAfterTranslate | app.py:41-51 | after `lower()` and `translate(repl)`, no character is upper-case or a mapped accent |
| Keys.KeyOfSingleSpaced | app.py:41-52 | for a name that already has single spacing, the key is just the lower-cased and translated name |
| Keys.LowerWordKey | app.py:35 | a name made only of letters a–z is its own key |
| Keys.SplitFold | app.py:41-52 | the words of the lower-cased, translated text are the words of the original, each lower-cased and translated |
| Keys.KeyWords | app.py:37-53 | the key of a name is its words, each lower-cased and translated, joined by single spaces |
| Keys.SameWordsSameKey | app.py:37-53 | two names whose words agree once lower-cased and translated have the same key |
| Keys.KeyIgnoresSpelling | app.py:37-53 | lower-casing a name, translating its accents, collapsing its whitespace runs or stripping it leaves its key unchanged |
| Seqs.Filter | app.py:137 | the mask keeps a sub-list of the rows: a row is kept exactly when it is a row and passes the test |
| Seqs.FilterIsSubseq | app.py:137 | the selected rows keep their original relative order |
| Seqs.FilterFilter | app.py:275 | applying two masks one after the other equals one mask that is the conjunction of both |
| Seqs.FilterCommute | app.py:275-281 | two successive masks give the same rows in either order |
| Seqs.FilterPartition | app.py:297-300 | the rows passing a test plus the rows failing it account for every row |
| Seqs.CountIsFilterLength | app.py:306 | the `.sum()` of a mask equals the number of rows the mask selects |
| Seqs.Distinct | app.py:305 | the distinct non-null values: a value is in the set exactly when some row holds it |
| Resolve.NormMap | app.py:58 | the dict holds a key exactly when some column has that key; its value is the last such column |
| Resolve.PickCol | app.py:55-63 | returns the column of the first candidate whose key some column has; returns None exactly when no candidate matches |
| Resolve.PickedUnique | app.py:55-63 | the pick_col result is fully determined by the columns and the candidates |
| Resolve.PickedSameKeys | app.py:59-62 | only the keys of the candidates matter: candidate lists whose keys agree one by one pick the same column |
| Resolve.ResolvedUnique | app.py:65-81 | the columns and the mapping determine the map that a successful ensure_cols returns |
| Resolve.MissingCanonMembers | app.py:69-72 | a canonical name is reported missing exactly when it is in the mapping and none of its candidates matches |
| Resolve.MissingCanonEmpty | app.py:75 | the missing list is empty exactly when every entry of the mapping resolves |
| Resolve.EnsureCols | app.py:65-81 | fails exactly when some entry is unmatched, with the missing names in mapping order; otherwise the result has exactly the canonical names as keys, each mapped to its pick_col result |
| Resolve.RequiredSheetKeys | app.py:35 | "coletas" and "entregas" are their own keys |
| Resolve.CheckSheets | app.py:85-93 | fails exactly when a required sheet's key is absent, listing the absent ones in order; otherwise returns the last sheet with each key |
| Records.DayOf | app.py:118-119 | the calendar day of a timestamp: the timestamp lies in the half-open interval from that day's midnight to the next midnight |
| Records.DayOfIff | app.py:118-119 | `DayOf(t) == d` holds exactly when `t` lies between midnight of `d` and midnight of `d + 1` |
| Records.DayOfMonotonic | app.py:118-119 | a later timestamp never falls on an earlier day |
| Records.NaoColetadoNotDate | app.py:194 | "Material não coletado" does not look like a `%Y-%m-%d` date |
| Records.NaoEntregueNotDate | app.py:222 | "Não entregue" does not look like a `%Y-%m-%d` date |
| Records.DateText | app.py:193-194 | the shown date equals the sentinel exactly when there is no date; otherwise it is the formatted date |
| Records.OsText | app.py:197-198 | a missing or all-blank OS becomes "Sem número de OS", any other value is kept; the result equals the sentinel exactly when the cell was blank or already held the sentinel; the result is never blank |
| Records.OrigemDestino | app.py:225-230 | the label is the single-space join of the words of the four parts with "/", "→", "/" between them; it has single spacing |
| Records.OrigemDestinoOfNulls | app.py:225-230 | four null parts give the label "/ → /" |
| Records.ColetasNames | app.py:154-163 | the canonical names of the COLETAS mapping, position by position |
| Records.EntregasNames | app.py:169-181 | the canonical names of the ENTREGAS mapping, position by position |
| Records.NormalizeColeta | app.py:188-211 | the parsed date comes from the DATA_COLETA column; the date text is the sentinel exactly when that date is missing, otherwise the formatted date; OS comes from the OS column through the OS rule; CIDADE ORIGEM, CIDADE DESTINO, DTM, EMPRESA ORIGEM, NÍVEL DE SERVIÇO and UF ORIGEM are the cells of their resolved columns |
| Records.NormalizeColetas | app.py:188-212 | one output row per input row, in order, each normalised as above |
| Records.NormalizeEntrega | app.py:214-243 | the parsed forecast comes from PREV_ENTREGA; the delivery text is "Não entregue" exactly when DATA_ENTREGA does not parse, otherwise the formatted date; the label is built from the four place columns; DTM, NÍVEL DE SERVIÇO, EMPRESA DESTINO, EMBARQUE, CTE, UF DESTINO and CIDADE DESTINO are the cells of their resolved columns |
| Records.NormalizeEntregas | app.py:214-244 | one output row per input row, in order, each normalised as above |
| Load.ReadSheets | app.py:83-93 | the sheet check with `norm_key`: the missing required sheets in order, or the real names of the coletas and entregas sheets |
| Load.ColetasCanonDistinct | app.py:154-163 | the COLETAS mapping has no repeated canonical name |
| Load.EntregasCanonDistinct | app.py:169-181 | the ENTREGAS mapping has no repeated canonical name |
| Load.LoadTables | app.py:147-247 | a missing sheet stops first; then missing COLETAS columns; then, only when COLETAS resolved, missing ENTREGAS columns, with exactly the missing names; otherwise each table is the normalisation of its sheet's rows with the columns ensure_cols resolves from its header, one displayed row per sheet row |
| Pipeline.DateFilter | app.py:130-137 | the selection keeps exactly the rows that pass the range test, or that have no date when include_missing is on, in order |
| Pipeline.DateFilterUnset | app.py:131-132 | with no range, include_missing keeps every row; without it, only the dated rows are kept |
| Pipeline.DateFilterKeeps | app.py:134-137 | a row is kept exactly when it is a row and its date passes the test or is missing with include_missing on |
| Pipeline.DayStartOrder | app.py:134 | comparing midnights is the same as comparing days |
| Pipeline.BetweenMidnightsWithinDays | app.py:134 | every timestamp the as-written test admits lies within the chosen days |
| Pipeline.MidnightTestsAgree | app.py:134 | for a timestamp at exactly midnight, the as-written test and the whole-day test agree |
| Pipeline.AsWrittenKeepsLess | app.py:134-137 | every row the as-written filter keeps is also kept by the whole-day filter |
| Pipeline.AsWrittenAtMidnights | app.py:134-137 | when every date is at midnight, the two filters give the same rows |
| Pipeline.AsWrittenDropsEndDay | app.py:134 | a record on the last chosen day but after midnight is dropped by the as-written filter and kept by the whole-day filter |
| Pipeline.AsWrittenDropsEndDayExample | app.py:134 | one record one nanosecond after midnight of day 5, range 5..5: the as-written filter gives none, the whole-day filter gives that record |
| Pipeline.DayBounds | app.py:104-119 | no bounds exactly when no date is present; otherwise every present date lies between the first and last day, and both bounds are attained |
| Pipeline.DefaultRangeKeepsDated | app.py:104-137 | under the default range, the whole-day filter drops only undated rows, and only when include_missing is off |
| Pipeline.DefaultRangeAsWrittenDropsLatest | app.py:118-134 | under the default range, the as-written filter drops a record dated after midnight on the latest day |
| Pipeline.LevelStage | app.py:274-275 | after the level step, `tmp` is the rows selected so far filtered by the level test, or unchanged when the multiselect is empty |
| Pipeline.RegionStage | app.py:280-281 | after the region step, `tmp` is the rows filtered by the UF test, or unchanged for "(Todas)" |
| Pipeline.CityStage | app.py:288-289 | after the city step, `tmp` is the rows filtered by the city test, or unchanged for "(Todas)" |
| Pipeline.StatusStage | app.py:297-300 | after the status step, the result is the full selection |
| Pipeline.TabView | app.py:268-300 | for a given range test, the step-by-step chain ends in exactly the rows admitted by all five tests together, in their original order |
| Pipeline.ColetasView | app.py:268-300 | a coleta is shown exactly when it passes the collection-date range as written (ending at the midnight that begins the end day), the level, UF ORIGEM, CIDADE ORIGEM and OS-status tests; the shown rows keep their order |
| Pipeline.EntregasView | app.py:320-352 | an entrega is shown exactly when it passes the forecast range as written (ending at the midnight that begins the end day), the level, UF DESTINO, CIDADE DESTINO and delivery-status tests; the shown rows keep their order |
| Pipeline.SelectedAsWrittenKeepsLess | app.py:269-300 | every record the chain as written shows, the whole-day chain shows too |
| Pipeline.SelectedAsWrittenDrops | app.py:269-300 | of the records the whole-day chain shows, the chain as written drops exactly the ones dated after the midnight that begins the end day |
| Pipeline.SelectedAtMidnights | app.py:269-300 | when every date is a midnight, the chain as written and the whole-day chain show the same records |
| Pipeline.StatusRefines | app.py:297-300 | a status choice only narrows the "(Todas)" view, by the sentinel test |
| Pipeline.StatusPartition | app.py:297-300 | the "with sentinel" view and the "without sentinel" view together have as many rows as the "(Todas)" view |
| Pipeline.SentinelCountIsView | app.py:306 | the sentinel counter on the "(Todas)" view equals the size of the "with sentinel" view |
| Pipeline.NeutralSelection | app.py:269-300 | with no levels chosen and "(Todas)" for the UF, the city and the status, only the chain's date filter acts |
| Pipeline.OfferedChoiceKeepsRows | app.py:278-289 | choosing a value offered from the current rows never empties the table |
| Pipeline.DefaultLevelsKeepLevelled | app.py:272-275 | with the default selection of every offered level, the level step keeps exactly the rows that have a level |
| Pipeline.ColetasCounters | app.py:303-307 | Registros is the row count; DTMs únicas is the size of the set of non-null DTMs present; Sem OS is the number of rows showing "Sem número de OS"; "Material não coletado" is the number of rows showing it, which for normalised rows is the number without a collection date; each counter is at most the row count |
| Pipeline.EntregasCounters | app.py:355-359 | Registros is the row count; DTMs únicas and Níveis de serviço are the sizes of the sets of non-null DTMs and service levels present; Não entregue is the number of rows showing it; each counter is at most the row count |

## Left out

- The Streamlit page is not modelled: widgets, CSS, captions, `st.error` text, the upload step (app.py:139-145), the overview metrics (app.py:252-257) and the table display. The stop after an error is modelled as a `Failure` result.
- Reading the workbook is not modelled. The sheet names and each sheet's header and rows are inputs.
- `pd.to_datetime(..., errors="coerce")` and `strftime("%Y-%m-%d")` come from pandas, so they are parameters. `parse` returns no date for text it cannot read. `fmt` is only required to produce ten-character `YYYY-MM-DD` text. pandas converts a whole column at once and may infer one format from its first non-null value, so whether a cell parses can depend on the other cells; the model applies one per-cell `parse`, shared by DATA_COLETA, PREV_ENTREGA and DATA_ENTREGA. No proved property depends on this.
- `Keys.NormKey`: `lower()` is modelled for ASCII and Latin-1 letters only. Full Unicode case mapping, including characters whose lower case is several characters, is not.
- `str(s)` of a non-string header or sheet name is not modelled. Cells are modelled as text or null, and `astype("string")` does not change a text.
- The choices offered by the widgets are given by the `Selection` value. The modelled fact about the options is that they are the distinct values of the current rows. The page always offers "(Todas)" for the UF and the city (app.py:279, app.py:287); the model lets these selections be any text, "(Todas)" included. Their sorted order is left out, because it only affects display.
- `Resolve.EnsureCols` requires the mapping's canonical names to be distinct, as keys of a Python dict literal are. `Load.ColetasCanonDistinct` and `Load.EntregasCanonDistinct` prove this for both mappings.
- Integer width is not modelled: pandas timestamps are 64-bit nanoseconds, and the model uses unbounded integers.

## Findings

| source | as written | input that shows it | evidently intended | confidence | as-written member | corrected member |
|---|---|---|---|---|---|---|
| app.py:134 | `between(pd.Timestamp(start), pd.Timestamp(end))` compares each timestamp with midnight at the start of the end date. Any record later on the end date is dropped. Under the default range (app.py:118-124) this drops the latest records themselves. | one record at 00:00:00.000000001 on day 5 (`DayStart(5) + 1`), range 5..5, include_missing off | keep every record whose calendar day lies between the chosen start and end dates | not executed | Pipeline.AsWrittenDropsEndDayExample | Pipeline.DefaultRangeKeepsDated |
