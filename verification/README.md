# network-dashboard core, modelled in Dafny

network-dashboard is a Streamlit application for a telecom operations team. It
loads semicolon-separated CSV exports: faults (averías), performance,
configuration, provisioning, availability, quality and projects/sites. Then it
shows filters, metrics and charts for each of them. This project models the
rules underneath that UI:

- `text.dfy` (`Text`): the Python string primitives the rules rely on. These are
  `lower`/`upper`, `strip`, `replace`, `split`, `isdigit` and `str(int)`.
- `frame.dfy` (`Frame`): a small model of a pandas DataFrame.
  - A table is a column list plus rows, each row a map from column name to cell.
  - It also records which columns have a datetime dtype.
  - Cells are missing (`Null`), text, timestamps, integers, dates or reals.
  - Operations: column assignment, column drop, boolean-mask filtering, and the
    recasing loop shared by the two dashboards.
- `helpers.dfy` (`Helpers`), from `utils/helpers.py`:
  - the dataset summary and the site-column search;
  - the European number cleaner and the date-text cleaner;
  - `parse_datetime_column`, with its derived fields and `duration_minutes`;
  - `clean_numeric_data`.
- `data_loader.dfy` (`DataLoader`), from `utils/data_loader.py`:
  - the seven-slot dataset store in the session;
  - dataset-type detection from a file name;
  - the column clean-up run on every loaded CSV: drop `start_time.1`, then move
    `start_time`/`end_time` to the front.
- `widget_keys.dfy` (`WidgetKeys`), from `utils/widget_keys.py`:
  - the widget-key generator, a class with a counter and its typed wrappers;
  - the registry of per-module generators.
- `provision.dfy` (`Provision`), from `modules/provision.py`:
  - the geographic drill-down (departamento → provincia → distrito), as a
    session object holding the drill state;
  - its select, reset and restart handlers;
  - the export filter and the download-name rule.
- `averias.dfy` (`Averias`), from `modules/averias.py`:
  - the site→geography mapping;
  - the hierarchical geographic fault filter and its left join;
  - the dashboard's column formatting, de-duplication by `alarm_id`, the
    inclusive date-range filter and the site filter.

Methods model the code that updates state step by step. This covers the key
generator, the drill-state handlers, the column loops and the
de-duplicate/date/site pipeline. Each method is stated against a function of its
inputs, and the properties are proved about those functions.

## Model

| member | source | states |
|---|---|---|
| Helpers.GetDatasetInfo | utils/helpers.py:4-9 | "Cargado" exactly for a present, non-empty table, with its row count and columns; otherwise "No cargado", 0 and no columns |
| Helpers.FirstPresent | utils/helpers.py:18-22 | the index of the first candidate that is a column, with no earlier candidate present; None only when no candidate is present |
| Helpers.FindSiteColumn | utils/helpers.py:11-22 | None for a missing table; otherwise the first of Site_Name, site_name, SITE_NAME, site that is a column, and None only when none of them is |
| Helpers.CleanNumberText | utils/helpers.py:61-84 | the comma/period case analysis never leaves a comma or a double quote in its result |
| Helpers.CleanEuropeanNumber | utils/helpers.py:56-84 | a cleaned number never contains a comma or a double quote |
| Helpers.NumberMissing | utils/helpers.py:57-65 | the result is missing exactly for a missing value or for a text with no digit once quotes are removed and whitespace is stripped |
| Helpers.NumberKeepsDigits | utils/helpers.py:56-84 | the cleaner keeps the digits of the input in order: it never drops, adds or reorders a digit |
| Helpers.NumberThousandsAndDecimalPoint | utils/helpers.py:68-70 | an illustration of NumberCommaAndPeriod for texts joined at their first comma with a period after it ("23,418.082" → "23418.082") |
| Helpers.NumberDecimalComma | utils/helpers.py:71-76 | an illustration of NumberSingleDecimalComma for a text a + "," + b: the comma becomes a decimal point ("123,45" → "123.45", and also "1,234" → "1.234") |
| Helpers.NumberCommaAndPeriod | utils/helpers.py:68-70 | for any input whose stripped, unquoted text has a digit, a comma and a period, every comma is deleted and nothing else changes |
| Helpers.NumberSingleDecimalComma | utils/helpers.py:71-76 | for any input whose stripped, unquoted text has a digit and commas but no period, and splits at its commas into two pieces with one to three characters after the comma, the comma becomes a decimal point |
| Helpers.NumberEuropeanStyle | utils/helpers.py:68-70 | a number with periods for thousands before a single decimal comma loses its comma and keeps its periods, because a period is present |
| Helpers.NumberEuropeanExample | utils/helpers.py:68-70 | "1.234,56" cleans to "1.23456" |
| Helpers.NumberThousandsOnly | utils/helpers.py:71-79 | commas without a period in any other shape are all deleted |
| Helpers.NumberNoComma | utils/helpers.py:80-84 | without a comma, the stripped and unquoted text is returned unchanged |
| Helpers.NumberSecondPass | utils/helpers.py:56-84 | cleaning a cleaned number again only strips whitespace: the cleaner is idempotent up to `strip` |
| Helpers.CleanDateFormat | utils/helpers.py:24-39 | None exactly for a missing value, an empty text or any casing of "nan"; any other result is stripped at both ends |
| Helpers.CleanDateKeepsCleanText | utils/helpers.py:34-39 | a non-empty, non-"nan", already stripped text with no " @ " and no ".000" comes back unchanged |
| Helpers.SeparatorReplaced | utils/helpers.py:38 | the " @ " between a date and a time without "@" becomes a single space, and nothing else changes |
| Helpers.SuffixDropped | utils/helpers.py:38 | a trailing ".000" after a text without periods is deleted, and nothing else changes |
| Helpers.CleanDateExportShape | utils/helpers.py:37-39 | any text shaped like "Aug 18, 2025 @ 06:00:00.000" (date, " @ ", time, ".000", with no "@" or "." in the parts) cleans to date + " " + time |
| Helpers.CleanDateSecondPassDiffers | utils/helpers.py:34-39 | cleaning is not idempotent: a blank text cleans to "", which a second pass turns into None |
| Helpers.Parsed | utils/helpers.py:115-122 | the parsed column (clean each cell, then apply the date parser) has one cell per row |
| Helpers.CleanDateCell | utils/helpers.py:34-39 | the date cleaner on one cell; a result only ever comes from a text cell |
| Helpers.ParsedCell | utils/helpers.py:115-122 | one cell of `to_datetime(errors='coerce')`: a timestamp exactly when the cleaned text parses, and then the parser's value; missing otherwise |
| Helpers.CountTimes | utils/helpers.py:125-127 | the count of parsed values is positive exactly when some cell parsed |
| Helpers.TemporaryName | utils/helpers.py:115-154 | the temporary `<col>_clean` column never collides with a derived field or with `duration_minutes` |
| Helpers.AddDerivedFields | utils/helpers.py:132-137 | adds hour, date, day_of_week, month and year, computed from the parsed timestamps (missing where the parse failed); every other column keeps its name, cells and dtype |
| Helpers.DurationsSame | utils/helpers.py:153-154 | the minutes column depends only on the start_time and end_time columns |
| Helpers.AddDuration | utils/helpers.py:147-154 | adds `duration_minutes` = (end − start) in minutes exactly when both start_time and end_time are datetime columns; otherwise the table is unchanged; no other column changes |
| Helpers.StoreTimes | utils/helpers.py:127-141 | the parsed column replaces the original with datetime dtype; when requested, hour, date, day_of_week, month and year hold the hour, date, day name, month and year of each parsed cell (missing where it did not parse); nothing else changes |
| Helpers.ParseDatetimeColumn | utils/helpers.py:92-156 | a missing column gives (unchanged, False); success iff at least one value parses; on success the column holds the parsed values and, if requested, all five calendar columns computed from them; on failure every original column is kept as it was; `<col>_clean` never survives; `duration_minutes` is the time difference when both time columns are datetime and is left as it was otherwise; no other column changes |
| Helpers.Finish | utils/helpers.py:143-156 | drops the temporary column and keeps every other column; `duration_minutes` is the time difference when both time columns are datetime and is left as it was otherwise |
| Helpers.StoreAndFinish | utils/helpers.py:127-154 | the success path: the parsed column and, when requested, the five calendar columns of the parsed cells; no temporary column; the duration rule in both directions; every other column unchanged |
| Helpers.CleanNumericData | utils/helpers.py:41-90 | each listed column that exists has its text and missing cells passed cell by cell through the number cleaner; unlisted or absent columns are unchanged |
| DataLoader.EmptyStore | utils/data_loader.py:7-15 | the store has exactly the seven dataset slots, each empty |
| DataLoader.SessionState.constructor | utils/data_loader.py:4-6 | a fresh session has no dataset store |
| DataLoader.SessionState.InitializeSessionState | utils/data_loader.py:4-15 | creates the seven-slot empty store only when absent; an existing store is left untouched |
| DataLoader.FirstRule | utils/data_loader.py:31-35 | the first rule, from a given position on, with a keyword in the name; no earlier rule has one |
| DataLoader.DetectDatasetType | utils/data_loader.py:17-35 | a category iff some rule's keyword is a substring of the lower-cased name, and then the category of the first such rule |
| DataLoader.DetectedTypeIsSlot | utils/data_loader.py:7-29 | a detected category is always one of the store's seven slots |
| DataLoader.FaultKeywordWins | utils/data_loader.py:21-33 | a name containing "averia", "alarm" or "fault" is Averias, whatever else it contains (e.g. "site") |
| DataLoader.EarlierRuleWins | utils/data_loader.py:21-33 | if rule j matches, the result is the category of rule j or of an earlier rule |
| DataLoader.FirstLowerName | utils/data_loader.py:43-65 | the first column whose lower-cased name is the one sought; None iff no column has it |
| DataLoader.RemoveFirst | utils/data_loader.py:57-67 | `list.remove`: the multiset loses one copy of the element; an absent element leaves the list unchanged |
| DataLoader.Except | utils/data_loader.py:69 | an order-preserving filter: the elements of the list not in the given set |
| DataLoader.LowerAllHas | utils/data_loader.py:39-43 | a name is among the lower-cased columns iff some column lower-cases to it |
| DataLoader.RemoveFirstIsExcept | utils/data_loader.py:57-67 | on distinct names, removing the first occurrence is removing the element |
| DataLoader.ExceptTwice | utils/data_loader.py:57-67 | removing one set and then another is removing their union |
| DataLoader.ExceptDistinct | utils/data_loader.py:69 | filtering keeps the names distinct |
| DataLoader.FirstLowerNameRemove | utils/data_loader.py:61-65 | recomputing the lower-cased names after removing start_time finds the same end_time column |
| DataLoader.KeptRemovesFirst | utils/data_loader.py:42-48 | only the first column whose lower-cased name is start_time.1 is removed; with none, the columns are unchanged |
| DataLoader.DropDuplicateStart | utils/data_loader.py:42-48 | the kept columns keep their cells and the row count; the names stay distinct |
| DataLoader.TakeKeepsOther | utils/data_loader.py:57-65 | taking one priority column does not change which column matches the other name |
| DataLoader.TakeColumn | utils/data_loader.py:52-67 | takes the column matching a name out of the list; the taken and remaining columns together are a permutation of the input |
| DataLoader.TakeBothInTurn | utils/data_loader.py:52-69 | taking start_time and then end_time from what remains gives the priority prefix and the remaining columns in order |
| DataLoader.MovePriorityColumns | utils/data_loader.py:50-69 | the new order is start_time (if any), then end_time (if any), then the other columns in their original order; it is a permutation of the input |
| DataLoader.CleanAndReorderColumns | utils/data_loader.py:37-70 | the output columns are the input columns minus the first start_time.1, reordered with start_time and end_time first; a permutation; every kept column keeps its cells |
| WidgetKeys.CleanModuleName | utils/widget_keys.py:18 | the cleaned module name has no spaces and no ñ |
| WidgetKeys.CleanDescription | utils/widget_keys.py:35 | the cleaned description has no spaces, no colons and no ñ, é or ó |
| WidgetKeys.KeyEndsWithCounter | utils/widget_keys.py:37-40 | with or without a description, every key ends in `_` followed by the counter's digits |
| WidgetKeys.Key | utils/widget_keys.py:37-40 | every key starts with the module name and widget type, each followed by `_`, and holds more after them |
| WidgetKeys.LastIndexOf | utils/widget_keys.py:37-40 | the last position of a character, or −1 |
| WidgetKeys.CounterSuffixPosition | utils/widget_keys.py:37-40 | the counter suffix starts right after the last underscore of the key |
| WidgetKeys.CounterSuffixUnique | utils/widget_keys.py:37-40 | a key determines its counter suffix |
| WidgetKeys.KeysDiffer | utils/widget_keys.py:30-40 | keys built with different counters differ, whatever their module, type and description |
| WidgetKeys.KeyGenerator.constructor | utils/widget_keys.py:11-19 | the module name is cleaned, the counter starts at 0 and nothing has been issued |
| WidgetKeys.KeyGenerator.GetKey | utils/widget_keys.py:21-40 | the counter goes up by exactly one; the key is built from module, type, cleaned description and the new counter; it was never issued before by this generator |
| WidgetKeys.KeyGenerator.CheckboxKey | utils/widget_keys.py:42-44 | a fresh key of type "checkbox" for the description |
| WidgetKeys.KeyGenerator.SelectboxKey | utils/widget_keys.py:46-48 | a fresh key of type "selectbox" |
| WidgetKeys.KeyGenerator.MultiselectKey | utils/widget_keys.py:50-52 | a fresh key of type "multiselect" |
| WidgetKeys.KeyGenerator.SliderKey | utils/widget_keys.py:54-56 | a fresh key of type "slider" |
| WidgetKeys.KeyGenerator.RadioKey | utils/widget_keys.py:58-60 | a fresh key of type "radio" |
| WidgetKeys.KeyGenerator.TextInputKey | utils/widget_keys.py:62-64 | a fresh key of type "text_input" |
| WidgetKeys.KeyGenerator.DateInputKey | utils/widget_keys.py:66-68 | a fresh key of type "date_input" |
| WidgetKeys.KeyGenerator.ButtonKey | utils/widget_keys.py:70-72 | a fresh key of type "button" |
| WidgetKeys.KeyGenerator.DownloadButtonKey | utils/widget_keys.py:74-76 | a fresh key of type "download_button" |
| WidgetKeys.SharedGenerator | utils/widget_keys.py:100-112 | a shared generator exists exactly for the names whose lower-cased form is in the registry |
| WidgetKeys.DesempenoSpellingsShare | utils/widget_keys.py:81-103 | "desempeño" and "desempeno" select the same generator, the one named "desempeno" |
| WidgetKeys.KnownNamesSelectTheirGenerator | utils/widget_keys.py:80-110 | every other registered name selects the generator created with that name |
| WidgetKeys.SharedGeneratorIgnoresCase | utils/widget_keys.py:112 | names equal up to case select the same generator |
| WidgetKeys.GeneratorNamesPlain | utils/widget_keys.py:80-87 | the preconfigured names are already clean, so each generator keeps its name |
| WidgetKeys.ModuleKeys.constructor | utils/widget_keys.py:80-87 | the eight preconfigured generators, each distinct, with its name and counter 0 |
| WidgetKeys.ModuleKeys.GetModuleKeys | utils/widget_keys.py:90-112 | a registered name (any case) returns its shared generator; any other name gets a fresh generator with the cleaned name and counter 0 |
| Provision.FormatGeoColumns | modules/provision.py:20-24 | Departamento, Provincia, Distrito and Localidad, where present, are upper-cased (missing values become "NAN"); other columns are unchanged |
| Frame.RecaseColumns | modules/provision.py:22-24 | each listed column that exists is replaced by its cells as text, recased; no other column changes and the table stays text-only |
| Frame.FilterRows | modules/provision.py:335-341 | a boolean mask: a row is kept iff it is an input row satisfying the predicate |
| Frame.FilterRowsTwice | modules/provision.py:336-341 | applying two masks in turn is applying their conjunction |
| Provision.ResetLower | modules/provision.py:110-116 | level ≤ 1 clears the province, ≤ 2 the district, ≤ 3 the locality; the department and the level are never touched |
| Provision.ResetLowerTwice | modules/provision.py:110-116 | two resets in a row are one reset from the smaller level |
| Provision.PickDepartamento | modules/provision.py:156-159 | the placeholder or the current value changes nothing; a new department is stored and the levels below are cleared |
| Provision.PickProvincia | modules/provision.py:209-212 | the placeholder or the current value changes nothing; a new province is stored, the district and locality are cleared |
| Provision.PickDistrito | modules/provision.py:273-276 | the placeholder or the current value changes nothing; a new district is stored, the locality is cleared |
| Provision.InitialNested | modules/provision.py:100-107 | the initial state is at level 0 with nothing selected |
| Provision.StepKeepsNested | modules/provision.py:110-276 | every event keeps the nesting: a province only under a set department, a district only under a set province |
| Provision.RunKeepsNested | modules/provision.py:156-331 | the nesting holds after any sequence of events |
| Provision.RestartFromAnyState | modules/provision.py:324-331 | restart returns to the initial state from any state |
| Provision.RunAppend | modules/provision.py:156-331 | running two event sequences in turn is running their concatenation |
| Provision.ProvisionSession.constructor | modules/provision.py:100 | a new session has no drill state |
| Provision.ProvisionSession.EnsureDrillState | modules/provision.py:100-107 | creates the initial drill state only when absent |
| Provision.ProvisionSession.ResetLowerLevels | modules/provision.py:110-116 | the drill state becomes its reset from the given level |
| Provision.ProvisionSession.SelectDepartamento | modules/provision.py:156-159 | the drill state becomes the department pick of the old state |
| Provision.ProvisionSession.SelectProvincia | modules/provision.py:176-212 | only under a set department; the state becomes the province pick |
| Provision.ProvisionSession.SelectDistrito | modules/provision.py:237-276 | only under a set province; the state becomes the district pick |
| Provision.ProvisionSession.Restart | modules/provision.py:324-331 | the drill state is replaced by the initial one |
| Provision.ProvisionSession.Handle | modules/provision.py:156-331 | one user event moves the drill state by one step of the state machine |
| Provision.Route | modules/provision.py:336-341 | the chain of set levels, at most three |
| Provision.ExportRows | modules/provision.py:335-341 | the export keeps, in order, exactly the input rows matching the department if set, then the province if also set, then the district if also set |
| Provision.ExportFollowsRoute | modules/provision.py:335-341 | under the nesting invariant, a row is exported iff it matches every level on the route |
| Provision.DownloadName | modules/provision.py:344-350 | starts with "provisionamiento" and has no suffix exactly when no level is set |
| Provision.DownloadNameNamesDeepestLevel | modules/provision.py:344-350 | under the nesting invariant, the suffix is `_` plus the deepest set level |
| Averias.Present | modules/averias.py:15-16 | a column is in the result iff it is required and present; the result is no longer than the required list and, as that list has distinct names, holds each column once |
| Averias.DedupBy | modules/averias.py:21 | `drop_duplicates` never adds rows |
| Averias.FirstRows | modules/averias.py:231 | the reference for `keep='first'`: the rows that are the first of their key, in input order, never more than the rows looked at |
| Averias.FirstRowsOfPrefix | modules/averias.py:231 | whether a row is the first of its key depends only on the rows before it |
| Averias.DedupIsFirstRows | modules/averias.py:231 | `drop_duplicates` keeps exactly the first row of every key, in input order |
| Averias.DedupFromInput | modules/averias.py:230-231 | every row kept by de-duplication is an input row |
| Averias.DedupDistinct | modules/averias.py:230-231 | after de-duplication no two rows share a key |
| Averias.DedupKeepsFirst | modules/averias.py:230-231 | the first row of every key is kept |
| Averias.FirstKeyIndex | modules/averias.py:230-231 | every row's key has a first occurrence at or before it |
| Averias.DedupKeepsEveryKey | modules/averias.py:230-231 | every key of the input survives de-duplication |
| Averias.Project | modules/averias.py:21 | selecting columns keeps the row count and cuts each row to those columns |
| Averias.RestrictedKeys | modules/averias.py:21 | rows cut to the key columns are equal iff their keys are |
| Averias.CreateSiteLocationMapping | modules/averias.py:10-21 | empty for no projects or fewer than two required columns; otherwise the columns are the present required ones |
| Averias.MappingRowsAreDistinctProjections | modules/averias.py:16-21 | every projects row, cut to the present required columns, is a mapping row; every mapping row is one of those; no two mapping rows are equal |
| Averias.FilterLevel | modules/averias.py:42-49 | an empty or absent selection, or an absent column, keeps every row; otherwise a row is kept iff its value is in the selection (a missing value never is) |
| Averias.FilterMapping | modules/averias.py:40-49 | a mapping row survives iff it passes all four level filters |
| Averias.RowsWithKey | modules/averias.py:62-68 | the rows whose key column equals the key |
| Averias.FirstNonNull | modules/averias.py:62 | `groupby().first()`: a non-missing result is the value of some row of the group; missing only if every row's value is |
| Averias.DistinctKeys | modules/averias.py:62 | the group keys: the non-missing key values, each once |
| Averias.GroupRow | modules/averias.py:62 | a group's row carries the group key, and every other column holds the first non-missing value of that column among the group's rows |
| Averias.GroupFirst | modules/averias.py:62 | the key column comes first; there is one row per distinct non-missing SITE_NAME, in order of first appearance, and no other; each other column holds the first non-missing value of that column in the group |
| Averias.LookupGroup | modules/averias.py:62-67 | looking up a missing key among the grouped rows finds nothing; a key some mapping row carries finds its group's row, with the first non-missing values of the group |
| Averias.MergeLeft | modules/averias.py:63-67 | the left columns followed by all right columns, minus the right key only when both keys share a name; against distinct right keys, one row per left row, in order, each the left row with its first match attached (missing values when none matches) |
| Averias.Lookup | modules/averias.py:63-68 | the first right row with the key; None iff no right row has it |
| Averias.AtMostOneMatch | modules/averias.py:62-68 | with distinct right keys, the join finds at most one row per key |
| Averias.MergeKeepsRows | modules/averias.py:62-68 | with distinct right keys, the left join has one output row per left row, in order, extended by its matching right row |
| Averias.AttachKeepsLeft | modules/averias.py:63-68 | the join keeps a left row's values in every column the right side does not add |
| Averias.AttachTakesRight | modules/averias.py:63-67 | each attached column holds the match's value, or a missing value without a match |
| Averias.KeptFaults | modules/averias.py:52-59 | the faults kept are exactly those whose site value is among the SITE_NAMEs of the filtered mapping |
| Averias.FilterAveriasByGeography | modules/averias.py:23-70 | an unchanged copy when there are no projects, fewer than two required columns, or no site column in the faults; an error exactly when the mapping lacks SITE_NAME; the rows and values of the joined result are stated by GeographyKeepsEachFaultOnce and GeographyAttachesSiteInfo |
| Averias.GeographyKeepsEachFaultOnce | modules/averias.py:23-70 | the result has as many rows as the kept faults, and each keeps its fault values: the join never duplicates a fault |
| Averias.GeographyAttachesSiteInfo | modules/averias.py:58-69 | every surviving fault receives, in each mapping column it does not hold itself, its site's geography: the site in SITE_NAME and the first non-missing value among the selected mapping rows of that site elsewhere; a fault with a missing site receives missing values |
| Averias.LowerRow | modules/averias.py:87 | a row re-keyed by lower-cased names holds the same values |
| Averias.LowerColumns | modules/averias.py:87 | the columns are lower-cased in place, and each keeps its cells |
| Averias.LoweredNamePresent | modules/averias.py:87 | every original column appears under its lower-cased name |
| Averias.FormatFaults | modules/averias.py:84-102 | columns are lower-cased; geo columns are upper-cased, status columns lower-cased, each as text; other columns keep their cells |
| Averias.PrepareFaults | modules/averias.py:84-106 | formatting and parsing keep the row count; if start_time parsed, it is a datetime column and hour, date, day_of_week, month and year are computed from it; whenever both time columns are datetime, duration_minutes is their difference in minutes |
| Averias.ParseStartTime | modules/averias.py:105 | parsing start_time keeps the row count; on success start_time is a datetime column and the five calendar columns are computed from it |
| Averias.ParseEndTime | modules/averias.py:106 | parsing end_time without derived fields leaves start_time and the calendar columns untouched, and adds the duration when both times are datetime columns |
| Averias.GeoStage | modules/averias.py:175-227 | with geo filters shown and something chosen, the result is the geographic filter of the processed rows; otherwise all processed rows are kept |
| Averias.Deduped | modules/averias.py:229-231 | with an alarm_id column: the rows are the first row of every alarm_id in input order, every first occurrence is kept and no two rows share an alarm_id; without it, the table is unchanged |
| Averias.IsIn | modules/averias.py:188 | `isin` on text values: a cell is in iff it is a text among the values, so a missing cell never is |
| Averias.Chosen | modules/averias.py:187 | Python truthiness of a selection: present and non-empty |
| Averias.DateFiltered | modules/averias.py:612-645 | when start_time parsed and start ≤ end, exactly the rows whose start date is within the inclusive range; otherwise unchanged |
| Averias.SiteFiltered | modules/averias.py:668-701 | with a site column and a non-empty selection, exactly the rows whose site is selected; otherwise unchanged |
| Averias.ConsKeysDistinct | modules/averias.py:231 | adding a row with a new key keeps keys distinct |
| Averias.FilterKeepsKeysDistinct | modules/averias.py:640-701 | filtering after de-duplication keeps alarm ids distinct |
| Averias.FilterFaults | modules/averias.py:217-701 | the pipeline is geo stage, then de-duplication, then date filter, then site filter; its rows come from the geo stage, alarm ids stay distinct, and it fails only when the geo stage does |
| Text.Strip | utils/helpers.py:61 | `str.strip`: no whitespace at either end of a non-empty result |
| Text.DigitsOfStrip | utils/helpers.py:61-64 | stripping keeps every digit in order |
| Text.StripIdempotent | utils/helpers.py:61 | stripping twice is stripping once |
| Text.SplitJoin | utils/helpers.py:73 | joining the parts of a split with the separator gives back the text |
| Text.Split | utils/helpers.py:73 | `str.split` on one character always gives at least one part |
| Text.Lower | modules/averias.py:87 | `str.lower` keeps the length and lower-cases each character on its own |
| Text.LowerIdempotent | modules/averias.py:87 | lower-casing twice is lower-casing once |
| Text.Upper | modules/averias.py:93 | `str.upper` never shortens a text and leaves no ASCII lower-case letter |
| Text.IsSpace | utils/helpers.py:39 | the characters `str.strip` removes (Latin-1 whitespace) |
| Text.IsDigit | utils/helpers.py:64 | the characters `str.isdigit` accepts (ASCII digits and the Latin-1 superscripts one to three) |
| Text.ReplaceAll | utils/helpers.py:38 | `str.replace`: non-overlapping occurrences replaced from the left |
| Frame.DaysFromCivil | utils/helpers.py:135 | day numbering of the proleptic Gregorian calendar from 1970-01-01 |
| Frame.DaysFromCivilCounts | utils/helpers.py:135 | 1970-01-01 is day zero and the next day of a month is the next day number |
| Frame.DayName | utils/helpers.py:135 | `dt.day_name()` is one of the seven English day names |
| Frame.DayNameWeekly | utils/helpers.py:135 | a day and the day a week later have the same name |
| Frame.Minutes | utils/helpers.py:154 | the duration is a number exactly when both times are present, missing otherwise, and zero for equal times |
| Text.NatToStringInjective | utils/widget_keys.py:38-40 | different counters print differently |

## Left out

- Character classes: `lower`, `upper`, `isspace` and `isdigit` are modelled on Latin-1 only. `upper` includes the Latin-1 special cases (ß → "SS", ÿ → Ÿ, µ → Μ); casing of characters beyond Latin-1 is not modelled.
- `pd.to_numeric`: floats are out of scope. `clean_numeric_data` is modelled up to the cleaned text.
- `pd.to_datetime` is a parameter. It is an arbitrary partial parser from (text, format) to a timestamp. Format semantics are not modelled.
- CleanDateCell: a non-text, non-missing cell gives None, whereas the source would clean `str()` of it (utils/helpers.py:34-37). Loaded frames hold only text or missing cells, but ParseDatetimeColumn does not require text-only cells.
- ParseDatetimeColumn: the `except Exception` path (utils/helpers.py:158-159) is not modelled. Under the parser parameter no step can raise.
- Provision.FormatGeoColumns: the `Fecha_Activacion` reformatting (modules/provision.py:26-35) is a date round trip through pandas. It is not modelled.
- Metrics, Plotly charts, layout, CSV/Excel export and the map section of the faults dashboard (modules/averias.py:450-600) are not modelled. They are rendering and I/O.
- `load_csv_file` (utils/data_loader.py:72-88) is file decoding. Its effect on the model is that every loaded cell is text or missing (`dtype=str`).
- The clock: `datetime.now()` in file names (modules/provision.py:355) is not modelled. Only the name before the timestamp is.
- modules/calidad.py, modules/disponibilidad.py, modules/configuration.py, modules/desempeño.py, app.py and styles/dashboard_styles.py are not part of this model.
- CleanAndReorderColumns: requires distinct column names. `pd.read_csv` renames duplicate headers, so a loaded frame never has a repeated name.
- CleanNumericData: requires the listed column names to be distinct. A repeated name would clean a column twice.
- CleanNumericData: a non-text, non-missing cell (a number, a timestamp or a date) is passed through unchanged, whereas the source would clean `str()` of it (utils/helpers.py:57-61), which `to_numeric` then usually turns into NaN. Frames loaded with `dtype=str` hold only text or missing cells, but CleanNumericData does not require text-only cells.
- Present: its contract states membership, the length bound and distinctness, not that the columns keep the order of the required list, although the definition keeps that order.
- FilterAveriasByGeography: requires that the faults have no Región/Provincia/Distrito/Localidad columns, and that a SITE_NAME column in the faults is the site column. Otherwise pandas renames clashing join columns with `_x`/`_y` suffixes, which is not modelled.
- FilterAveriasByGeography: a mapping without SITE_NAME raises a KeyError in the dashboard (modules/averias.py:52). The model returns `MissingSiteName`.
- FormatFaults: requires that no two column names lower-case to the same name. pandas would then have duplicate column labels, which the table model cannot hold. It also requires text-only cells, as loaded.
- ExportRows: requires each filtered column to be present when its level is set. The dashboard raises a KeyError otherwise.
- GroupFirst: groups come in order of first appearance rather than sorted by SITE_NAME. The order does not change the left join's result.
- ModuleKeys: the eight module-level generator globals are modelled as fields of one object.
- ProvisionSession: Streamlit's rerun and widget-state persistence are not modelled. Each handler is one event applied to the drill state.
- PrepareFaults: states the calendar columns and the duration relative to its own start_time and end_time columns, not the parsed texts they came from. FormatFaults is a method, so the contract cannot name the formatted frame. The texts are stated by FormatFaults and ParseDatetimeColumn.
- DedupBy: its own contract states only that rows are not added. Its meaning is carried by DedupIsFirstRows (first row of every key, in input order), DedupFromInput, DedupDistinct, DedupKeepsFirst and DedupKeepsEveryKey.
- The comment at utils/helpers.py:78 says "1,234" becomes "1234". The code at utils/helpers.py:74 sends it to the decimal branch, giving "1.234". The model follows the code (NumberDecimalComma).
