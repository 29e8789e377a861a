# Case Search UI: the staged spreadsheet import and its helpers, in Dafny

Case Search UI is a Flask application. Maintenance engineers use it to search
service-request cases, fault reports, part-replacement (R&I) records,
engineering files and manuals of the ARJ21 and C919 fleets. Each data source
is a table that is refreshed by uploading a spreadsheet in two stages:

1. **Upload.** The upload is staged under a fresh id and analysed against the
   stored table. The user sees a preview of the counts (original, uploaded,
   duplicate, new and final rows).
2. **Confirm.** The confirmation commits the merged table, deletes the
   staging directory and evicts the cached table.

This project models that pipeline, from the HTTP routes down to the cell
cleaning:

- **Headers and the cleaning steps.** Invisible Unicode characters are
  removed from header names. Required headers are checked. Each source's
  processor then cleans the upload: dates, aircraft models, operator aliases,
  serial numbers, ATA codes and the type tag.
- **The merge.** The upload is merged with the stored rows. Rows are sorted
  newest first, and duplicate rows are dropped.
- **Messages.** The preview and commit messages are written, then read back
  by `parse_preview_message`.
- **The staging routes.** These are upload, manual entry, preview and
  confirm, and the workbook-name check of the fault-report processor.

It also models the helpers around the pipeline:

- the keyword search over a table (`search_column`);
- the sensitive-word registry and the text anonymizer;
- the uniform API response bodies;
- the backup script's decision, naming and retention;
- two front-end components:
  - the result table: row selection, CSV export and column headers;
  - the search form: criteria check, type statistics, column picker, levels
    and headers.

Everything is a pure function over immutable values. Spreadsheets are
`Table(columns, rows)`. A row maps column names to cells. A cell is `Null`
(pandas' NaN or None) or `Str(s)`. Files, the clock, uuids, regular
expressions that are not modelled character by character, and pandas'
generic date parser are parameters.

The modules follow the program's structure:

| module | models |
|---|---|
| `Common`, `Sequences`, `Tables` | cells, rows and tables; Python string helpers; filter, distinct, sort |
| `UnicodeCleaner` | app/utils/unicode_cleaner.py |
| `ImportProcessor`, `Dates`, `AnalysisSteps`, `ChangeAnalysis` | app/core/data_processors/data_import_processor.py |
| `Processors` | the five processors under app/core/data_processors/ |
| `FileHandlers` | app/utils/file_handlers.py and the workbook-name check |
| `PreviewMessage` | the preview and commit messages and `parse_preview_message` |
| `ImportRoutes` | app/api/data_import_routes/ |
| `KeywordSearch` | `search_column` in app/routes.py |
| `WordRegistry`, `TextAnonymizer`, `ApiResponse`, `BackupManager` | app/core/word_manager.py, app/core/anonymizer.py, app/services/api_response.py, scripts/backup_manager.py |
| `ResultTable`, `SearchForm` | app/static/js/methods/table.js and search.js |

## Model

| member | source | states |
|---|---|---|
| UnicodeCleaner.RemoveClass | app/utils/unicode_cleaner.py:20-28 | removing one character class leaves no character of that class and keeps the others in order |
| UnicodeCleaner.RemoveClassAppend | app/utils/unicode_cleaner.py:48-55 | removal works character by character: removing from a concatenation is concatenating the removals |
| UnicodeCleaner.InvisibleGone | app/utils/unicode_cleaner.py:48-55 | after the three deletions no bidirectional, control or zero-width character remains, and the rest is a subsequence of the input |
| UnicodeCleaner.RemoveInvisible | app/utils/unicode_cleaner.py:48-55 | the deletions leave no removable character and keep the rest in order |
| UnicodeCleaner.RemoveInvisibleNoop | app/utils/unicode_cleaner.py:48-55 | text without such characters passes the deletions unchanged |
| UnicodeCleaner.RemoveInvisibleAll | app/utils/unicode_cleaner.py:48-55 | text made only of such characters is deleted entirely |
| UnicodeCleaner.CleanText | app/utils/unicode_cleaner.py:30-58 | the cleaned text is visible and trimmed, a subsequence of the input no longer than it; a null value cleans to the empty string |
| UnicodeCleaner.CleanFixpoint | app/utils/unicode_cleaner.py:30-58 | cleaning leaves a text unchanged exactly when it is already visible and trimmed |
| UnicodeCleaner.CleanIdempotent | app/utils/unicode_cleaner.py:30-58 | cleaning twice is cleaning once |
| UnicodeCleaner.CleanDropsEmbedded | app/utils/unicode_cleaner.py:48-55 | invisible characters embedded between visible text are dropped and the visible text is kept whole |
| UnicodeCleaner.HasClassIff | app/utils/unicode_cleaner.py:150-162 | a class is reported exactly when some character of the text belongs to it |
| UnicodeCleaner.PollutedIffNotVisible | app/utils/unicode_cleaner.py:150-164 | a text is polluted exactly when it holds an invisible character |
| UnicodeCleaner.DetectPollution | app/utils/unicode_cleaner.py:137-169 | a non-string is clean; the reported types are exactly the classes present; pollution is reported exactly when some type is; the lengths are the original and the cleaned length |
| UnicodeCleaner.DetectPollutionOrder | app/utils/unicode_cleaner.py:150-168 | types are reported in the fixed order bidirectional, control, zero-width, and the cleaned length never exceeds the original |
| UnicodeCleaner.PollutedIffChanged | app/utils/unicode_cleaner.py:137-169 | for trimmed text, pollution is reported exactly when cleaning changes it |
| UnicodeCleaner.TextCellsFrom | app/utils/unicode_cleaner.py:186-205 | every counted cell is a string cell of a text column of some row |
| UnicodeCleaner.AnalyzePollution | app/utils/unicode_cleaner.py:186-211 | polluted cells never outnumber the cells; cleaning is needed exactly when some cell is polluted; each class count is positive and at most the polluted count; the rate is the polluted share |
| UnicodeCleaner.Rate | app/utils/unicode_cleaner.py:208 | the rate lies in [0, 1], is 0 without cells and otherwise times the total gives the part |
| UnicodeCleaner.NeedsCleaningIffPolluted | app/utils/unicode_cleaner.py:186-211 | a file needs cleaning exactly when one of its text cells is polluted |
| UnicodeCleaner.CleanDataFrame | app/utils/unicode_cleaner.py:60-95 | an empty table is returned as is; otherwise every cell of a targeted text column is cleaned and every other cell kept, with the same columns and row count |
| UnicodeCleaner.CleanRow | app/utils/unicode_cleaner.py:88-93 | a cleaned row has the same columns |
| UnicodeCleaner.CleanDataFrameClearsPollution | app/utils/unicode_cleaner.py:60-95 | after cleaning all text columns, the pollution analysis finds nothing to clean |
| UnicodeCleaner.CleanDataFrameIdempotent | app/utils/unicode_cleaner.py:60-95 | cleaning a table twice is cleaning it once |
| ImportProcessor.DefaultTypeTag | app/core/data_processors/data_import_processor.py:23-27 | a known data-source key maps to its type tag; any other key is its own tag |
| ImportProcessor.ValidateHeaders | app/core/data_processors/data_import_processor.py:108-113 | validation passes exactly when every required header is present; otherwise it names exactly the missing required headers |
| ImportProcessor.ValidateMonotone | app/core/data_processors/data_import_processor.py:108-113 | extra columns never make validation fail, and they remove exactly themselves from the missing set |
| ImportProcessor.OperatorRules | app/core/data_processors/data_import_processor.py:127-183 | the twenty alias rules in source order |
| ImportProcessor.CanonicalOperator | app/core/data_processors/data_import_processor.py:186-192 | the cleaned operator is always a string |
| ImportProcessor.OperatorMeaning | app/core/data_processors/data_import_processor.py:186-192 | a missing operator becomes "无"; a known alias becomes its rule's canonical name and anything else is kept |
| ImportProcessor.OperatorIdempotent | app/core/data_processors/data_import_processor.py:186-192 | cleaning operator names twice is cleaning them once |
| ImportProcessor.RulesIdempotent | app/core/data_processors/data_import_processor.py:186-191 | with rules whose targets are aliases of no other rule, the sequential replacement is idempotent, and a value no rule mentions is kept |
| ImportProcessor.LookupTarget | app/core/data_processors/data_import_processor.py:186-191 | a lookup hit comes from a rule matching the value, whose target it returns |
| ImportProcessor.LookupFirst | app/core/data_processors/data_import_processor.py:186-191 | the first matching rule decides the lookup |
| ImportProcessor.ApplyIsLookup | app/core/data_processors/data_import_processor.py:186-191 | for exclusive rules, replacing rule by rule equals one lookup in the table |
| ImportProcessor.OperatorExclusive | app/core/data_processors/data_import_processor.py:127-183 | the source's alias table is exclusive: no canonical name is an alias of another rule |
| ImportProcessor.AllOwned | app/core/data_processors/data_import_processor.py:127-183 | each rule owns its aliases and target against every other rule |
| ImportProcessor.NoneAbsent | app/core/data_processors/data_import_processor.py:192 | the fill value "无" is no rule's alias, so it survives the replacement |
| ImportProcessor.CollapseMatching | app/core/data_processors/data_import_processor.py:208-212 | replacing a line matching the pattern acts line by line |
| ImportProcessor.AircraftLines | app/core/data_processors/data_import_processor.py:208-212 | each line becomes ARJ21 if it mentions ARJ21, else C919 if it mentions C919, else stays |
| ImportProcessor.AircraftMeaning | app/core/data_processors/data_import_processor.py:208-212 | a missing model becomes "无"; a one-line model is classified by the line rule |
| ImportProcessor.CanonicalAircraft | app/core/data_processors/data_import_processor.py:207-211 | the fill and both replacements of one cell of a text-typed model column give a string; cells that are not strings are handled by `Processors.ModelView` |
| ImportProcessor.AircraftIdempotent | app/core/data_processors/data_import_processor.py:208-212 | cleaning aircraft models twice is cleaning them once |
| ImportProcessor.Digits | app/core/data_processors/fault_report_processor.py:136-142 | removing non-digits leaves only ASCII digits |
| ImportProcessor.NormaliseSerial | app/core/data_processors/fault_report_processor.py:136-142 | a normalised serial is a string of digits |
| ImportProcessor.SerialMeaning | app/core/data_processors/fault_report_processor.py:136-142 | the serial is the input's digits left-padded with zeros to five places, with the same numeric value |
| ImportProcessor.SerialMissing | app/core/data_processors/fault_report_processor.py:136-142 | a missing serial reads "nan", keeps no digits and becomes "00000" |
| ImportProcessor.SerialIdempotent | app/core/data_processors/fault_report_processor.py:136-142 | normalising a serial twice is normalising it once |
| Dates.DatePrefix | app/core/data_processors/data_import_processor.py:226-231 | a parsed prefix starts with four digits and a separator |
| Dates.ConvertDate | app/core/data_processors/data_import_processor.py:214-254 | null gives no date; any date found is representable; a representable y/m/d prefix of the cleaned text wins over every other format |
| Dates.DateCell | app/core/data_processors/case_processor.py:95-98 | a converted date column holds either nothing or the rendering of a representable date, and a missing value stays missing |
| Dates.PrefixOfRendered | app/core/data_processors/data_import_processor.py:226-231 | a rendered date with any suffix is read back by the prefix rule |
| Dates.DateRoundTrip | app/core/data_processors/data_import_processor.py:214-254 | converting a rendered representable date gives the same date back |
| Dates.DateCellIdempotent | app/core/data_processors/case_processor.py:95-98 | converting and rendering a date column twice is doing it once |
| Dates.RenderClean | app/core/data_processors/data_import_processor.py:223 | a rendered date passes the Unicode cleaning unchanged |
| Dates.DayBound | app/core/data_processors/data_import_processor.py:228-229 | a representable date renders in four, two and two digits |
| AnalysisSteps.RenameRow | app/core/data_processors/data_import_processor.py:270-271 | renaming keeps each cell under its new name and nothing else |
| AnalysisSteps.CleanHeaders | app/core/data_processors/data_import_processor.py:270-271 | with distinct cleaned names, header cleaning keeps every cell under its cleaned name; colliding names are refused (a narrowing, see Left out) |
| AnalysisSteps.CleanHeadersIdempotent | app/core/data_processors/data_import_processor.py:270-271 | cleaned headers are visible and trimmed, and cleaning them again changes nothing |
| AnalysisSteps.RenameAgain | app/core/data_processors/data_import_processor.py:270-271 | renaming to the same names again changes nothing |
| AnalysisSteps.TagDefault | app/core/data_processors/data_import_processor.py:289-299 | an untagged table gets the source's default tag in every row, other cells unchanged; a tagged table is returned as is |
| AnalysisSteps.TagDefaultSettles | app/core/data_processors/data_import_processor.py:289-299 | after tagging the type column exists, a non-empty table is tagged, and tagging again changes nothing |
| AnalysisSteps.FillCell | app/core/data_processors/data_import_processor.py:319-322 | filling yields a string and keeps every string |
| AnalysisSteps.FillBlanks | app/core/data_processors/data_import_processor.py:319-322 | filling keeps the columns, the row count and the cells present |
| AnalysisSteps.FillBlanksMeaning | app/core/data_processors/data_import_processor.py:319-322 | cells of filled columns become strings, keeping existing strings; other columns are untouched |
| AnalysisSteps.NewerFirstPreorder | app/core/data_processors/data_import_processor.py:331 | the newest-first date order is a total preorder, so sorting by it is well defined |
| AnalysisSteps.UnionColumns | app/core/data_processors/data_import_processor.py:325-327 | the concatenated columns are the upload's followed by the new stored ones, without repeats |
| AnalysisSteps.Concat | app/core/data_processors/data_import_processor.py:325-327 | concatenation has the union columns and all rows of both tables |
| AnalysisSteps.ConcatKeepsCells | app/core/data_processors/data_import_processor.py:325-327 | every upload cell and every stored cell keeps its value in the concatenation |
| AnalysisSteps.DistinctOrdered | app/core/data_processors/data_import_processor.py:331-334 | dropping duplicates keeps a sorted table sorted |
| AnalysisSteps.Merge | app/core/data_processors/data_import_processor.py:325-334 | the merged table has the concatenated columns |
| AnalysisSteps.MergeMeaning | app/core/data_processors/data_import_processor.py:325-334 | the merged rows are exactly the distinct concatenated rows, newest first, no more than the rows of both tables |
| AnalysisSteps.MergeIgnoresOrder | app/core/data_processors/data_import_processor.py:331-334 | any arrangement of the rows deduplicates to the same rows and count, so the unstable sort does not affect the counts |
| AnalysisSteps.Tally | app/core/data_processors/data_import_processor.py:337-340 | the counts read the sizes of the stored, uploaded and merged tables |
| AnalysisSteps.TallyMeaning | app/core/data_processors/data_import_processor.py:337-340 | duplicates plus new rows equal uploaded rows; duplicates are the rows deduplication dropped; new rows are never negative when the stored table has no repeats |
| AnalysisSteps.AlignInjective | app/core/data_processors/data_import_processor.py:325-327 | widening rows to the union columns keeps distinct rows distinct |
| AnalysisSteps.NegativeAddedExample | app/core/data_processors/data_import_processor.py:337-340 | a stored table holding one row twice, with an empty upload, reports -1 new rows |
| ChangeAnalysis.CleanCategory | app/core/data_processors/data_import_processor.py:286 | a successful clean has exactly the source's final columns |
| ChangeAnalysis.FinalShape | app/core/data_processors/data_import_processor.py:289-331 | every source's final columns are distinct and include the type and date columns |
| ChangeAnalysis.Stored | app/core/data_processors/data_import_processor.py:302-313 | a missing stored table reads as an empty one |
| ChangeAnalysis.Conclude | app/core/data_processors/data_import_processor.py:319-352 | the original count is the stored table's size |
| ChangeAnalysis.Prepare | app/core/data_processors/data_import_processor.py:266-299 | a prepared upload had distinct cleaned headers holding every required column |
| ChangeAnalysis.AnalyzeChanges | app/core/data_processors/data_import_processor.py:256-357 | a successful analysis had every required column and reports the stored table's size as the original count |
| ChangeAnalysis.Reply | app/core/data_processors/data_import_processor.py:344-357 | the reply succeeds exactly for a successful analysis, and a failure's message starts with the failure prefix |
| ChangeAnalysis.AnalysisChecksSchema | app/core/data_processors/data_import_processor.py:256-285 | with distinct cleaned headers the analysis fails with missing headers exactly when required ones are absent, naming exactly those; repeated cleaned headers are refused by the model (see Left out) |
| ChangeAnalysis.AnalysisCleanFails | app/core/data_processors/data_import_processor.py:256-357 | for cases, engineering files and manuals with distinct, complete cleaned headers, the analysis fails in cleaning exactly when the upload has no rows, or its model column keeps a non-`object` type through the fill, or, for cases, the MSN source column is not text |
| ChangeAnalysis.PrepareCleanFails | app/core/data_processors/data_import_processor.py:266-299 | the same, for the preparation before the merge |
| ChangeAnalysis.CleanCategoryFails | app/core/data_processors/data_import_processor.py:286 | with the required columns present, a case, engineering or manual cleaning fails exactly without rows, with a model column that stays non-`object` after the fill, or with a non-text MSN column for cases |
| ChangeAnalysis.HeaderOnlyUploadFails | app/core/data_processors/data_import_processor.py:256-357 | a case, engineering or manual upload with a valid header and no rows answers false with the failure prefix |
| ChangeAnalysis.Loaded | app/core/data_processors/data_import_processor.py:266-282 | the upload loads exactly when its cleaned headers are distinct, and then has those headers and every row |
| ChangeAnalysis.ColumnTypeOf | app/core/data_processors/data_import_processor.py:274-281 | a column is `object` exactly when the read made it text, and after sanitising every cell of it is a string |
| ChangeAnalysis.AnalysisMerges | app/core/data_processors/data_import_processor.py:315-340 | the merged table is the distinct, newest-first union of the filled upload and the stored rows, and the counts relate as the preview promises |
| ChangeAnalysis.ReplyRoundTrip | app/core/data_processors/data_import_processor.py:344-357 | a successful analysis's message parses back to its counts (negatives read as 0); a failure answers false with the failure prefix |
| ChangeAnalysis.AnalysisPreviewExact | app/core/data_processors/data_import_processor.py:337-352 | the preview shows the exact original, uploaded, duplicate and final counts, and the new count clamped at 0 |
| ChangeAnalysis.PreparedTagged | app/core/data_processors/data_import_processor.py:289-299 | a prepared upload has a type column, and every row is tagged when there are rows |
| ChangeAnalysis.SaveChanges | app/core/data_processors/data_import_processor.py:359-384 | saving succeeds exactly when the write does |
| ChangeAnalysis.SaveReportsCount | app/core/data_processors/data_import_processor.py:376-384 | a successful save stores the merged table and its message reads back the new-row count; a failure message carries the failure prefix |
| Processors.TextCell | app/core/data_processors/case_processor.py:112 | text conversion yields a string and keeps strings |
| Processors.StoredDateStable | app/core/data_processors/case_processor.py:95-98 | a stored rendered date converts to itself again |
| Processors.ReplaceCell | app/core/data_processors/case_processor.py:107-109 | replacing in a cell keeps missing values missing and strings strings |
| Processors.FixMsn | app/core/data_processors/case_processor.py:107-109 | the MSN fix keeps missing values missing |
| Processors.StrValues | app/core/data_processors/case_processor.py:107-108 | the `.str` accessor on an `object` column turns each non-string cell into a missing value and keeps every other cell and every row |
| Processors.NoneMissingMeaning | app/core/data_processors/data_import_processor.py:208 | the model column has no missing cell exactly when every row holds a string there, the case in which the fill keeps a non-`object` type |
| Processors.ReplaceAircraft | app/core/data_processors/data_import_processor.py:209-210 | the `.str` replacement of the model column leaves a cell missing exactly when it was missing |
| Processors.ModelViewMeaning | app/core/data_processors/data_import_processor.py:207-211 | the model cleaning of a row gives a missing value where the filled column held a non-string, and the canonical model of the cell otherwise |
| Processors.FixMsnUpper | app/core/data_processors/case_processor.py:107-109 | a fixed MSN never contains "all" |
| Processors.CleanCase | app/core/data_processors/case_processor.py:89-125 | a cleaned case table has exactly the final columns |
| Processors.CaseFinalDistinct | app/core/data_processors/case_processor.py:61-75 | the case table's final columns are distinct |
| Processors.CaseRequiredCovers | app/core/data_processors/case_processor.py:13-75 | every column the cleaning reads is required, and every final column is required or derived |
| Processors.CaseAccepts | app/core/data_processors/case_processor.py:89-125 | with all required columns, cleaning succeeds exactly when there are rows, the model column reads as text after the fill and the MSN source column is of `object` type; no rows fails in the date formatting, a non-text model column in the model cleaning, a non-`object` MSN column in the `.str` replacement |
| Processors.CaseRejectsMissing | app/core/data_processors/case_processor.py:95-123 | a table lacking any column the cleaning reads fails |
| Processors.CaseRejects | app/core/data_processors/case_processor.py:89-125 | a key error names only absent columns, a date-formatting failure happens only without rows, a `.str` failure only with rows and either a model column that stays non-`object` after the fill or a non-`object` MSN column, and nothing else fails |
| Processors.CaseOutput | app/core/data_processors/case_processor.py:89-125 | a successful cleaning had rows, a text model column and an `object` MSN column, and its rows are the converted input rows, with non-string model and MSN cells made missing, that pass the filter, in order |
| Processors.CaseRows | app/core/data_processors/case_processor.py:120-123 | the cleaned rows are the converted rows of the kept input rows, one for one |
| Processors.CaseMsnNonText | app/core/data_processors/case_processor.py:106-108 | an input row whose MSN cell is not a string gets a missing MSN |
| Processors.CaseWellFormed | app/core/data_processors/case_processor.py:123 | a cleaned case table is well formed |
| Processors.CleanedThenFiltered | app/core/data_processors/case_processor.py:115-120 | filtering after cleaning equals cleaning the rows the filter keeps |
| Processors.CaseModelColumn | app/core/data_processors/case_processor.py:100-101 | each output model cell is missing where the filled column held a non-string, and otherwise the canonical model of the input cell |
| Processors.CaseCanonical | app/core/data_processors/case_processor.py:95-123 | every cleaned case row passes the filter and holds canonical dates, operator, MSN, ATA and tag, and a model that is canonical whenever it is present |
| Processors.CaseDates | app/core/data_processors/case_processor.py:95-98 | both case date columns hold stored dates |
| Processors.CaseModel | app/core/data_processors/case_processor.py:101 | the case model is present exactly when the input cell is a string, and model cleaning leaves it unchanged |
| Processors.CaseOperator | app/core/data_processors/case_processor.py:104 | the case operator is a string that operator cleaning leaves unchanged |
| Processors.CaseMsn | app/core/data_processors/case_processor.py:107-117 | the MSN never contains "all", the ATA is a string, and an untagged upload is tagged "服务请求" |
| Processors.SameFinal | app/core/data_processors/r_and_i_record_processor.py:37-51 | part-replacement records have the fault report's final columns, so both merge into one store |
| Processors.CleanFault | app/core/data_processors/fault_report_processor.py:89-173 | a cleaned fault table has exactly the final columns |
| Processors.FaultKeptRequired | app/core/data_processors/fault_report_processor.py:21-60 | every kept input column is required |
| Processors.FaultFinalParts | app/core/data_processors/fault_report_processor.py:46-60 | the final columns are the kept inputs, the type tag and the part columns, which are disjoint |
| Processors.FaultAccepts | app/core/data_processors/fault_report_processor.py:89-173 | the fault cleaning succeeds exactly when all required columns exist, every kept column survives the removal of empty columns, and the model column does not keep a non-`object` type through the fill |
| Processors.FaultModelRejected | app/core/data_processors/fault_report_processor.py:129-130 | with the required columns and a non-empty model column, a model column without missing cells and of a non-`object` type fails in the model cleaning |
| Processors.FaultKeptAccepted | app/core/data_processors/fault_report_processor.py:105-171 | a table with every required column, every kept column non-empty and a model column that reads as text after the fill cleans successfully |
| Processors.FaultKeptMissing | app/core/data_processors/fault_report_processor.py:108-171 | an entirely empty kept column makes the fault cleaning fail |
| Processors.FaultRejectsEmpty | app/core/data_processors/fault_report_processor.py:108-171 | an upload without rows fails, since every column is empty and is dropped |
| Processors.FaultRows | app/core/data_processors/fault_report_processor.py:111-171 | each output row holds, per final column, the null-cleaned converted input cell, with the model read through the fill and `.str` |
| Processors.FaultModelColumn | app/core/data_processors/fault_report_processor.py:129-130 | each output model cell is the null cleaning of a missing value where the filled column held a non-string, and of the canonical model of the input cell otherwise |
| Processors.FaultWellFormed | app/core/data_processors/fault_report_processor.py:166-171 | a cleaned fault table is well formed |
| Processors.FaultCellClean | app/core/data_processors/fault_report_processor.py:111-127 | the date column holds stored dates and the tag is "故障报告" |
| Processors.FaultTableCellClean | app/core/data_processors/fault_report_processor.py:130-148 | operator, serial and ATA cells are canonical, and the model is canonical whenever it is present |
| Processors.FaultSerialClean | app/core/data_processors/fault_report_processor.py:136-142 | the serial is at least five digits and normalising it again changes nothing |
| Processors.CleanRAndI | app/core/data_processors/r_and_i_record_processor.py:66-139 | a cleaned part-replacement table has exactly the final columns |
| Processors.RAndIAccepts | app/core/data_processors/r_and_i_record_processor.py:66-139 | the cleaning succeeds exactly when all required columns exist, the non-empty columns supply every final column, and the model column reads as text after the fill |
| Processors.RAndIOk | app/core/data_processors/r_and_i_record_processor.py:66-139 | success means required columns, a non-empty model and operator, and every final column supplied by a non-empty column, a rename or a part column |
| Processors.RAndICovered | app/core/data_processors/r_and_i_record_processor.py:91-137 | with model and operator present, the final columns are covered exactly when the upload supplies its own or renamed columns |
| Processors.RAndIRejectsEmpty | app/core/data_processors/r_and_i_record_processor.py:75-137 | an upload without rows fails |
| Processors.RAndIRows | app/core/data_processors/r_and_i_record_processor.py:78-137 | each output row holds, per final column, the null-cleaned converted cell read through the renames, with the model read through the fill and `.str` |
| Processors.RAndIModelColumn | app/core/data_processors/r_and_i_record_processor.py:98-99 | each output model cell is the null cleaning of a missing value where the filled column held a non-string, and of the canonical model of the input cell otherwise |
| Processors.RAndIWellFormed | app/core/data_processors/r_and_i_record_processor.py:132-137 | a cleaned part-replacement table is well formed |
| Processors.RAndICellClean | app/core/data_processors/r_and_i_record_processor.py:78-91 | the tag is "部件拆换记录", and a renamed replacement date is a stored date |
| Processors.RAndIModelClean | app/core/data_processors/r_and_i_record_processor.py:99 | the model is present exactly when the cell read is a string, and model cleaning leaves it unchanged |
| Processors.RAndIOperatorClean | app/core/data_processors/r_and_i_record_processor.py:102 | the operator is a string that operator cleaning leaves unchanged |
| Processors.RAndISerialClean | app/core/data_processors/r_and_i_record_processor.py:105-108 | the serial is at least five digits and normalising it again changes nothing |
| Processors.CleanDocument | app/core/data_processors/engineering_processor.py:49-73 | a cleaned engineering file or manual table has the final columns and all input rows, of which there is at least one |
| Processors.DocumentShapes | app/core/data_processors/manual_processor.py:19-38 | both document kinds have distinct final columns holding the date, model and tag columns |
| Processors.DocumentAccepts | app/core/data_processors/manual_processor.py:40-64 | a document upload cleans exactly when its date column exists, it has rows, and an uploaded model column does not keep a non-`object` type through the fill; without rows the date formatting fails, with such a model column the model cleaning |
| Processors.DocumentRows | app/core/data_processors/engineering_processor.py:49-73 | the cleaned table is well formed, every row is clean, and an uploaded model column is missing where it held a non-string after the fill and canonical otherwise |
| Processors.DocumentRowClean | app/core/data_processors/engineering_processor.py:55-71 | a document row has a stored date, a model canonical whenever present (ARJ21 when the upload has none), its tag, and every other column filled |
| FileHandlers.Extension | app/utils/file_handlers.py:27-29 | there is an extension exactly when the name has a dot, and it is the dot-free text after the last dot |
| FileHandlers.ExtensionOf | app/utils/file_handlers.py:27-29 | the extension of stem.ext is ext |
| FileHandlers.AllowedFileMeaning | app/utils/file_handlers.py:24-29 | a name is allowed exactly when its lower-cased last extension is xls or xlsx |
| FileHandlers.AllowedFile | app/utils/file_handlers.py:24-29 | an allowed name has a dot and at least four characters |
| FileHandlers.NoDotNotAllowed | app/utils/file_handlers.py:27-29 | a name without a dot is never allowed |
| FileHandlers.AllowedFileExamples | app/utils/file_handlers.py:24-29 | "", "test" and "a.file.txt" are refused; "test.XlS" and "a.b.xlsx" are allowed |
| FileHandlers.StagedName | app/utils/file_handlers.py:34-36 | the staged name is the temp id, an underscore and the custom name if given and non-empty, else the secured name |
| FileHandlers.Cleanup | app/utils/file_handlers.py:103-113 | cleanup keeps, in order, exactly the files not starting with the temp id |
| FileHandlers.CleanupPartition | app/utils/file_handlers.py:103-113 | removed and kept files together are exactly the files |
| FileHandlers.CleanupStaged | app/utils/file_handlers.py:103-113 | cleanup removes this upload's staged file and keeps another upload's |
| FileHandlers.Basename | app/core/data_processors/fault_report_processor.py:190 | the base name has no slash and a name without one is its own base name |
| FileHandlers.StagedOriginal | app/core/data_processors/fault_report_processor.py:196-207 | the original name recovered after the uuid prefix has no line break |
| FileHandlers.ValidateFileName | app/core/data_processors/fault_report_processor.py:175-214 | no path answers false, and only no path does |
| FileHandlers.ValidateFileNameMeaning | app/core/data_processors/fault_report_processor.py:175-214 | a path is accepted exactly when its base name, or the name after a uuid prefix, is a valid report workbook name; otherwise the check raises |
| FileHandlers.PrefixedNameValid | app/core/data_processors/fault_report_processor.py:193-194 | a dated workbook with the report prefix is accepted in any directory |
| FileHandlers.StagedNameValid | app/core/data_processors/fault_report_processor.py:196-207 | a dated workbook staged under a uuid is accepted |
| PreviewMessage.DigitRun | app/utils/file_handlers.py:80-86 | the digit run is a prefix of digits, followed by a non-digit or the end |
| PreviewMessage.MatchStartsWithKey | app/utils/file_handlers.py:80-86 | a match starts with its label |
| PreviewMessage.SearchFirst | app/utils/file_handlers.py:89-92 | a search hit is the match at the first position where one exists |
| PreviewMessage.SearchNone | app/utils/file_handlers.py:89-92 | a failed search matches at no position |
| PreviewMessage.NumberAfterLabel | app/utils/file_handlers.py:80-86 | a label followed by a number and "条" reads the number; a negative number reads nothing |
| PreviewMessage.SearchNumber | app/utils/file_handlers.py:89-92 | a label that occurs once is found and its number read, whatever surrounds it |
| PreviewMessage.ParsePreview | app/utils/file_handlers.py:67-100 | the total is always the final count, and a message without the final label has final 0 |
| PreviewMessage.PreviewRoundTrip | app/core/data_processors/data_import_processor.py:344-352 | parsing the preview message gives back its five counts, negatives read as 0 |
| PreviewMessage.ParseFound | app/utils/file_handlers.py:89-95 | the stats are the five searched numbers, each 0 when not found |
| PreviewMessage.CommitRoundTrip | app/core/data_processors/data_import_processor.py:381 | the commit message's count reads back as the new-row count, and a negative count reads nothing |
| ImportRoutes.StagedFileName | app/api/data_import_routes/data_import_routes.py:171-173 | the staged file name is the upload's or the route prefix joined to it |
| ImportRoutes.StagedFileNameMeaning | app/api/data_import_routes/data_import_routes.py:171-173 | the prefix is added exactly when the route has a non-empty one and the name is a dated workbook |
| ImportRoutes.FaultsStagedNameValid | app/api/data_import_routes/faults_routes.py:8-10 | a fault-report upload staged with its prefix passes the workbook-name check |
| ImportRoutes.Analyse | app/api/data_import_routes/data_import_routes.py:200-261 | only a finished successful analysis answers 200 and keeps the staging; a failure answers 400 with its message, an exception 500, and both remove the staging; other stagings and the cache are untouched |
| ImportRoutes.ProcessImport | app/api/data_import_routes/data_import_routes.py:151-264 | missing file, empty name and wrong type answer 400 with no change; success stages exactly the saved file and its info; a failed analysis leaves no staging |
| ImportRoutes.ProcessManualImport | app/api/data_import_routes/data_import_routes.py:59-149 | no rows answers 400 with no change; success stages the generated workbook; failure leaves no staging |
| ImportRoutes.KeepNonBlank | app/api/data_import_routes/data_import_routes.py:385-393 | exactly the rows with a value that is true in Python and prints non-blank are kept, in order |
| ImportRoutes.NonBlankRowMeaning | app/api/data_import_routes/data_import_routes.py:388 | a row counts exactly when it has a string that is not all whitespace, or a value other than a string that is true: not None, false, zero, `[]` or `{}` |
| ImportRoutes.ProcessPreview | app/api/data_import_routes/data_import_routes.py:362-482 | a non-JSON request, a payload without a data list and all-blank rows answer 400 with no change; success needs a non-blank row and stages the preview workbook |
| ImportRoutes.FalsyRowsRefused | app/api/data_import_routes/data_import_routes.py:385-393 | rows holding only `0`, `false`, `[]`, `{}`, `null` or a whitespace string answer 400 "所有行都是空的" and stage nothing |
| ImportRoutes.NumberRowAccepted | app/api/data_import_routes/data_import_routes.py:385-393 | a row holding a non-zero number counts, and with a successful analysis the preview answers 200 |
| ImportRoutes.ProcessConfirm | app/api/data_import_routes/data_import_routes.py:266-360 | without a committable staging nothing changes and 400 is answered; a finished commit removes the staging and on success evicts the cache; an exception answers 500 and removes nothing |
| ImportRoutes.UploadThenConfirm | app/api/data_import_routes/data_import_routes.py:151-360 | after a successful upload, confirming removes the staging again, evicts on success and reports the committed count |
| ImportRoutes.PreviewReportsCounts | app/api/data_import_routes/data_import_routes.py:211-244 | a successful upload reports the preview message's counts |
| ImportRoutes.ConfirmLeaks | app/api/data_import_routes/data_import_routes.py:295-324 | a staging without info or without its workbook is never removed by any sequence of confirms |
| ImportRoutes.RaisingCommitLeaks | app/api/data_import_routes/data_import_routes.py:326-360 | commits that raise never remove the staging |
| ImportRoutes.Raises | app/api/data_import_routes/data_import_routes.py:358-360 | the commit outcomes are all exceptions |
| ImportRoutes.ConfirmRAndIAsWritten | app/api/data_import_routes/r_and_i_record_routes.py:19-31 | as written, the R&I confirm answers only 200 or 500 |
| ImportRoutes.RAndIFailureCrashes | app/api/data_import_routes/r_and_i_record_routes.py:22-25 | a confirm without an id answers 400 from the shared route but 500 from the R&I route as written |
| ImportRoutes.ConfirmRAndI | app/api/data_import_routes/r_and_i_record_routes.py:19-31 | the corrected R&I confirm passes the shared reply through, and a success evicts both the R&I and the fault-report tables |
| KeywordSearch.Widen | app/routes.py:45-48 | full-width commas become commas and nothing else changes |
| KeywordSearch.CleanParts | app/routes.py:45-48 | the kept keywords are non-empty, trimmed and lower case, no more than the parts |
| KeywordSearch.KeywordList | app/routes.py:45-48 | keyword text gives normal keywords; a keyword list is lower-cased as given |
| KeywordSearch.KeywordRoundTrip | app/routes.py:45-48 | normal keywords joined by commas split back into the same keywords |
| KeywordSearch.SearchColumns | app/routes.py:51-59 | a named column is searched as given; a list keeps exactly its columns present in the table and fails when none is; other arguments are invalid |
| KeywordSearch.SearchColumn | app/routes.py:39-78 | falsy keywords return the table; results keep the columns and are a subsequence of the rows |
| KeywordSearch.SearchMeaning | app/routes.py:62-78 | a row is returned exactly when it is a table row whose match under "and" or "or" logic differs from the negation flag |
| KeywordSearch.SearchErrors | app/routes.py:51-78 | the search fails exactly for an invalid column argument, a list with no present column, or a missing named column with keywords |
| KeywordSearch.SearchPartition | app/routes.py:62-78 | the plain and the negated search split the rows between them |
| KeywordSearch.SearchIdempotent | app/routes.py:39-78 | searching the result again returns it unchanged |
| KeywordSearch.NoKeywordLeft | app/routes.py:45-75 | text with no keyword left keeps every row under "and" and none under "or" |
| KeywordSearch.CommaOnly | app/routes.py:45-48 | a lone comma gives no keywords |
| WordRegistry.Words | app/core/word_manager.py:96-103 | the words of a category's entries, in order |
| WordRegistry.SortedList | app/core/word_manager.py:96-103 | the index holds exactly the stored words, longest first |
| WordRegistry.Load | app/core/word_manager.py:33-94 | a loaded registry's index matches its words; a missing file gives the five empty categories and an empty index |
| WordRegistry.EmptyHasNoWords | app/core/word_manager.py:33-45 | empty categories store no words |
| WordRegistry.FindWord | app/core/word_manager.py:127-129 | the duplicate check finds a word exactly when some category stores it |
| WordRegistry.AddWord | app/core/word_manager.py:116-144 | blank words and unknown categories are refused with no change; a stored word is refused with no change; a change files the new stripped word; success means changed and saved |
| WordRegistry.RemoveWord | app/core/word_manager.py:146-170 | an unknown category or a word not in it is refused with no change; success needs the save |
| WordRegistry.GetAllWords | app/core/word_manager.py:105-110 | exactly the five categories in the fixed order, each with its entries or none |
| WordRegistry.GetAllWordsEmpty | app/core/word_manager.py:70-110 | a registry loaded without a file lists the five categories, each empty |
| WordRegistry.GetAllWordsAfterAdd | app/core/word_manager.py:105-142 | after a successful add the named category's list gains the stripped word at its end and every other list is unchanged |
| WordRegistry.AllWordsUpdate | app/core/word_manager.py:132-164 | replacing one category changes the stored words by exactly the entries replaced |
| WordRegistry.Filed | app/core/word_manager.py:132-138 | filing appends the entry to its category and leaves the others |
| WordRegistry.FiledWords | app/core/word_manager.py:132-138 | filing adds exactly the new word to the stored words |
| WordRegistry.Unfiled | app/core/word_manager.py:154-164 | unfiling removes the one entry from its category and leaves the others |
| WordRegistry.UnfiledWords | app/core/word_manager.py:154-164 | unfiling takes exactly that word out of the stored words |
| WordRegistry.AddPreserves | app/core/word_manager.py:116-144 | adding keeps the index equal to the stored words, longest first, and words unique; a change files the stripped word in the chosen category |
| WordRegistry.RemovePreserves | app/core/word_manager.py:146-170 | removing keeps the index consistent and words unique; a change removes the first matching entry of the chosen category only |
| WordRegistry.AllWordsHas | app/core/word_manager.py:127-129 | a word of any category is among the stored words |
| WordRegistry.UnfiledFiled | app/core/word_manager.py:132-164 | unfiling the entry just filed restores the categories and the index's words |
| WordRegistry.RemoveFiled | app/core/word_manager.py:146-170 | removing a word just filed unfiles the appended entry |
| WordRegistry.AddThenRemove | app/core/word_manager.py:116-170 | adding then removing a stripped word restores every category and the index's words |
| WordRegistry.AddTwice | app/core/word_manager.py:127-129 | a word once added cannot be added again, in any category |
| WordRegistry.DropOrdered | app/core/word_manager.py:162-164 | removing a word from the index keeps it longest first |
| TextAnonymizer.Load | app/core/anonymizer.py:38-61 | the patterns are the defaults; the words are exactly the file's words, longest first; a missing file gives none |
| TextAnonymizer.AddUnseen | app/core/anonymizer.py:63-77 | new items are appended after the old ones, each value once |
| TextAnonymizer.AddUnseenOrder | app/core/anonymizer.py:72-77 | what is appended keeps the order of the given items |
| TextAnonymizer.AddUnseenPresent | app/core/anonymizer.py:63-77 | items already present add nothing |
| TextAnonymizer.AddSensitiveWords | app/core/anonymizer.py:63-70 | the words become the old and the new ones, without repeats, longest first; patterns are unchanged |
| TextAnonymizer.SortNoDup | app/core/anonymizer.py:70 | sorting keeps a list without repeats |
| TextAnonymizer.AddWordsTwice | app/core/anonymizer.py:63-70 | adding the same words twice is adding them once |
| TextAnonymizer.AddPatterns | app/core/anonymizer.py:72-77 | unseen patterns are appended in the given order, the old ones keep their places, and the words are unchanged |
| TextAnonymizer.Collapse | app/core/anonymizer.py:86 | collapsing leaves only single spaces and keeps trimmed text trimmed |
| TextAnonymizer.Normalise | app/core/anonymizer.py:86-87 | normalised text is trimmed, has single spaces, is no longer, and "" stays "" |
| TextAnonymizer.CollapseVisible | app/core/anonymizer.py:86 | collapsing keeps every non-space character in order |
| TextAnonymizer.CollapseFixed | app/core/anonymizer.py:86 | text already of single spaces collapses to itself |
| TextAnonymizer.NormaliseIdempotent | app/core/anonymizer.py:86-87 | normalising twice is normalising once |
| TextAnonymizer.NormaliseVisible | app/core/anonymizer.py:86-87 | normalising keeps every non-space character in order |
| TextAnonymizer.RemovePatterns | app/core/anonymizer.py:81-82 | removing pattern matches never lengthens the text |
| TextAnonymizer.ReplaceShrinks | app/core/anonymizer.py:83-84 | deleting a non-empty word never lengthens the text |
| TextAnonymizer.RemoveWords | app/core/anonymizer.py:83-84 | deleting the words in list order never lengthens the text |
| TextAnonymizer.AnonymizeText | app/core/anonymizer.py:79-88 | a non-string comes back unchanged; a string comes back trimmed, with single spaces, no longer; "" stays "" |
| TextAnonymizer.NothingToRemove | app/core/anonymizer.py:79-88 | with no words and no matches only whitespace is normalised, every visible character survives, and a second pass changes nothing |
| TextAnonymizer.NoMatchesKeep | app/core/anonymizer.py:81-82 | patterns that match nothing leave the text unchanged |
| TextAnonymizer.UnmarkedKept | app/core/anonymizer.py:81-82 | deleting no position keeps the text |
| ApiResponse.Success | app/services/api_response.py:24-35 | status success and the message; data and meta present exactly when not None; no other field |
| ApiResponse.Error | app/services/api_response.py:50-61 | the body has status error, the code (also returned) and the message; details only when given |
| ApiResponse.TotalPages | app/services/api_response.py:78 | with positive page size the pages are the ceiling of total over size, else 0 |
| ApiResponse.TotalPagesLeast | app/services/api_response.py:78 | the page count is the least that holds every record |
| ApiResponse.Pagination | app/services/api_response.py:80-88 | the block holds page, size, total, the page count, has_next iff page is below it and has_prev iff page exceeds 1 |
| ApiResponse.Paginated | app/services/api_response.py:91 | a success with data and message unchanged and the pagination block under meta |
| ApiResponse.HasNextMeaning | app/services/api_response.py:85 | has_next holds exactly when records remain after the current page |
| BackupManager.LastBackupSize | scripts/backup_manager.py:266-285 | a non-zero size comes from a successful record carrying it |
| BackupManager.LastBackupSizeIs | scripts/backup_manager.py:273-282 | the size read is the one of the last successful sized record |
| BackupManager.LastSuccessStamp | scripts/backup_manager.py:313-330 | there is no stamp exactly when no record succeeded |
| BackupManager.ShouldBackup | scripts/backup_manager.py:287-351 | size 0 means no backup; a last size of 0 means backup; a changed size backs up only past a readable stamp |
| BackupManager.ShouldBackupMeaning | scripts/backup_manager.py:313-347 | with a readable stamp, a changed size backs up, and an unchanged one backs up exactly when the interval has passed |
| BackupManager.DaysBound | scripts/backup_manager.py:336-340 | whole days reach k exactly when the seconds reach k days |
| BackupManager.UnreadableStampBlocks | scripts/backup_manager.py:313-351 | an unreadable stamp on the latest success stops the backup even when the size changed |
| BackupManager.Retain | scripts/backup_manager.py:176-199 | the first min(n, keep) directories in descending (creation time, name) order are kept, the rest deleted, none lost, and no kept one orders below a deleted one |
| BackupManager.RetainOfTwo | scripts/backup_manager.py:180-191 | of two directories, keeping one keeps the greater in (creation time, name) order, whatever the listing order |
| BackupManager.RetainTieBreak | scripts/backup_manager.py:180-191 | of two directories created in the same second, the `_HHMMSS` one is kept over the plain day one |
| BackupManager.DaysSince | scripts/backup_manager.py:327 | the whole days elapsed are the floor of the seconds over 86400 |
| BackupManager.BackupDirName | scripts/backup_manager.py:99-105 | the name starts with the day stamp and is the day stamp exactly when that name is free |
| BackupManager.DayStampRoundTrip | scripts/backup_manager.py:99 | the day stamp reads back as the day |
| BackupManager.CreateBackup | scripts/backup_manager.py:131-165 | a missing or empty source fails with no change; success needs copied items and creates the named directory; zero copied leaves no directory; no other directory changes |
| BackupManager.BackupSettles | scripts/backup_manager.py:131-351 | right after a recorded backup the last size is the recorded one, and with unchanged data no backup is due before the interval |
| ResultTable.IndexOf | app/static/js/methods/table.js:77-89 | the first position of the row, or -1 exactly when absent |
| ResultTable.RowClick | app/static/js/methods/table.js:66-91 | a check-box click changes nothing; a shift-click adds every row between the two clicks inclusive; any other click toggles only the row; the row becomes the last clicked |
| ResultTable.RangeSymmetric | app/static/js/methods/table.js:77-89 | the shift range does not depend on which end was clicked first |
| ResultTable.ClickTwice | app/static/js/methods/table.js:86-89 | two plain clicks on a row give the selection back |
| ResultTable.AnalyzeSelected | app/static/js/methods/table.js:104-112 | the analysis opens exactly for 1 to 300 selected rows, with them; otherwise the matching warning |
| ResultTable.Escape | app/static/js/methods/table.js:200-202 | escaping keeps the characters and doubles quotes, never shortening |
| ResultTable.EscapeIsReplace | app/static/js/methods/table.js:200-202 | escaping is the global replacement of a quote by two |
| ResultTable.EncodeField | app/static/js/methods/table.js:199-207 | a cell with a comma, line feed or quote is quoted; any other cell is written as is |
| ResultTable.EncodeLine | app/static/js/methods/table.js:199-207 | every line ends with a line feed |
| ResultTable.ExportCsv | app/static/js/methods/table.js:184-209 | nothing is exported without a selection; the file starts with the byte-order mark and ends with a line feed |
| ResultTable.ReadRecord | app/static/js/methods/table.js:199-207 | the reader consumes input on every record |
| ResultTable.FieldRoundTrip | app/static/js/methods/table.js:199-207 | every cell without a carriage return is read back from its encoding |
| ResultTable.LineRoundTrip | app/static/js/methods/table.js:199-207 | a line of such cells is read back as those cells |
| ResultTable.RowsRoundTrip | app/static/js/methods/table.js:192-209 | the exported rows read back as their cells, row by row |
| ResultTable.ExportRoundTrip | app/static/js/methods/table.js:184-209 | after the mark the file reads back as the header and every exported cell, when names are plain and cells free of carriage returns |
| ResultTable.CarriageReturnUnread | app/static/js/methods/table.js:203-205 | a lone carriage return is left unquoted and breaks the reading |
| ResultTable.DefaultHeaders | app/static/js/methods/table.js:309-322 | the four known sources have fixed headers starting with the serial column; any other source has none |
| ResultTable.HeadersFor | app/static/js/methods/table.js:324-336 | configured columns get the serial column in front exactly when they lack it; an unconfigured source gets the defaults |
| ResultTable.HeadersStable | app/static/js/methods/table.js:324-336 | deriving headers from derived headers changes nothing |
| ResultTable.InitTableHeaders | app/static/js/methods/table.js:263-289 | no source gives no headers; otherwise the source's headers, unchanged when they already hold the similarity column or outside similarity mode, and else with the similarity column appended at the end in similarity mode |
| SearchForm.CheckCriteria | app/static/js/methods/search.js:90-113 | the search starts exactly when some level has non-blank keywords and columns, at the first such level; otherwise the warning |
| SearchForm.StatisticsCount | app/static/js/methods/search.js:165-178 | the counted types are exactly the results' types, falsy as unknown, each with its number of results |
| SearchForm.TypeStatistics | app/static/js/methods/search.js:165-178 | the counted types are exactly the results' types |
| SearchForm.StatisticsTotal | app/static/js/methods/search.js:165-178 | the counts add up to the number of results, and no results give no counts |
| SearchForm.TypeOrder | app/static/js/methods/search.js:165-178 | each counted type is listed once |
| SearchForm.ColumnSelect | app/static/js/methods/search.js:326-350 | without the select-all entry the selection is taken; with it the level is emptied when it holds all columns and filled with them otherwise |
| SearchForm.SelectAllAlternates | app/static/js/methods/search.js:328-347 | picking select-all again alternates between all and no columns |
| SearchForm.UpdateTableHeaders | app/static/js/methods/search.js:401-414 | similarity mode keeps the source's headers as a prefix and appends the similarity column at the end only when they lack it; other modes remove it; no other header changes |
| SearchForm.InitMatchesUpdate | app/static/js/methods/search.js:401-414 | with a data source, the initial headers in similarity mode are those switching to similarity mode shows, and switching to another mode shows the initial headers without the similarity column |
| SearchForm.PlainTwice | app/static/js/methods/search.js:401-414 | removing the similarity column twice is removing it once |
| SearchForm.AddLevel | app/static/js/methods/search.js:294-301 | one default level, not yet usable, is appended to the unchanged levels |
| SearchForm.SpliceStart | app/static/js/methods/search.js:303-305 | the splice position is the index, counted from the end when negative, within the list |
| SearchForm.RemoveLevel | app/static/js/methods/search.js:303-305 | exactly the level at the index is removed and the others keep their order; an index past the end removes nothing |
| SearchForm.RemoveAdded | app/static/js/methods/search.js:294-305 | removing the level just added, by position or as the last, gives the levels back |
| Common.Strip | app/utils/unicode_cleaner.py:58 | the stripped text is the infix left after removing whitespace at both ends |
| Common.StripTrimmed | app/utils/unicode_cleaner.py:58 | stripping trimmed text changes nothing |
| Common.ReplaceCreatesNothing | app/core/data_processors/case_processor.py:107-109 | replacing does not create an occurrence of text made of characters the replacement lacks |
| Common.ReplaceRemovesAll | app/core/data_processors/case_processor.py:107-109 | after replacing, the pattern no longer occurs when it shares no character with its replacement |
| Common.ReplaceAbsent | app/core/anonymizer.py:83-84 | replacing an absent pattern changes nothing |
| Common.Split | app/routes.py:45-48 | the pieces are at least one and hold no separator |
| Common.SplitJoin | app/routes.py:45-48 | joining the pieces with the separator gives the text back |
| Common.JoinSplit | app/routes.py:45-48 | splitting joined separator-free pieces gives the pieces back |
| Common.SplitInjective | app/routes.py:45-48 | different texts split differently |
| Common.ZFill | app/core/data_processors/fault_report_processor.py:136-142 | zero-filling pads with leading zeros to the width and keeps the text as the suffix |
| Common.ZFillValue | app/core/data_processors/fault_report_processor.py:136-142 | zero-filling keeps a digit string's numeric value |
| Sequences.Filter | app/core/data_processors/case_processor.py:120 | the kept elements are exactly those that pass, in order |
| Sequences.FilterPartition | app/core/data_processors/case_processor.py:120 | the kept and the dropped elements together are the input |
| Sequences.Distinct | app/core/data_processors/data_import_processor.py:334 | deduplication keeps each value exactly once |
| Sequences.DistinctKeepsFirst | app/core/data_processors/data_import_processor.py:334 | deduplication keeps first occurrences, in order |
| Sequences.DistinctCount | app/core/data_processors/data_import_processor.py:334 | the distinct rows number the distinct values, at most the input |
| Sequences.SortBy | app/core/data_processors/data_import_processor.py:331 | sorting is a permutation |
| Sequences.SortOrdered | app/core/data_processors/data_import_processor.py:331 | the sorted rows are ordered by a total preorder |
| Sequences.SortFixed | app/core/data_processors/data_import_processor.py:331 | sorting sorted rows changes nothing |
| Tables.DropAllNullColumns | app/core/data_processors/fault_report_processor.py:108 | exactly the columns with some non-null cell survive, with all rows |
| Tables.FirstAbsent | app/core/data_processors/fault_report_processor.py:166-171 | there is an absent name exactly when some name is not a column |
| Tables.PresentColumns | app/core/data_processors/r_and_i_record_processor.py:75 | exactly the columns with some non-null cell |
| Tables.DropPresent | app/core/data_processors/r_and_i_record_processor.py:75 | dropping empty columns leaves exactly the present ones |
| Tables.DropKeepsCells | app/core/data_processors/r_and_i_record_processor.py:75 | dropping empty columns changes no cell a row reads |

## Left out

- Files, directories and the cache are abstract state; there is no I/O. This covers Excel and Parquet reads and writes, `os`, `shutil`, `tempfile`, uuids, Flask's request object and `jsonify`. The commit outcome, the analysis outcome and the secured filename are inputs.
- `save_changes` writes the store in place. Its crash safety and atomicity are not modelled.
- Concurrency is not modelled: there is no lock per category, and the cache is a bare global dictionary.
- pandas' default sort is not stable. The merge is modelled as one ordered permutation; `AnalysisSteps.MergeIgnoresOrder` shows that the counts do not depend on which permutation is used.
- `convert_date`: the fixed formats and pandas' automatic date parsing are one parser parameter. The `\d{4}[/-]\d{1,2}[/-]\d{1,2}` prefix rule and the Timestamp bounds are modelled exactly.
- `TextAnonymizer.RemovePatterns`: a regular expression is the positions it marks, a parameter, so the default patterns are not interpreted.
- `clean_null_values` is called by the fault-report and R&I processors but is not defined in the shown code. It is a row-cell parameter, and its behaviour is not invented.
- `clean_part_numbers` is exercised only by tests and is missing from the code. It is not part of this model.
- The services glue, app/services/data_services/data_import_service.py, is not part of this model. It forwards a 2-tuple to callers that unpack 3.
- The stats-parsing failure branch of the upload routes is unreachable: the parser never returns a falsy value for a string message, so it is not modelled.
- A staging info file that is not valid JSON is not modelled; it is read as missing.
- Cell values that are not strings (numbers, timestamps) in a table are represented by their `str()` text. The difference shows in two places: the `.str` accessor and the duplicate check of the merge (next line). `.str` is applied to the MSN column and to the model column. For each, the column's pandas type and the positions of its non-string cells are an input, `ColumnType`. For the model column the type is the one after `fillna("无")`: a non-`object` column with a missing cell becomes `object`, and one without keeps its type and makes `.str` raise.
- AnalysisSteps.Merge: `drop_duplicates(keep="first")` (app/core/data_processors/data_import_processor.py:334) compares typed values, but `AnalysisSteps.Merge` and `Sequences.Distinct` compare the cells' texts. Int `5` and float `5.0` in one `object` column are duplicates for pandas but have the texts "5" and "5.0". Int `5` and string `"5"` are distinct for pandas but have the same text. The model's merge and counts equal the source's for tables in which two cells have equal texts only when they hold equal values.
- ImportRoutes.Truthy: numbers of the preview payload are exact reals. The `NaN` and `Infinity` that Python's `json` also accepts are true and print non-blank, as every non-zero number does, so they are not modelled separately. The kept rows become the workbook the analysis reads, which is an input.
- The confirm route's new-row count is modelled as the parsed number, not the string the code forwards.
- `\d`, `\s` and `lower()` are modelled for ASCII digits, Python's `isspace` set and ASCII case.
- Uuid collisions are not modelled: temp ids are inputs assumed fresh where a lemma says so.
- The pollution rate is modelled as an exact real number, not a float.
- `smart_backup_check` and `main` in the backup script are not modelled. The directory size is an input, and a `data_size` that is not numeric is not modelled.
- TF-IDF similarity, jieba and sklearn are floating point and are not part of this model.
- Front end: element-ui's toggling when the last clicked row has left the results is not modelled.
- Front end: JavaScript's `trim` is modelled by Python's whitespace set.
- Front end: JavaScript object key order in the type statistics is modelled by first appearance.
- Front end: localStorage, `window.open`, the download itself, `getColumnMinWidth`, the asynchronous loaders and the `initTableHeaders` catch branch are not modelled.
- `ResultTable.ExportRoundTrip`: holds only for cells without a carriage return. The exporter leaves a lone CR unquoted, and `ResultTable.CarriageReturnUnread` exhibits the resulting break.
- `SearchForm.ColumnSelect`: "holds all columns" is the source's check, equal length and every column present, which treats duplicated columns loosely.
- Tests that disagree with the code are not followed; the code is. tests/unit/test_unicode_cleaner.py:81-86 and the operator and model aliases expected in tests/unit/test_data_processor.py:437-491 do not match the code.
- AnalysisSteps.CleanHeaders: refuses an upload whose headers repeat after cleaning, while the source renames the columns regardless. In pandas a repeated label that is never read is dropped at the final projection, and one that is read makes the selection return a frame where a column was expected. Rows are modelled as maps keyed by name, so a duplicate label cannot be represented.
- ChangeAnalysis.AnalysisChecksSchema: its `DuplicateHeaders` failure is the model's, not the source's, for the reason given for `AnalysisSteps.CleanHeaders`. The source has no such check at data_import_processor.py:270-271.
- Processors.CaseClean, Processors.FaultTableClean, Processors.DocumentClean: promise a canonical model only where the model cell is present. A model cell that was not a string in an `object` column comes out missing, as `.str.replace` makes it NaN.
- The legacy copies (app/core/case_processor.py, app/core/r_and_i_record_processor.py, app/utils/word_manager.py and the others) are not part of this model.

## Findings

| source | as written | input that shows it | evidently intended | confidence | as-written member | corrected member |
|---|---|---|---|---|---|---|
| app/api/data_import_routes/r_and_i_record_routes.py:22-31 | reads `response.status_code` of whatever `process_confirm` returns, but every failure path returns a `(response, code)` tuple, which has no such attribute | a confirm with no `temp_id`: the shared route answers 400, the R&I route raises and answers 500 | pass the shared reply through and evict the fault-report table only on success | not executed | ImportRoutes.ConfirmRAndIAsWritten, ImportRoutes.RAndIFailureCrashes | ImportRoutes.ConfirmRAndI |
