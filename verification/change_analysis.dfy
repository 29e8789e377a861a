/** `analyze_changes` for each category and `save_changes`: an upload is
    sanitised, checked, cleaned by its category's processor, tagged, merged
    with the stored rows and summarised in the preview message; committing
    writes the merged rows and reports how many were added. */
module ChangeAnalysis {
  import opened Common
  import opened Sequences
  import opened Tables
  import opened UnicodeCleaner
  import opened ImportProcessor
  import opened Processors
  import opened PreviewMessage
  import opened AnalysisSteps

  // ---------------------------------------------------------------------------
  // Categories

  datatype Category = CaseData | FaultData | RAndIData | EngineeringData | ManualData

  /** `data_source_key`: the store a category writes to.  Part replacement
      records share the fault-report store. */
  function StoreKey(cat: Category): string {
    match cat
    case CaseData => "case"
    case FaultData => "faults"
    case RAndIData => "faults"
    case EngineeringData => "engineering"
    case ManualData => "manual"
  }

  /** `date_column`: the column the merged rows are sorted by. */
  function DateColumn(cat: Category): string {
    match cat
    case CaseData => "申请时间"
    case FaultData => "日期"
    case RAndIData => "日期"
    case EngineeringData => Engineering.dateColumn
    case ManualData => Manual.dateColumn
  }

  /** `REQUIRED_COLUMNS`. */
  function Required(cat: Category): seq<string> {
    match cat
    case CaseData => CaseRequired
    case FaultData => FaultRequired
    case RAndIData => RAndIRequired
    case EngineeringData => EngineeringRequired
    case ManualData => ManualRequired
  }

  /** `FINAL_COLUMNS`. */
  function Final(cat: Category): seq<string> {
    match cat
    case CaseData => CaseFinal
    case FaultData => FaultFinal
    case RAndIData => RAndIFinal
    case EngineeringData => EngineeringFinal
    case ManualData => ManualFinal
  }

  /** The category's `clean_data`, given the types of the model and the
      MSN source columns. */
  function CleanCategory(cat: Category, t: Table, generic: Parser, nulls: NullCleaner, model: ColumnType, msn: ColumnType)
    : (r: Result<Table, CleanError>)
    ensures r.Ok? ==> r.value.columns == Final(cat)
  {
    match cat
    case CaseData => CleanCase(t, generic, model, msn)
    case FaultData => CleanFault(t, generic, nulls, model)
    case RAndIData => CleanRAndI(t, generic, nulls, model)
    case EngineeringData => CleanDocument(Engineering, t, generic, model)
    case ManualData => CleanDocument(Manual, t, generic, model)
  }

  /** Every category's final columns are distinct and include the tag and
      the date column. */
  lemma FinalShape(cat: Category)
    ensures NoDup(Final(cat)) && TypeColumn in Final(cat) && DateColumn(cat) in Final(cat)
  {
    match cat
    case CaseData =>
      CaseFinalDistinct();
      CaseFinalHas();
    case FaultData =>
      FaultFinalDistinct();
      assert FaultFinal[0] == "日期" && FaultFinal[8] == "数据类型";
    case RAndIData =>
      FaultFinalDistinct();
      SameFinal();
      assert FaultFinal[0] == "日期" && FaultFinal[8] == "数据类型";
    case EngineeringData =>
      DocumentShapes();
    case ManualData =>
      DocumentShapes();
  }

  // ---------------------------------------------------------------------------
  // analyze_changes

  /** What the analysis reads besides the upload and the store: the date
      parser and null cleaner the processors use, the verdict of the
      file-level pollution scan (which reads the spreadsheet itself), which
      columns pandas typed as `object` when reading and after cleaning, and
      the positions of the cells of an `object` column that `read_excel`
      gave as something other than a string. */
  datatype Environment = Environment(generic: Parser, nulls: NullCleaner, polluted: bool,
                                     isText: string -> bool, isObject: string -> bool,
                                     nonText: string -> set<nat>)

  /** The type of a column as the processor sees it: sanitising rewrites
      every cell of an `object` column as a string. */
  function ColumnTypeOf(env: Environment, col: string, sanitised: bool): (r: ColumnType)
    ensures r.ObjectColumn? <==> env.isText(col)
    ensures r.ObjectColumn? && sanitised ==> r.nonText == {}
  {
    if !env.isText(col) then NonObjectColumn
    else if sanitised then ObjectColumn({})
    else ObjectColumn(env.nonText(col))
  }

  /** Why the analysis fails: two headers sanitise to one name, the schema
      check names missing columns, or the processor raises. */
  datatype AnalysisError = DuplicateHeaders | MissingRequired(names: set<string>) | CleanFailed(error: CleanError)

  /** A successful analysis: the merged rows and the five counts. */
  datatype Analysis = Analysis(merged: Table, counts: Counts)

  /** The upload as the schema check and the processor see it: the
      sanitised header and, when sanitising is enabled and the scan found
      pollution, the sanitised text cells; nothing when two headers
      sanitise to one name. */
  function Loaded(raw: Table, sanitise: bool, env: Environment): (r: Option<Table>)
    ensures r.Some? <==> NoDup(Map(raw.columns, CleanHeader))
    ensures r.Some? ==> r.value.columns == Map(raw.columns, CleanHeader) && |r.value.rows| == |raw.rows|
  {
    match CleanHeaders(raw)
    case None => None
    case Some(named) => Some(if sanitise && env.polluted then CleanDataFrame(named, None, env.isText) else named)
  }

  /** The category's cleaning of a loaded upload, with the column types
      the environment gives. */
  function CleanLoaded(cat: Category, data: Table, sanitised: bool, env: Environment): (r: Result<Table, CleanError>)
    ensures r.Ok? ==> r.value.columns == Final(cat)
  {
    CleanCategory(cat, data, env.generic, env.nulls,
                  ColumnTypeOf(env, "机型", sanitised), ColumnTypeOf(env, MsnSource, sanitised))
  }

  /** Everything before the merge: the sanitised header, the optional
      sanitising of text cells (only when it is enabled and the scan found
      pollution), the schema check, the category's cleaning and the default
      tag. */
  function Prepare(cat: Category, raw: Table, sanitise: bool, env: Environment): (r: Result<Table, AnalysisError>)
    ensures r.Ok? ==> NoDup(Map(raw.columns, CleanHeader)) && Elems(Required(cat)) <= Elems(Map(raw.columns, CleanHeader))
  {
    match Loaded(raw, sanitise, env)
    case None => Err(DuplicateHeaders)
    case Some(data) =>
      match ValidateHeaders(data.columns, Required(cat))
      case Err(missing) => Err(MissingRequired(missing))
      case Ok(_) =>
        match CleanLoaded(cat, data, sanitise && env.polluted, env)
        case Err(e) => Err(CleanFailed(e))
        case Ok(cleaned) => Ok(TagDefault(cleaned, StoreKey(cat)))
  }

  /** The store as read: the stored frame, or an empty frame over the final
      columns when the file is missing or unreadable. */
  function Stored(cat: Category, existing: Option<Table>): (r: Table)
    ensures existing.None? ==> |r.rows| == 0
  {
    existing.GetOr(Table(Final(cat), []))
  }

  /** The prepared upload, blank-filled and merged with the store. */
  function Conclude(cat: Category, cleaned: Table, isObject: string -> bool, existing: Option<Table>): (a: Analysis)
    ensures a.counts.original == |Stored(cat, existing).rows|
  {
    var stored := Stored(cat, existing);
    var upload := FillBlanks(cleaned, Final(cat), isObject);
    var merged := Merge(upload, stored, DateColumn(cat));
    Analysis(merged, Tally(stored, upload, merged))
  }

  /** `analyze_changes`: preparation, then the merge; the store itself is
      only read. */
  function AnalyzeChanges(cat: Category, raw: Table, sanitise: bool, env: Environment, existing: Option<Table>)
    : (r: Result<Analysis, AnalysisError>)
    ensures r.Ok? ==> r.value.counts.original == |Stored(cat, existing).rows|
    ensures r.Ok? ==> Elems(Required(cat)) <= Elems(Map(raw.columns, CleanHeader))
  {
    match Prepare(cat, raw, sanitise, env)
    case Err(e) => Err(e)
    case Ok(cleaned) => Ok(Conclude(cat, cleaned, env.isObject, existing))
  }

  const FailurePrefix: string := "分析数据失败: "

  /** The `(success, message)` pair `analyze_changes` returns: the preview
      text, or the failure prefix and the exception's text. */
  function Reply(r: Result<Analysis, AnalysisError>, describe: AnalysisError -> string): (reply: (bool, string))
    ensures reply.0 <==> r.Ok?
    ensures r.Err? ==> FailurePrefix <= reply.1
  {
    match r
    case Ok(a) =>
      var n := a.counts;
      (true, PreviewText(n.original, n.uploaded, n.duplicate, n.added, n.final))
    case Err(e) => (false, FailurePrefix + describe(e))
  }

  /** The header check comes first: with distinct sanitised headers the
      analysis reports missing columns exactly when the schema check fails,
      naming each required column the sanitised header lacks. */
  lemma AnalysisChecksSchema(cat: Category, raw: Table, sanitise: bool, env: Environment, existing: Option<Table>)
    ensures var r := AnalyzeChanges(cat, raw, sanitise, env, existing);
      (r.Err? && r.error == DuplicateHeaders) <==> !NoDup(Map(raw.columns, CleanHeader))
    ensures var r := AnalyzeChanges(cat, raw, sanitise, env, existing);
      NoDup(Map(raw.columns, CleanHeader)) ==>
        ((r.Err? && r.error.MissingRequired?) <==> !(Elems(Required(cat)) <= Elems(Map(raw.columns, CleanHeader))))
        && (r.Err? && r.error.MissingRequired? ==>
              forall c :: c in r.error.names <==> c in Required(cat) && c !in Map(raw.columns, CleanHeader))
  {
  }

  /** For service requests, engineering files and manuals, an upload with
      distinct sanitised headers that passed the schema check fails in
      cleaning exactly when it has no rows, or it has a model column that
      keeps another type than `object` through the fill, or, for a service
      request, its MSN source column is not of `object` type. */
  lemma AnalysisCleanFails(cat: Category, raw: Table, sanitise: bool, env: Environment, existing: Option<Table>)
    requires cat == CaseData || cat == EngineeringData || cat == ManualData
    ensures var r := AnalyzeChanges(cat, raw, sanitise, env, existing);
      var names := Map(raw.columns, CleanHeader);
      (r.Err? && r.error.CleanFailed?) <==>
        NoDup(names) && Elems(Required(cat)) <= Elems(names)
        && (|raw.rows| == 0
            || ModelRefused(Loaded(raw, sanitise, env).value, ColumnTypeOf(env, "机型", sanitise && env.polluted))
            || (cat == CaseData && !env.isText(MsnSource)))
  {
    PrepareCleanFails(cat, raw, sanitise, env);
  }

  lemma PrepareCleanFails(cat: Category, raw: Table, sanitise: bool, env: Environment)
    requires cat == CaseData || cat == EngineeringData || cat == ManualData
    ensures var r := Prepare(cat, raw, sanitise, env);
      var names := Map(raw.columns, CleanHeader);
      (r.Err? && r.error.CleanFailed?) <==>
        NoDup(names) && Elems(Required(cat)) <= Elems(names)
        && (|raw.rows| == 0
            || ModelRefused(Loaded(raw, sanitise, env).value, ColumnTypeOf(env, "机型", sanitise && env.polluted))
            || (cat == CaseData && !env.isText(MsnSource)))
  {
    match Loaded(raw, sanitise, env)
    case None =>
    case Some(data) =>
      var sanitised := sanitise && env.polluted;
      if Elems(Required(cat)) <= Elems(data.columns) {
        CleanCategoryFails(cat, data, env.generic, env.nulls,
                           ColumnTypeOf(env, "机型", sanitised), ColumnTypeOf(env, MsnSource, sanitised));
      }
  }

  /** With the required columns present, the cleaning of a service request,
      engineering file or manual fails exactly for an empty table, a model
      column that keeps another type than `object` through the fill, or a
      service-request MSN column that is not of `object` type. */
  lemma CleanCategoryFails(cat: Category, t: Table, generic: Parser, nulls: NullCleaner, model: ColumnType, msn: ColumnType)
    requires cat == CaseData || cat == EngineeringData || cat == ManualData
    requires Elems(Required(cat)) <= Elems(t.columns)
    ensures CleanCategory(cat, t, generic, nulls, model, msn).Err? <==>
      |t.rows| == 0 || ModelRefused(t, model) || (cat == CaseData && msn.NonObjectColumn?)
  {
    if cat == CaseData {
      CaseAccepts(t, generic, model, msn);
      CaseRequiredReads();
    } else {
      DocumentAccepts(t, generic, model);
    }
  }

  /** A service-request, engineering or manual upload with a valid header
      and no rows is refused with the failure message. */
  lemma HeaderOnlyUploadFails(cat: Category, raw: Table, sanitise: bool, env: Environment, existing: Option<Table>,
                              describe: AnalysisError -> string)
    requires cat == CaseData || cat == EngineeringData || cat == ManualData
    requires NoDup(Map(raw.columns, CleanHeader)) && Elems(Required(cat)) <= Elems(Map(raw.columns, CleanHeader))
    requires |raw.rows| == 0
    ensures var reply := Reply(AnalyzeChanges(cat, raw, sanitise, env, existing), describe);
      !reply.0 && FailurePrefix <= reply.1
  {
    AnalysisCleanFails(cat, raw, sanitise, env, existing);
  }

  /** The merge of a prepared upload with the store: the merged rows are
      the distinct rows of both, newest first, each once; the duplicate
      count is the number of rows deduplication dropped, new plus duplicate
      is the upload, and neither the duplicate count nor, for a store
      without repeated rows, the new count is negative. */
  lemma AnalysisMerges(cat: Category, cleaned: Table, isObject: string -> bool, existing: Option<Table>)
    requires existing.Some? ==> WellFormed(existing.value)
    ensures var a := Conclude(cat, cleaned, isObject, existing);
      var stored := Stored(cat, existing);
      var all := Concat(FillBlanks(cleaned, Final(cat), isObject), stored).rows;
      var n := a.counts;
      NoDup(a.merged.rows) && Elems(a.merged.rows) == Elems(all)
      && Ordered(a.merged.rows, NewerFirst(DateColumn(cat)))
      && n.original == |stored.rows| && n.uploaded == |cleaned.rows|
      && n.final == |a.merged.rows| == |Elems(all)| <= n.original + n.uploaded
      && n.duplicate + n.added == n.uploaded && n.added == n.final - n.original
      && n.duplicate == |all| - n.final && 0 <= n.duplicate
      && (NoDup(stored.rows) ==> 0 <= n.added)
  {
    var stored := Stored(cat, existing);
    var upload := FillBlanks(cleaned, Final(cat), isObject);
    assert WellFormed(stored) by {
      if existing.None? {
        FinalShape(cat);
      }
    }
    MergeMeaning(upload, stored, DateColumn(cat));
    TallyMeaning(upload, stored, DateColumn(cat));
  }

  /** Reading the preview message back gives the analysis' counts; only a
      negative new count reads back as 0.  A failure reply carries the
      failure prefix. */
  lemma ReplyRoundTrip(r: Result<Analysis, AnalysisError>, describe: AnalysisError -> string)
    ensures r.Ok? ==> (Reply(r, describe).0 &&
      var n := r.value.counts;
      ParsePreview(Reply(r, describe).1)
        == PreviewStats(Clamp(n.original), Clamp(n.uploaded), Clamp(n.duplicate), Clamp(n.added), Clamp(n.final), Clamp(n.final)))
    ensures r.Err? ==> !Reply(r, describe).0 && FailurePrefix <= Reply(r, describe).1
  {
    if r.Ok? {
      var n := r.value.counts;
      PreviewRoundTrip(n.original, n.uploaded, n.duplicate, n.added, n.final);
    }
  }

  /** The counts of a merge are not negative except possibly the new
      count, so its preview reads back every count exactly except a
      negative new count. */
  lemma AnalysisPreviewExact(cat: Category, cleaned: Table, isObject: string -> bool, existing: Option<Table>,
                             describe: AnalysisError -> string)
    requires existing.Some? ==> WellFormed(existing.value)
    ensures var n := Conclude(cat, cleaned, isObject, existing).counts;
      var p := ParsePreview(Reply(Ok(Conclude(cat, cleaned, isObject, existing)), describe).1);
      p.original == n.original && p.uploaded == n.uploaded && p.duplicate == n.duplicate
      && p.added == Clamp(n.added) && p.final == p.total == n.final
  {
    AnalysisMerges(cat, cleaned, isObject, existing);
    ReplyRoundTrip(Ok(Conclude(cat, cleaned, isObject, existing)), describe);
  }

  /** The prepared upload always carries a tag column, present on every
      row when the category's processor left it missing throughout. */
  lemma PreparedTagged(cat: Category, raw: Table, sanitise: bool, env: Environment)
    requires Prepare(cat, raw, sanitise, env).Ok?
    ensures var t := Prepare(cat, raw, sanitise, env).value;
      TypeColumn in t.columns && (|t.rows| > 0 ==> !Untagged(t))
  {
    var data := Loaded(raw, sanitise, env).value;
    var cleaned := CleanLoaded(cat, data, sanitise && env.polluted, env).value;
    TagDefaultSettles(cleaned, StoreKey(cat));
  }

  // ---------------------------------------------------------------------------
  // save_changes

  /** How the write of the store ends: written in full, or failed with
      whatever the interrupted write left behind. */
  datatype WriteResult = Written | WriteFailed(leftover: Option<Table>, reason: string)

  datatype SaveOutcome = SaveOutcome(success: bool, message: string, store: Option<Table>)

  const SaveFailurePrefix: string := "保存数据失败: "

  /** `save_changes`: the merged frame replaces the store and the message
      reports the given new count. */
  function SaveChanges(merged: Table, added: int, write: WriteResult): (r: SaveOutcome)
    ensures r.success <==> write.Written?
  {
    match write
    case Written => SaveOutcome(true, CommitMessage(added), Some(merged))
    case WriteFailed(leftover, reason) => SaveOutcome(false, SaveFailurePrefix + reason, leftover)
  }

  /** A successful save stores the merged rows, and the confirm route reads
      the reported count back (none when it was negative); a failed save
      reports no count. */
  lemma SaveReportsCount(merged: Table, added: int, write: WriteResult)
    ensures var r := SaveChanges(merged, added, write);
      (r.success ==> r.store == Some(merged) && ImportedCount(r.message) == Reading(added))
    ensures var r := SaveChanges(merged, added, write);
      (!r.success ==> SaveFailurePrefix <= r.message)
  {
    CommitRoundTrip(added);
  }
}
