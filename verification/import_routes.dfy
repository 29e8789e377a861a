/** The staging-session life cycle of the import routes: an upload, a
    manual import or a manual preview stages a workbook under a fresh id
    and analyses it; a confirm commits the staged workbook, removes the
    staging directory and evicts the category's cached table.  The file
    system is a map from staging id to what the directory still holds, the
    in-memory data cache is a set of keys, and the analysis and commit
    outcomes are inputs. */
module ImportRoutes {
  import opened Common
  import opened Sequences
  import opened FileHandlers
  import opened PreviewMessage

  /** The `{temp_id}_info.json` record. */
  datatype Info = Info(filePath: string, dataType: string, importType: string)

  /** A staging directory: its info record, if still there, and the names of
      the other files it holds. */
  datatype Staging = Staging(info: Option<Info>, files: set<string>)

  datatype State = State(staging: map<string, Staging>, cache: set<string>)

  /** What the service call returned, or the exception it raised. */
  datatype Outcome = Finished(success: bool, message: string) | Raised(reason: string)

  datatype Body =
    | Failure(message: string)
    | Previewed(message: string, stats: PreviewStats, tempId: string)
    | Imported(newCount: nat)
    /** The reply of the app's global exception handler, which answers 500. */
    | ServerError

  datatype Reply = Reply(code: int, body: Body)

  /** One `BaseDataImportRoutes` instance: the category it serves and the
      optional prefix for dated workbook names. */
  datatype Route = Route(dataType: string, prefix: Option<string>)

  const FaultsRoute := Route("faults", Some("故障报告"))
  const RAndIRoute := Route("r_and_i_record", Some("部件拆换记录"))

  const NoFilePart := "没有找到上传的文件"
  const NoFileChosen := "未选择文件"
  const BadFileType := "不支持的文件类型"
  const NoManualData := "未接收到数据"
  const NotJson := "请求必须是JSON格式"
  const BadPayload := "数据格式错误或没有找到数据"
  const AllBlank := "所有行都是空的"
  const NoTempId := "缺少临时文件ID"
  const NoStaging := "无法找到临时数据，请重新预览"
  const NoInfo := "无法找到临时数据信息，请重新预览"
  const NoWorkbook := "无法找到临时Excel文件，请重新预览"
  const PreviewFailedPrefix := "预览分析时出错: "
  const ManualFailedPrefix := "分析数据变化时出错: "

  /** Sessions other than `id` are exactly as they were. */
  ghost predicate OthersKept(before: map<string, Staging>, after: map<string, Staging>, id: string) {
    forall k :: k != id ==> (k in after <==> k in before) && (k in after ==> after[k] == before[k])
  }

  // ---------------------------------------------------------------------------
  // Staging and analysis, shared by the three staging routes

  /** The file name an upload is staged under: `"{prefix}_{name}"` when the
      route has a non-empty prefix and the name is a dated workbook. */
  function StagedFileName(route: Route, name: string): (r: string)
    ensures r == name || (route.prefix.Some? && r == route.prefix.value + "_" + name)
  {
    if route.prefix.Some? && route.prefix.value != "" && DatedWorkbook(name)
    then route.prefix.value + "_" + name
    else name
  }

  /** A name is renamed exactly when the route has a prefix and the name is
      a dated workbook. */
  lemma StagedFileNameMeaning(route: Route, name: string)
    ensures StagedFileName(route, name) != name <==>
      (route.prefix.Some? && route.prefix.value != "" && DatedWorkbook(name))
  {
    if route.prefix.Some? && route.prefix.value != "" && DatedWorkbook(name) {
      var r := route.prefix.value + "_" + name;
      assert |r| > |name|;
    }
  }

  /** The fault-report route's renamed uploads pass the fault-report
      file-name check. */
  lemma FaultsStagedNameValid(name: string, dir: string)
    requires DatedWorkbook(name) && '/' !in name
    ensures StagedFileName(FaultsRoute, name) == ReportPrefix + name
    ensures ValidateFileName(Some(dir + "/" + StagedFileName(FaultsRoute, name))) == Ok(true)
  {
    var p := FaultsRoute.prefix.value;
    assert p + "_" == ReportPrefix;
    assert StagedFileName(FaultsRoute, name) == (p + "_") + name;
    PrefixedNameValid(dir, name);
    assert dir + "/" + StagedFileName(FaultsRoute, name) == dir + "/" + ReportPrefix + name;
  }

  /** Analysing a staged workbook: success keeps the staging directory and
      answers with the parsed statistics; a reported failure or an exception
      removes the directory. */
  function Analyse(s: State, tempId: string, staged: Staging, analysis: Outcome,
                   okMessage: string, raisedPrefix: string): (r: (State, Reply))
    ensures r.0.cache == s.cache
    ensures OthersKept(s.staging, r.0.staging, tempId)
    ensures r.1.code == 200 <==> analysis.Finished? && analysis.success
    ensures r.1.code == 200 ==>
      (tempId in r.0.staging && r.0.staging[tempId] == staged
       && r.1.body == Previewed(okMessage, ParsePreview(analysis.message), tempId))
    ensures r.1.code != 200 ==> tempId !in r.0.staging
    ensures analysis.Finished? && !analysis.success ==> r.1 == Reply(400, Failure(analysis.message))
    ensures analysis.Raised? ==> r.1 == Reply(500, Failure(raisedPrefix + analysis.reason))
  {
    match analysis
    case Raised(e) => (s.(staging := s.staging - {tempId}), Reply(500, Failure(raisedPrefix + e)))
    case Finished(ok, message) =>
      if ok then
        (s.(staging := s.staging[tempId := staged]),
         Reply(200, Previewed(okMessage, ParsePreview(message), tempId)))
      else (s.(staging := s.staging - {tempId}), Reply(400, Failure(message)))
  }

  // ---------------------------------------------------------------------------
  // process_import

  /** `process_import`: `file` is the upload's file name, absent when the
      request has no file part. */
  function ProcessImport(s: State, route: Route, file: Option<string>, tempId: string,
                         analysis: Outcome): (r: (State, Reply))
    ensures r.0.cache == s.cache
    ensures OthersKept(s.staging, r.0.staging, tempId)
    ensures file.None? ==> r == (s, Reply(400, Failure(NoFilePart)))
    ensures file == Some("") ==> r == (s, Reply(400, Failure(NoFileChosen)))
    ensures file.Some? && file.value != "" && !AllowedFile(file.value) ==> r == (s, Reply(400, Failure(BadFileType)))
    ensures r.1.code == 200 <==>
      file.Some? && AllowedFile(file.value) && analysis.Finished? && analysis.success
    ensures r.1.code == 200 ==>
      var path := StagedFileName(route, file.value);
      tempId in r.0.staging
      && r.0.staging[tempId] == Staging(Some(Info(path, route.dataType, "upload")), {path})
    ensures file.Some? && AllowedFile(file.value) && r.1.code != 200 ==> tempId !in r.0.staging
  {
    match file
    case None => (s, Reply(400, Failure(NoFilePart)))
    case Some(name) =>
      if name == "" then (s, Reply(400, Failure(NoFileChosen)))
      else if !AllowedFile(name) then (s, Reply(400, Failure(BadFileType)))
      else
        var path := StagedFileName(route, name);
        Analyse(s, tempId, Staging(Some(Info(path, route.dataType, "upload")), {path}),
                analysis, "预览处理成功", PreviewFailedPrefix)
  }

  // ---------------------------------------------------------------------------
  // process_manual_import

  /** `process_manual_import`: the posted records; an empty payload is
      falsy and rejected. */
  function ProcessManualImport(s: State, route: Route, data: seq<Row>, tempId: string,
                               analysis: Outcome): (r: (State, Reply))
    ensures r.0.cache == s.cache
    ensures OthersKept(s.staging, r.0.staging, tempId)
    ensures |data| == 0 ==> r == (s, Reply(400, Failure(NoManualData)))
    ensures r.1.code == 200 <==> |data| > 0 && analysis.Finished? && analysis.success
    ensures r.1.code == 200 ==>
      var path := tempId + ".xlsx";
      tempId in r.0.staging && r.0.staging[tempId] == Staging(Some(Info(path, route.dataType, "manual")), {path})
    ensures |data| > 0 && r.1.code != 200 ==> tempId !in r.0.staging
  {
    if |data| == 0 then (s, Reply(400, Failure(NoManualData)))
    else
      var path := tempId + ".xlsx";
      Analyse(s, tempId, Staging(Some(Info(path, route.dataType, "manual")), {path}),
              analysis, "手动输入数据处理成功", ManualFailedPrefix)
  }

  // ---------------------------------------------------------------------------
  // process_preview

  /** A value of the request's JSON body, as Python's `json` module gives
      it: None, a bool, a number, a string, a list or a dict. */
  datatype Json =
    | JNull
    | JBool(b: bool)
    | JNumber(n: real)
    | JString(s: string)
    | JArray(items: seq<Json>)
    | JObject(fields: map<string, Json>)

  /** One row of the payload's `data` list. */
  type JsonRow = map<string, Json>

  /** The request of a manual preview: not JSON, JSON without a `data`
      list, or the list of rows. */
  datatype Payload = NotJsonRequest | NoDataList | Rows(rows: seq<JsonRow>)

  /** Python's truth value: None, False, zero, the empty string and empty
      containers are false. */
  predicate Truthy(v: Json) {
    match v
    case JNull => false
    case JBool(b) => b
    case JNumber(n) => n != 0.0
    case JString(s) => s != ""
    case JArray(items) => |items| > 0
    case JObject(fields) => |fields| > 0
  }

  /** `str(value).strip()` is non-empty.  Only a string can print as
      blanks: `str` of None, a bool, a number, a list or a dict starts with
      a letter, a digit, a sign, a bracket or a brace. */
  predicate PrintsNonBlank(v: Json) {
    v.JString? ==> Strip(v.s) != ""
  }

  /** A row counts when some value is true and non-blank after stripping. */
  predicate NonBlankRow(row: JsonRow) {
    exists k | k in row :: Truthy(row[k]) && PrintsNonBlank(row[k])
  }

  function KeepNonBlank(rows: seq<JsonRow>): (r: seq<JsonRow>)
    ensures forall row :: row in r <==> row in rows && NonBlankRow(row)
    ensures IsSubseq(r, rows)
  {
    Filter(rows, NonBlankRow)
  }

  /** A row counts exactly when it has a non-empty string that is not all
      whitespace, or a value other than a string that is true. */
  lemma NonBlankRowMeaning(row: JsonRow)
    ensures NonBlankRow(row) <==> exists k | k in row ::
      (row[k].JString? && Strip(row[k].s) != "") || (!row[k].JString? && Truthy(row[k]))
  {
    if exists k | k in row :: (row[k].JString? && Strip(row[k].s) != "") || (!row[k].JString? && Truthy(row[k])) {
      var k :| k in row && ((row[k].JString? && Strip(row[k].s) != "") || (!row[k].JString? && Truthy(row[k])));
      assert Truthy(row[k]) && PrintsNonBlank(row[k]);
    }
  }

  /** `process_preview`: blank rows are dropped before staging, and a
      request with no non-blank row stages nothing. */
  function ProcessPreview(s: State, route: Route, payload: Payload, tempId: string,
                          analysis: Outcome): (r: (State, Reply))
    ensures r.0.cache == s.cache
    ensures OthersKept(s.staging, r.0.staging, tempId)
    ensures payload.NotJsonRequest? ==> r == (s, Reply(400, Failure(NotJson)))
    ensures payload.NoDataList? ==> r == (s, Reply(400, Failure(BadPayload)))
    ensures payload.Rows? && (forall row :: row in payload.rows ==> !NonBlankRow(row)) ==>
      r == (s, Reply(400, Failure(AllBlank)))
    ensures r.1.code == 200 <==>
      payload.Rows? && (exists row :: row in payload.rows && NonBlankRow(row))
      && analysis.Finished? && analysis.success
    ensures r.1.code == 200 ==>
      var path := route.dataType + "_preview.xlsx";
      tempId in r.0.staging && r.0.staging[tempId] == Staging(Some(Info(path, route.dataType, "preview")), {path})
  {
    match payload
    case NotJsonRequest => (s, Reply(400, Failure(NotJson)))
    case NoDataList => (s, Reply(400, Failure(BadPayload)))
    case Rows(rows) =>
      var kept := KeepNonBlank(rows);
      if |kept| == 0 then
        assert forall row :: row in rows ==> !NonBlankRow(row);
        (s, Reply(400, Failure(AllBlank)))
      else
        assert kept[0] in rows && NonBlankRow(kept[0]);
        var path := route.dataType + "_preview.xlsx";
        Analyse(s, tempId, Staging(Some(Info(path, route.dataType, "preview")), {path}),
                analysis, "预览处理成功", PreviewFailedPrefix)
  }

  /** Rows holding only JSON `0`, `false`, `[]`, `{}`, `null` or blank
      strings are all blank, so nothing is staged. */
  lemma FalsyRowsRefused(s: State, route: Route, tempId: string, analysis: Outcome)
    ensures var blank := [map["备注" := JNumber(0.0)],
                          map["标题" := JBool(false), "ATA" := JArray([]), "机型" := JObject(map[])],
                          map["运营人" := JNull, "备注" := JString(" \t")]];
      ProcessPreview(s, route, Rows(blank), tempId, analysis) == (s, Reply(400, Failure(AllBlank)))
  {
    var r0, r1, r2 := map["备注" := JNumber(0.0)],
                      map["标题" := JBool(false), "ATA" := JArray([]), "机型" := JObject(map[])],
                      map["运营人" := JNull, "备注" := JString(" \t")];
    forall k | k in r0 ensures !Truthy(r0[k]) {
    }
    forall k | k in r1 ensures !Truthy(r1[k]) {
    }
    assert Strip(" \t") == "" by {
      assert IsSpace(' ') && IsSpace('\t');
    }
    forall k | k in r2 ensures !(Truthy(r2[k]) && PrintsNonBlank(r2[k])) {
    }
    assert !NonBlankRow(r0) && !NonBlankRow(r1) && !NonBlankRow(r2);
    var blank := [r0, r1, r2];
    assert forall row :: row in blank ==> !NonBlankRow(row);
  }

  /** A row holding a non-zero number counts, and a successful analysis
      of it answers 200. */
  lemma NumberRowAccepted(s: State, route: Route, tempId: string)
    ensures ProcessPreview(s, route, Rows([map["备注" := JNumber(5.0)]]), tempId, Finished(true, "")).1.code == 200
  {
    var five := map["备注" := JNumber(5.0)];
    assert "备注" in five && Truthy(five["备注"]) && PrintsNonBlank(five["备注"]);
    assert five in [five];
  }

  // ---------------------------------------------------------------------------
  // process_confirm

  /** Whether a confirm reaches the commit: the id is given, its directory
      exists and holds its info record and the staged workbook. */
  predicate Committable(s: State, tempId: Option<string>) {
    tempId.Some? && tempId.value != "" && tempId.value in s.staging
    && s.staging[tempId.value].info.Some?
    && s.staging[tempId.value].info.value.filePath in s.staging[tempId.value].files
  }

  /** `process_confirm`.  Every check before the commit answers 400 and
      changes nothing, so a directory that lost its info record or its
      workbook stays behind.  A commit that returns removes the directory,
      and a successful one evicts the category's cached table; a commit
      that raises skips the removal. */
  function ProcessConfirm(s: State, route: Route, tempId: Option<string>, commit: Outcome): (r: (State, Reply))
    ensures !Committable(s, tempId) ==> r.0 == s && r.1.code == 400
    ensures tempId.None? || tempId == Some("") ==> r.1 == Reply(400, Failure(NoTempId))
    ensures tempId.Some? && tempId.value != "" && tempId.value !in s.staging ==> r.1 == Reply(400, Failure(NoStaging))
    ensures Committable(s, tempId) && commit.Finished? ==>
      r.0.staging == s.staging - {tempId.value}
      && r.0.cache == (if commit.success then s.cache - {route.dataType} else s.cache)
    ensures Committable(s, tempId) && commit.Raised? ==>
      r == (s, Reply(500, Failure(commit.reason)))
    ensures r.1.code == 200 <==> Committable(s, tempId) && commit.Finished? && commit.success
    ensures r.1.code == 200 ==> r.1.body == Imported(ImportedCount(commit.message).GetOr(0))
    ensures Committable(s, tempId) && commit.Finished? && !commit.success ==>
      r.1 == Reply(400, Failure(commit.message))
  {
    match tempId
    case None => (s, Reply(400, Failure(NoTempId)))
    case Some(id) =>
      if id == "" then (s, Reply(400, Failure(NoTempId)))
      else if id !in s.staging then (s, Reply(400, Failure(NoStaging)))
      else
        var dir := s.staging[id];
        if dir.info.None? then (s, Reply(400, Failure(NoInfo)))
        else if dir.info.value.filePath !in dir.files then (s, Reply(400, Failure(NoWorkbook)))
        else match commit
          case Raised(e) => (s, Reply(500, Failure(e)))
          case Finished(ok, message) =>
            var cleaned := s.staging - {id};
            if ok then
              (State(cleaned, s.cache - {route.dataType}), Reply(200, Imported(ImportedCount(message).GetOr(0))))
            else (State(cleaned, s.cache), Reply(400, Failure(message)))
  }

  // ---------------------------------------------------------------------------
  // Sessions end to end

  /** An upload that succeeds leaves a session a confirm can commit; once
      the commit returns, the staging directories are as before the upload,
      a successful commit evicts the cached table, and the reported count is
      the one the commit message carries (a negative count reads as 0). */
  lemma UploadThenConfirm(s: State, route: Route, name: string, tempId: string, preview: Outcome,
                          ok: bool, added: int)
    requires tempId != "" && tempId !in s.staging
    requires ProcessImport(s, route, Some(name), tempId, preview).1.code == 200
    ensures var staged := ProcessImport(s, route, Some(name), tempId, preview).0;
      Committable(staged, Some(tempId))
      && var done := ProcessConfirm(staged, route, Some(tempId), Finished(ok, CommitMessage(added)));
      done.0.staging == s.staging
      && done.0.cache == (if ok then s.cache - {route.dataType} else s.cache)
      && (ok ==> done.1 == Reply(200, Imported(Clamp(added))))
  {
    var staged := ProcessImport(s, route, Some(name), tempId, preview).0;
    assert Committable(staged, Some(tempId));
    RemoveStaged(s.staging, staged.staging, tempId);
    CommitRoundTrip(added);
  }

  /** Removing the one session a step added gives back the sessions from
      before it. */
  lemma RemoveStaged(before: map<string, Staging>, after: map<string, Staging>, id: string)
    requires OthersKept(before, after, id) && id !in before
    ensures after - {id} == before
  {
  }

  /** The counts a successful preview reports are the ones the analysis
      message rendered, with a negative count shown as 0. */
  lemma PreviewReportsCounts(s: State, route: Route, name: string, tempId: string,
                             o: int, u: int, d: int, n: int, f: int)
    requires AllowedFile(name)
    ensures var r := ProcessImport(s, route, Some(name), tempId, Finished(true, PreviewText(o, u, d, n, f)));
      r.1.code == 200
      && r.1.body.stats == PreviewStats(Clamp(o), Clamp(u), Clamp(d), Clamp(n), Clamp(f), Clamp(f))
  {
    PreviewRoundTrip(o, u, d, n, f);
  }

  /** A directory that lost its info record or its workbook is never
      removed by a confirm, however often it is retried: the session
      leaks. */
  lemma {:induction false} ConfirmLeaks(s: State, route: Route, tempId: string, commits: seq<Outcome>)
    requires tempId in s.staging
    requires s.staging[tempId].info.None?
      || s.staging[tempId].info.value.filePath !in s.staging[tempId].files
    ensures ConfirmAll(s, route, tempId, commits) == s
    decreases |commits|
  {
    if |commits| > 0 {
      ConfirmLeaks(s, route, tempId, commits[1..]);
    }
  }

  /** Retrying a confirm once per commit outcome. */
  function ConfirmAll(s: State, route: Route, tempId: string, commits: seq<Outcome>): State
    decreases |commits|
  {
    if |commits| == 0 then s
    else ConfirmAll(ProcessConfirm(s, route, Some(tempId), commits[0]).0, route, tempId, commits[1..])
  }

  /** A commit that raises leaves the directory behind, and so does every
      retry that raises again. */
  lemma {:induction false} RaisingCommitLeaks(s: State, route: Route, tempId: string, reasons: seq<string>)
    requires Committable(s, Some(tempId))
    ensures ConfirmAll(s, route, tempId, Raises(reasons)) == s
    decreases |reasons|
  {
    if |reasons| > 0 {
      assert Raises(reasons)[1..] == Raises(reasons[1..]);
      RaisingCommitLeaks(s, route, tempId, reasons[1..]);
    }
  }

  function Raises(reasons: seq<string>): (r: seq<Outcome>)
    ensures |r| == |reasons|
    ensures forall i :: 0 <= i < |r| ==> r[i] == Raised(reasons[i])
  {
    seq(|reasons|, i requires 0 <= i < |reasons| => Raised(reasons[i]))
  }

  // ---------------------------------------------------------------------------
  // The part-replacement confirm route

  /** The R&I confirm route as written: it reads the status code of what
      `process_confirm` returned.  The success reply is a bare response, but
      every failure reply is a (response, code) pair, which has no status
      code, so every failure raises, and the exception reaches the app's
      global handler, which answers 500. */
  function ConfirmRAndIAsWritten(s: State, tempId: Option<string>, commit: Outcome): (r: (State, Reply))
    ensures r.1.code == 200 || r.1.code == 500
  {
    var (t, reply) := ProcessConfirm(s, RAndIRoute, tempId, commit);
    if reply.code == 200 then (t.(cache := t.cache - {"faults"}), reply)
    else (t, Reply(500, ServerError))
  }

  /** A confirm without a staging id already crashes the as-written route
      instead of answering 400. */
  lemma RAndIFailureCrashes(s: State)
    ensures ProcessConfirm(s, RAndIRoute, None, Raised("")).1 == Reply(400, Failure(NoTempId))
    ensures ConfirmRAndIAsWritten(s, None, Raised("")).1 == Reply(500, ServerError)
  {
  }

  /** The R&I confirm route as intended: the reply of `process_confirm`
      passes through, and a success also evicts the fault-report table,
      the store part-replacement records merge into.  So it answers what
      the shared confirm answers, a success evicts both tables and a
      failure evicts nothing. */
  function ConfirmRAndI(s: State, tempId: Option<string>, commit: Outcome): (r: (State, Reply))
    ensures r.1 == ProcessConfirm(s, RAndIRoute, tempId, commit).1
    ensures r.0.staging == ProcessConfirm(s, RAndIRoute, tempId, commit).0.staging
    ensures r.1.code == 200 ==> r.0.cache == s.cache - {"r_and_i_record", "faults"}
    ensures r.1.code != 200 ==> r.0.cache == s.cache
  {
    var (t, reply) := ProcessConfirm(s, RAndIRoute, tempId, commit);
    if reply.code == 200 then (t.(cache := t.cache - {"faults"}), reply) else (t, reply)
  }
}
