/** The five category processors.  Every column step of a `clean_data` is
    elementwise, so each processor is modelled as the column-set logic that
    decides whether it raises, followed by a per-row transform over its
    final columns (and, for service requests, a row filter).  The lemmas say
    when each processor succeeds and what every output column holds. */
module Processors {
  import opened Common
  import opened Sequences
  import opened Tables
  import opened Dates
  import opened ImportProcessor

  /** A generic date parser standing in for pandas' format guessing. */
  type Parser = string -> Option<Date>

  /** Why a `clean_data` call raises: the `ValueError` naming missing
      columns, the `KeyError` of a lookup or projection of absent columns,
      or the `AttributeError` of a `.dt` accessor on a column that is not
      of a datetime type (a converted column of an upload without rows
      keeps the `object` type) or of a `.str` accessor on a column that is
      not of `object` type. */
  datatype CleanError =
    | MissingColumns(names: set<string>)
    | KeyError(keys: set<string>)
    | NotDatetime(column: string)
    | NotText(column: string)

  /** How `read_excel` typed a column: `object`, with the positions of the
      cells that hold something other than a string (a number, say), or
      another type, as for a column holding only numbers or no value at
      all. */
  datatype ColumnType = ObjectColumn(nonText: set<nat>) | NonObjectColumn

  /** The view `Series.str` gives of an `object` column `col`: a cell at one
      of the `nonText` positions reads as missing, everything else is
      unchanged. */
  function StrValues(rows: seq<Row>, col: string, nonText: set<nat>): (r: seq<Row>)
    ensures |r| == |rows|
    ensures forall i :: 0 <= i < |rows| ==> r[i].Keys == rows[i].Keys
    ensures forall i, c :: 0 <= i < |rows| ==>
      Get(r[i], c) == if c == col && i in nonText then Null else Get(rows[i], c)
  {
    seq(|rows|, i requires 0 <= i < |rows| =>
      if i in nonText && col in rows[i] then rows[i][col := Null] else rows[i])
  }

  /** Whether cell `i` of the model column is something other than a
      string once `fillna("无")` has filled the missing cells: a present
      cell at one of the `nonText` positions of an `object` column, or any
      present cell of a column of another type (the fill turns such a
      column into an `object` one when it has a missing cell). */
  predicate ModelNonText(rows: seq<Row>, model: ColumnType, i: nat)
    requires i < |rows|
  {
    Get(rows[i], "机型").Str? && (model.NonObjectColumn? || i in model.nonText)
  }

  /** The model column keeps a type other than `object` through the fill,
      having no missing cell to fill, so `.str` raises on it. */
  predicate ModelNotText(rows: seq<Row>, model: ColumnType) {
    model.NonObjectColumn? && NoneMissing(rows, "机型")
  }

  /** No row lacks a value in column `col`. */
  predicate NoneMissing(rows: seq<Row>, col: string) {
    |rows| == 0 || (Get(rows[0], col).Str? && NoneMissing(rows[1..], col))
  }

  lemma {:induction false} NoneMissingMeaning(rows: seq<Row>, col: string)
    ensures NoneMissing(rows, col) <==> forall i :: 0 <= i < |rows| ==> Get(rows[i], col).Str?
  {
    if |rows| > 0 {
      NoneMissingMeaning(rows[1..], col);
      assert forall i :: 1 <= i < |rows| ==> rows[i] == rows[1..][i - 1];
    }
  }

  /** One model cell after `fillna("无")` read through `Series.str`. */
  function ModelRead(c: Cell, nonText: bool): Cell {
    if c.Null? then Str("无") else if nonText then Null else c
  }

  /** The model column as the two `.str.replace` calls of
      `clean_aircraft_type` see it, every other column unchanged. */
  function ModelView(rows: seq<Row>, model: ColumnType): (r: seq<Row>)
    ensures |r| == |rows|
  {
    seq(|rows|, i requires 0 <= i < |rows| =>
      rows[i]["机型" := ModelRead(Get(rows[i], "机型"), ModelNonText(rows, model, i))])
  }

  /** The view changes the model cell only. */
  lemma ModelViewCell(rows: seq<Row>, model: ColumnType, i: nat, c: string)
    requires i < |rows|
    ensures Get(ModelView(rows, model)[i], c)
      == if c == "机型" then ModelRead(Get(rows[i], "机型"), ModelNonText(rows, model, i)) else Get(rows[i], c)
  {
  }

  /** The two `.str.replace` calls on one filled cell: a missing value
      stays missing. */
  function ReplaceAircraft(c: Cell): (r: Cell)
    ensures r.Null? <==> c.Null?
  {
    if c.Null? then Null else CanonicalAircraft(c)
  }

  /** `clean_aircraft_type` on a column it does not reject: each cell is
      canonicalised as `CanonicalAircraft` says, except a cell that is not
      a string, which becomes missing. */
  lemma ModelViewMeaning(rows: seq<Row>, model: ColumnType, i: nat)
    requires i < |rows|
    ensures ReplaceAircraft(Get(ModelView(rows, model)[i], "机型"))
      == if ModelNonText(rows, model, i) then Null else CanonicalAircraft(Get(rows[i], "机型"))
  {
    ModelViewCell(rows, model, i, "机型");
    if Get(rows[i], "机型").Null? {
      AircraftMeaning(Null);
      AircraftMeaning(Str("无"));
      TokenFacts();
    }
  }

  /** `astype(str)` as a cell map. */
  function TextCell(c: Cell): (r: Cell)
    ensures r.Str? && (c.Str? ==> r == c)
  {
    Str(AsText(c))
  }

  /** A row holding, under each of `cols`, the cell `f` gives for that
      column. */
  function RowOf(cols: seq<string>, f: string -> Cell): (r: Row)
    ensures r.Keys == Elems(cols)
    ensures forall c :: c in cols ==> Get(r, c) == f(c)
  {
    map c | c in Elems(cols) :: f(c)
  }

  /** A table over distinct columns whose rows all have exactly those
      columns is well formed. */
  lemma RowsWellFormed(cols: seq<string>, rows: seq<Row>)
    requires NoDup(cols)
    requires forall i :: 0 <= i < |rows| ==> rows[i].Keys == Elems(cols)
    ensures WellFormed(Table(cols, rows))
  {
    forall row | row in rows ensures row.Keys == Elems(cols) {
      var i :| 0 <= i < |rows| && rows[i] == row;
    }
  }

  /** A converted date cell is a rendered representable day or missing, and
      converting it again, with any parser, gives it back. */
  ghost predicate StoredDate(c: Cell) {
    c.Null? || exists d :: Representable(d) && c.s == RenderDate(d)
  }

  lemma StoredDateStable(c: Cell, again: Parser)
    requires StoredDate(c)
    ensures DateCell(c, again) == c
  {
    if c.Str? {
      var d :| Representable(d) && c.s == RenderDate(d);
      DateRoundTrip(d, again);
    }
  }

  // ---------------------------------------------------------------------------
  // CaseProcessor

  const CaseRequired: seq<string> := [
    "类型", "标题", "状态", "技术请求编号", "服务请求单编号", "支持单编号", "版本号",
    "优先级", "受理渠道", "申请人", "申请时间", "初始要求答复日期", "协商答复日期",
    "SR变更人", "变更原因", "实际答复时间", "客户名称", "TR联系人", "联系人电话",
    "联系人邮箱", "运营人", "mro", "机型", "飞机序列号/注册号", "飞机总小时数",
    "飞机总循环数", "故障发生日期", "故障发生地点", "ATA", "CAS信息", "CMS信息",
    "维修级别", "问题描述", "客户期望", "答复详情", "答复用时(小时)", "答复是否超时",
    "SR创建人", "创建时间", "答复者", "答复时间", "审批者", "审批时间", "备注信息"]

  const CaseFinal: seq<string> := [
    "故障发生日期", "申请时间", "标题", "版本号", "问题描述", "答复详情", "客户期望",
    "ATA", "机号/MSN", "运营人", "服务请求单编号", "机型", "数据类型"]

  /** The columns `clean_data` reads, in the order it reads them: those read
      up to the model cleaning, those read up to the MSN fix and those read
      after it. */
  const CaseLookups: seq<string> := CaseEarlyLookups + CaseMiddleLookups + CaseLateLookups
  const CaseEarlyLookups: seq<string> := ["故障发生日期", "申请时间", "机型"]
  const CaseMiddleLookups: seq<string> := ["运营人", "飞机序列号/注册号"]
  const CaseLateLookups: seq<string> := ["ATA", "答复详情"]

  /** The MSN source column, read through `.str` without `astype(str)`. */
  const MsnSource: string := "飞机序列号/注册号"

  /** `Series.str.replace(pat, rep)` on one cell: a missing cell stays
      missing. */
  function ReplaceCell(c: Cell, pat: string, rep: string): (r: Cell)
    requires |pat| > 0
    ensures c.Null? <==> r.Null?
  {
    match c
    case Null => Null
    case Str(s) => Str(ReplaceAll(s, pat, rep))
  }

  /** `机号/MSN`: every literal "all" becomes "ALL", then every "./ALL"
      becomes "ALL/ALL". */
  function FixMsn(c: Cell): (r: Cell)
    ensures c.Null? <==> r.Null?
  {
    ReplaceCell(ReplaceCell(c, "all", "ALL"), "./ALL", "ALL/ALL")
  }

  /** No lower-case "all" survives the MSN fix. */
  lemma FixMsnUpper(c: Cell)
    ensures FixMsn(c).Str? ==> !Contains(FixMsn(c).s, "all")
  {
    if c.Str? {
      ReplaceRemovesAll(c.s, "all", "ALL");
      var h := ReplaceAll(c.s, "all", "ALL");
      ReplaceCreatesNothing(h, "./ALL", "ALL/ALL", "all");
    }
  }

  /** A row is dropped exactly when its reply reads "无". */
  predicate CaseKeeps(row: Row) {
    Get(row, "答复详情") != Str("无")
  }

  /** What each output column holds for one input row; `tagged` says
      whether the upload has its own `数据类型`. */
  function CaseCell(row: Row, col: string, tagged: bool, generic: Parser): Cell {
    if col == "故障发生日期" || col == "申请时间" then DateCell(Get(row, col), generic)
    else if col == "机型" then ReplaceAircraft(Get(row, col))
    else if col == "运营人" then CanonicalOperator(Get(row, col))
    else if col == "机号/MSN" then FixMsn(Get(row, "飞机序列号/注册号"))
    else if col == "ATA" then TextCell(Get(row, col))
    else if col == "数据类型" && !tagged then Str(DefaultTypeTag("case"))
    else Get(row, col)
  }

  function CaseRow(row: Row, tagged: bool, generic: Parser): Row {
    RowOf(CaseFinal, c => CaseCell(row, c, tagged, generic))
  }

  /** The upload's rows as the cell-wise steps of the case cleaning read
      them: the model column through the fill and `.str`, the MSN source
      column through `.str` (a column of another type is refused before
      any row is read). */
  function CaseSource(t: Table, model: ColumnType, msn: ColumnType): seq<Row> {
    StrValues(ModelView(t.rows, model), MsnSource, if msn.ObjectColumn? then msn.nonText else {})
  }

  /** `CaseProcessor.clean_data`: the two date columns, the model, the
      operator, the MSN copied from `飞机序列号/注册号` and fixed, the ATA as
      text, the default tag when the upload has none; then the rows whose
      reply is "无" go and the final columns are kept.  The first date
      conversion raises on an upload without rows, the model cleaning when
      `model`, the model column's type, survives the fill as another type
      than `object`, and the MSN fix unless `msn`, the source column's type,
      is `object`. */
  function CleanCase(t: Table, generic: Parser, model: ColumnType, msn: ColumnType): (r: Result<Table, CleanError>)
    ensures r.Ok? ==> r.value.columns == CaseFinal
  {
    if "故障发生日期" !in t.columns then Err(KeyError({"故障发生日期"}))
    else if |t.rows| == 0 then Err(NotDatetime("故障发生日期"))
    else match FirstAbsent(CaseEarlyLookups, t.columns)
    case Some(c) => Err(KeyError({c}))
    case None =>
      if ModelNotText(t.rows, model) then Err(NotText("机型"))
      else match FirstAbsent(CaseMiddleLookups, t.columns)
      case Some(c) => Err(KeyError({c}))
      case None =>
        if msn.NonObjectColumn? then Err(NotText("机号/MSN"))
        else match FirstAbsent(CaseLateLookups, t.columns)
        case Some(c) => Err(KeyError({c}))
        case None =>
          var tagged := "数据类型" in t.columns;
          var have := Elems(t.columns) + {"机号/MSN", "数据类型"};
          if !(Elems(CaseFinal) <= have) then Err(KeyError(Elems(CaseFinal) - have))
          else Ok(Table(CaseFinal, Filter(Map(CaseSource(t, model, msn), row => CaseRow(row, tagged, generic)), CaseKeeps)))
  }

  lemma CaseFinalDistinct()
    ensures NoDup(CaseFinal)
  {
  }

  /** The columns the schema check demands include every column the case
      processor reads or keeps. */
  lemma CaseRequiredCovers()
    ensures Elems(CaseLookups) <= Elems(CaseRequired)
    ensures Elems(CaseFinal) <= Elems(CaseRequired) + {"机号/MSN", "数据类型"}
  {
    CaseRequiredReads();
    CaseRequiredKeeps();
    CaseLookupsSplit();
  }

  lemma CaseLookupsSplit()
    ensures Elems(CaseLookups) == Elems(CaseEarlyLookups) + Elems(CaseMiddleLookups) + Elems(CaseLateLookups)
    ensures "故障发生日期" in CaseEarlyLookups
  {
  }

  /** With every required column present no lookup of the case cleaning
      and no part of its projection fails. */
  lemma CaseColumnsPresent(columns: seq<string>)
    requires Elems(CaseRequired) <= Elems(columns)
    ensures "故障发生日期" in columns
    ensures FirstAbsent(CaseEarlyLookups, columns).None? && FirstAbsent(CaseMiddleLookups, columns).None?
    ensures FirstAbsent(CaseLateLookups, columns).None?
    ensures Elems(CaseFinal) <= Elems(columns) + {"机号/MSN", "数据类型"}
  {
    CaseRequiredCovers();
    CaseLookupsSplit();
    assert "故障发生日期" in Elems(CaseRequired);
  }

  lemma CaseRequiredReads()
    ensures "故障发生日期" in CaseRequired && "申请时间" in CaseRequired && "机型" in CaseRequired
    ensures "运营人" in CaseRequired && "飞机序列号/注册号" in CaseRequired
    ensures "ATA" in CaseRequired && "答复详情" in CaseRequired
  {
    CaseRequiredDates();
    CaseRequiredOthers();
  }

  lemma CaseRequiredDates()
    ensures "故障发生日期" in CaseRequired && "申请时间" in CaseRequired
  {
    assert CaseRequired[26] == "故障发生日期" && CaseRequired[10] == "申请时间";
  }

  lemma CaseRequiredOthers()
    ensures "机型" in CaseRequired && "运营人" in CaseRequired && "飞机序列号/注册号" in CaseRequired
    ensures "ATA" in CaseRequired && "答复详情" in CaseRequired
  {
    assert CaseRequired[22] == "机型" && CaseRequired[20] == "运营人";
    assert CaseRequired[23] == "飞机序列号/注册号" && CaseRequired[28] == "ATA";
    assert CaseRequired[34] == "答复详情";
  }

  lemma CaseRequiredKeeps()
    ensures "标题" in CaseRequired && "版本号" in CaseRequired && "问题描述" in CaseRequired
    ensures "客户期望" in CaseRequired && "服务请求单编号" in CaseRequired
  {
    var r := CaseRequired;
    assert r[1] == "标题";
    assert r[4] == "服务请求单编号";
    assert r[6] == "版本号";
    assert r[32] == "问题描述";
    assert r[33] == "客户期望";
  }

  /** An upload that passed the schema check is cleaned exactly when it has
      rows, its model column reads as text after the fill and its MSN
      source column is of `object` type: otherwise the first date
      conversion, or else the model cleaning, or else the MSN fix,
      raises. */
  lemma CaseAccepts(t: Table, generic: Parser, model: ColumnType, msn: ColumnType)
    requires Elems(CaseRequired) <= Elems(t.columns)
    ensures var r := CleanCase(t, generic, model, msn);
      (r.Ok? <==> |t.rows| > 0 && !ModelNotText(t.rows, model) && msn.ObjectColumn?)
      && (|t.rows| == 0 ==> r == Err(NotDatetime("故障发生日期")))
      && (|t.rows| > 0 && ModelNotText(t.rows, model) ==> r == Err(NotText("机型")))
      && (|t.rows| > 0 && !ModelNotText(t.rows, model) && msn.NonObjectColumn? ==> r == Err(NotText("机号/MSN")))
  {
    CaseColumnsPresent(t.columns);
  }

  /** An upload lacking a column the processor reads is rejected. */
  lemma CaseRejectsMissing(t: Table, generic: Parser, model: ColumnType, msn: ColumnType)
    ensures (exists c :: c in CaseLookups && c !in t.columns) ==> CleanCase(t, generic, model, msn).Err?
  {
    if exists c :: c in CaseLookups && c !in t.columns {
      var c :| c in CaseLookups && c !in t.columns;
      CaseLookupsSplit();
      assert c in Elems(CaseLookups);
      assert FirstAbsent(CaseEarlyLookups, t.columns).Some? || FirstAbsent(CaseMiddleLookups, t.columns).Some?
        || FirstAbsent(CaseLateLookups, t.columns).Some?;
      if |t.rows| > 0 && !ModelNotText(t.rows, model) && msn.ObjectColumn? {
      }
    }
  }

  /** A key error names only columns the upload lacks, the date conversion
      fails only on an upload without rows, the model cleaning only on a
      model column that keeps another type than `object` through the fill,
      and the MSN fix only on a column that is not of `object` type. */
  lemma CaseRejects(t: Table, generic: Parser, model: ColumnType, msn: ColumnType)
    ensures var r := CleanCase(t, generic, model, msn);
      r.Err? ==> match r.error
        case KeyError(keys) => keys != {} && keys !! Elems(t.columns)
        case NotDatetime(c) => c == "故障发生日期" && |t.rows| == 0
        case NotText(c) => |t.rows| > 0 &&
          ((c == "机型" && ModelNotText(t.rows, model)) || (c == "机号/MSN" && msn.NonObjectColumn?))
        case MissingColumns(_) => false
  {
    if "故障发生日期" in t.columns && |t.rows| > 0 && FirstAbsent(CaseEarlyLookups, t.columns).None?
      && !ModelNotText(t.rows, model) && FirstAbsent(CaseMiddleLookups, t.columns).None?
      && msn.ObjectColumn? && FirstAbsent(CaseLateLookups, t.columns).None?
    {
      ProjectionMisses(Elems(CaseFinal), Elems(t.columns), {"机号/MSN", "数据类型"});
    }
  }

  /** What a projection lacks is not empty and is outside the table. */
  lemma ProjectionMisses(final: set<string>, columns: set<string>, made: set<string>)
    ensures !(final <= columns + made) ==> final - (columns + made) != {} && (final - (columns + made)) !! columns
  {
    if !(final <= columns + made) {
      var c :| c in final && c !in columns + made;
      assert c in final - (columns + made);
    }
  }

  /** The rows of a successful case cleaning: the model and MSN source
      columns read through `.str`, cleaned row by row, without the "无"
      replies. */
  lemma CaseOutput(t: Table, generic: Parser, model: ColumnType, msn: ColumnType)
    requires CleanCase(t, generic, model, msn).Ok?
    ensures msn.ObjectColumn? && !ModelNotText(t.rows, model) && |t.rows| > 0
    ensures CleanCase(t, generic, model, msn).value.rows
      == Filter(Map(CaseSource(t, model, msn), row => CaseRow(row, "数据类型" in t.columns, generic)), CaseKeeps)
  {
  }

  /** Cleaning and then dropping the "无" replies is dropping them from the
      upload and then cleaning: the output has one row per kept input row,
      in order, with exactly the final columns. */
  lemma CaseRows(t: Table, generic: Parser, model: ColumnType, msn: ColumnType)
    requires CleanCase(t, generic, model, msn).Ok?
    ensures var r := CleanCase(t, generic, model, msn).value;
      var kept := Filter(CaseSource(t, model, msn), CaseKeeps);
      |r.rows| == |kept| <= |t.rows|
      && forall i :: 0 <= i < |r.rows| ==>
           r.rows[i] == CaseRow(kept[i], "数据类型" in t.columns, generic)
  {
    CaseOutput(t, generic, model, msn);
    CleanedThenFiltered(CaseSource(t, model, msn), "数据类型" in t.columns, generic);
  }

  /** A row whose MSN source cell is not a string has no MSN in the output:
      `.str.replace` gives a missing value for it. */
  lemma CaseMsnNonText(t: Table, model: ColumnType, nonText: set<nat>, tagged: bool, generic: Parser)
    ensures var source := CaseSource(t, model, ObjectColumn(nonText));
      forall i :: 0 <= i < |t.rows| && i in nonText ==>
        Get(CaseRow(source[i], tagged, generic), "机号/MSN") == Null
  {
    var source := CaseSource(t, model, ObjectColumn(nonText));
    forall i | 0 <= i < |t.rows| && i in nonText
      ensures Get(CaseRow(source[i], tagged, generic), "机号/MSN") == Null
    {
      assert Get(source[i], MsnSource) == Null;
      CaseMsnCell(source[i], tagged, generic);
    }
  }

  /** The model column of the cleaned rows, before the "无" replies go: a
      cell that is not a string becomes missing, every other cell is
      canonicalised, a missing one to "无". */
  lemma CaseModelColumn(t: Table, model: ColumnType, msn: ColumnType, tagged: bool, generic: Parser)
    ensures var source := CaseSource(t, model, msn);
      forall i :: 0 <= i < |t.rows| ==>
        Get(CaseRow(source[i], tagged, generic), "机型")
          == if ModelNonText(t.rows, model, i) then Null else CanonicalAircraft(Get(t.rows[i], "机型"))
  {
    var source := CaseSource(t, model, msn);
    forall i | 0 <= i < |t.rows|
      ensures Get(CaseRow(source[i], tagged, generic), "机型")
        == if ModelNonText(t.rows, model, i) then Null else CanonicalAircraft(Get(t.rows[i], "机型"))
    {
      CaseModelCell(source[i], tagged, generic);
      assert Get(source[i], "机型") == Get(ModelView(t.rows, model)[i], "机型");
      ModelViewCell(t.rows, model, i, "机型");
      ModelViewMeaning(t.rows, model, i);
    }
  }

  lemma CaseModelCell(input: Row, tagged: bool, generic: Parser)
    ensures Get(CaseRow(input, tagged, generic), "机型") == ReplaceAircraft(Get(input, "机型"))
  {
    CaseFinalHas();
    var c := "机型";
    assert |c| == 2 && c != "故障发生日期" && c != "申请时间";
  }

  lemma CaseMsnCell(input: Row, tagged: bool, generic: Parser)
    ensures Get(CaseRow(input, tagged, generic), "机号/MSN") == FixMsn(Get(input, MsnSource))
  {
    CaseFinalHas();
    var c := "机号/MSN";
    assert |c| == 6 && c != "故障发生日期" && c != "申请时间" && c != "机型" && c != "运营人";
  }

  /** The case output is a well-formed table over the final columns. */
  lemma CaseWellFormed(t: Table, generic: Parser, model: ColumnType, msn: ColumnType)
    requires CleanCase(t, generic, model, msn).Ok?
    ensures WellFormed(CleanCase(t, generic, model, msn).value)
  {
    CaseOutput(t, generic, model, msn);
    var cleaned := Map(CaseSource(t, model, msn), row => CaseRow(row, "数据类型" in t.columns, generic));
    var rows := Filter(cleaned, CaseKeeps);
    forall i | 0 <= i < |rows| ensures rows[i].Keys == Elems(CaseFinal) {
      assert rows[i] in cleaned;
    }
    CaseFinalDistinct();
    RowsWellFormed(CaseFinal, rows);
  }

  lemma CleanedThenFiltered(rows: seq<Row>, tagged: bool, generic: Parser)
    ensures var f := row => CaseRow(row, tagged, generic);
      Filter(Map(rows, f), CaseKeeps) == Map(Filter(rows, CaseKeeps), f)
  {
    var f := row => CaseRow(row, tagged, generic);
    forall row ensures CaseKeeps(f(row)) == CaseKeeps(row) {
      CaseFinalHas();
    }
    FilterMap(rows, f, CaseKeeps, CaseKeeps);
  }

  /** An output row in canonical form: the dates are stored dates, a model
      that is not missing and the operator are fixed points of their
      canonicalisers, the ATA is text, no lower-case "all" is left in the
      MSN, and an untagged upload carries the service-request tag. */
  ghost predicate CaseClean(row: Row, tagged: bool) {
    StoredDate(Get(row, "故障发生日期")) && StoredDate(Get(row, "申请时间"))
    && (Get(row, "机型").Str? ==> CanonicalAircraft(Get(row, "机型")) == Get(row, "机型"))
    && Get(row, "运营人").Str? && CanonicalOperator(Get(row, "运营人")) == Get(row, "运营人")
    && Get(row, "ATA").Str?
    && (Get(row, "机号/MSN").Str? ==> !Contains(Get(row, "机号/MSN").s, "all"))
    && (!tagged ==> Get(row, "数据类型") == Str("服务请求"))
  }

  /** Every output row is in canonical form and no reply reads "无". */
  lemma CaseCanonical(t: Table, generic: Parser, model: ColumnType, msn: ColumnType)
    requires CleanCase(t, generic, model, msn).Ok?
    ensures forall row :: row in CleanCase(t, generic, model, msn).value.rows ==>
      CaseKeeps(row) && CaseClean(row, "数据类型" in t.columns)
  {
    CaseOutput(t, generic, model, msn);
    CaseRowsClean(CaseSource(t, model, msn), "数据类型" in t.columns, generic);
  }

  lemma CaseRowsClean(rows: seq<Row>, tagged: bool, generic: Parser)
    ensures forall row :: row in Filter(Map(rows, row => CaseRow(row, tagged, generic)), CaseKeeps) ==>
      CaseKeeps(row) && CaseClean(row, tagged)
  {
    var cleaned := Map(rows, row => CaseRow(row, tagged, generic));
    forall row | row in Filter(cleaned, CaseKeeps)
      ensures CaseKeeps(row) && CaseClean(row, tagged)
    {
      var i :| 0 <= i < |cleaned| && row == cleaned[i];
      CaseRowClean(rows[i], tagged, generic);
    }
  }

  lemma CaseRowClean(input: Row, tagged: bool, generic: Parser)
    ensures CaseClean(CaseRow(input, tagged, generic), tagged)
  {
    CaseFinalHas();
    CaseDates(input, tagged, generic);
    CaseModel(input, tagged, generic);
    CaseOperator(input, tagged, generic);
    CaseMsn(input, tagged, generic);
  }

  lemma CaseFinalHas()
    ensures "故障发生日期" in CaseFinal && "申请时间" in CaseFinal && "机型" in CaseFinal
    ensures "运营人" in CaseFinal && "ATA" in CaseFinal && "机号/MSN" in CaseFinal
    ensures "数据类型" in CaseFinal && "答复详情" in CaseFinal
  {
  }

  lemma CaseDates(input: Row, tagged: bool, generic: Parser)
    ensures StoredDate(CaseCell(input, "故障发生日期", tagged, generic))
    ensures StoredDate(CaseCell(input, "申请时间", tagged, generic))
  {
  }

  lemma CaseModel(input: Row, tagged: bool, generic: Parser)
    ensures var m := CaseCell(input, "机型", tagged, generic);
      (m.Str? <==> Get(input, "机型").Str?) && (m.Str? ==> CanonicalAircraft(m) == m)
  {
    AircraftIdempotent(Get(input, "机型"));
  }

  lemma CaseOperator(input: Row, tagged: bool, generic: Parser)
    ensures var o := CaseCell(input, "运营人", tagged, generic); o.Str? && CanonicalOperator(o) == o
  {
    CaseOperatorCell(input, tagged, generic);
    OperatorIdempotent(Get(input, "运营人"));
  }

  lemma CaseOperatorCell(input: Row, tagged: bool, generic: Parser)
    ensures CaseCell(input, "运营人", tagged, generic) == CanonicalOperator(Get(input, "运营人"))
  {
    var c := "运营人";
    assert |c| == 3 && c != "故障发生日期" && c != "申请时间" && c != "机型";
  }

  lemma CaseMsn(input: Row, tagged: bool, generic: Parser)
    ensures var m := CaseCell(input, "机号/MSN", tagged, generic); m.Str? ==> !Contains(m.s, "all")
    ensures CaseCell(input, "ATA", tagged, generic).Str?
    ensures !tagged ==> CaseCell(input, "数据类型", tagged, generic) == Str("服务请求")
  {
    FixMsnUpper(Get(input, "飞机序列号/注册号"));
  }

  // ---------------------------------------------------------------------------
  // FaultReportProcessor and RAndIRecordProcessor

  /** `clean_null_values`, which the two fault-table processors call on
      every column just before the projection; its definition is not part
      of this model, so it is a parameter mapping each cell. */
  type NullCleaner = Cell -> Cell

  const FaultRequired: seq<string> := [
    "运营人", "机型", "系列", "飞机序列号", "机号", "日期", "航班号", "故障报告类型",
    "故障ATA", "维修ATA", "故障确认", "确认人", "确认时间", "问题描述", "排故措施",
    "飞行阶段", "发生地", "是否ETOPS航班", "故障报告来源编码", "其他排故措施编码",
    "主要排故措施编码"]

  const FaultFinal: seq<string> := [
    "日期", "维修ATA", "问题描述", "排故措施", "运营人", "机型", "飞机序列号", "机号",
    "数据类型", "拆卸部件件号", "拆卸部件序列号", "装上部件件号", "装上部件序列号"]

  const RAndIRequired: seq<string> := [
    "运营人", "机型", "系列", "飞机序列号", "机号", "拆换日期", "ATA", "拆卸部件件号",
    "拆卸部件序列号", "拆换类型", "拆换原因", "装上部件件号", "装上部件序列号",
    "本次使用小时", "本次使用循环", "本次使用天数", "累积使用小时", "累积使用循环",
    "累积使用天数", "拆卸部件处理措施"]

  const RAndIFinal: seq<string> := [
    "日期", "维修ATA", "问题描述", "排故措施", "运营人", "机型", "飞机序列号", "机号",
    "数据类型", "拆卸部件件号", "拆卸部件序列号", "装上部件件号", "装上部件序列号"]

  /** The part columns, created empty when the upload lacks them. */
  const PartColumns: seq<string> := ["拆卸部件件号", "拆卸部件序列号", "装上部件件号", "装上部件序列号"]

  /** The final columns that must come from the upload itself. */
  const FaultKept: seq<string> := ["日期", "维修ATA", "问题描述", "排故措施", "运营人", "机型", "飞机序列号", "机号"]

  /** Both processors store into the same fault table, with the same
      columns. */
  lemma SameFinal()
    ensures RAndIFinal == FaultFinal
  {
  }

  /** The cleaning both fault-table processors give a column holding `v`
      (for the model, `v` is the cell as `.str` reads it after the fill):
      the model, the operator and the serial are canonicalised, the ATA
      becomes text, anything else is kept. */
  function FaultTableCell(col: string, v: Cell): Cell {
    if col == "机型" then ReplaceAircraft(v)
    else if col == "运营人" then CanonicalOperator(v)
    else if col == "飞机序列号" then NormaliseSerial(v)
    else if col == "维修ATA" then TextCell(v)
    else v
  }

  /** What a fault report's output column holds, given the upload's cell
      in that column. */
  function FaultCell(col: string, v: Cell, generic: Parser): Cell {
    if col == "数据类型" then Str("故障报告")
    else if col == "日期" then DateCell(v, generic)
    else FaultTableCell(col, v)
  }

  function FaultRow(row: Row, generic: Parser, nulls: NullCleaner): Row {
    RowOf(FaultFinal, c => nulls(FaultCell(c, Get(row, c), generic)))
  }

  /** The cleaned rows of a fault table `d`, one per row, with the model
      column read through the fill and `.str`. */
  function FaultOutput(d: Table, generic: Parser, nulls: NullCleaner, model: ColumnType): (r: seq<Row>)
    ensures |r| == |d.rows|
    ensures forall i :: 0 <= i < |r| ==> r[i] == FaultRow(ModelView(d.rows, model)[i], generic, nulls)
  {
    Map(ModelView(d.rows, model), row => FaultRow(row, generic, nulls))
  }

  /** `FaultReportProcessor.clean_data`: the schema check, the removal of
      empty columns, the tag, the date, model, operator, serial and ATA
      cleaning, the empty part columns, the null cleaning, the projection.
      The model and operator lookups raise `KeyError` when their column was
      empty, the model cleaning raises when `model`, the model column's
      type, survives the fill as another type than `object`, and the
      projection raises `ValueError` naming the final columns that are
      missing. */
  function CleanFault(t: Table, generic: Parser, nulls: NullCleaner, model: ColumnType): (r: Result<Table, CleanError>)
    ensures r.Ok? ==> r.value.columns == FaultFinal
  {
    match ValidateHeaders(t.columns, FaultRequired)
    case Err(missing) => Err(MissingColumns(missing))
    case Ok(_) =>
      var d := DropAllNullColumns(t);
      var have := Elems(d.columns) + {"数据类型"};
      if "机型" !in have then Err(KeyError({"机型"}))
      else if ModelNotText(t.rows, model) then Err(NotText("机型"))
      else if "运营人" !in have then Err(KeyError({"运营人"}))
      else
        var all := have + Elems(PartColumns);
        if !(Elems(FaultFinal) <= all) then Err(MissingColumns(Elems(FaultFinal) - all))
        else Ok(Table(FaultFinal, FaultOutput(d, generic, nulls, model)))
  }

  lemma FaultKeptRequired()
    ensures Elems(FaultKept) <= Elems(FaultRequired)
  {
    assert FaultRequired[5] == "日期" && FaultRequired[9] == "维修ATA";
    assert FaultRequired[13] == "问题描述" && FaultRequired[14] == "排故措施";
    assert FaultRequired[0] == "运营人" && FaultRequired[1] == "机型";
    assert FaultRequired[3] == "飞机序列号" && FaultRequired[4] == "机号";
  }

  /** The final columns are the kept ones, the tag and the part columns. */
  lemma FaultFinalParts()
    ensures forall c :: c in FaultFinal <==> c in FaultKept || c == "数据类型" || c in PartColumns
    ensures forall c :: c in FaultKept ==> c != "数据类型" && c !in PartColumns
  {
  }

  /** A fault report is accepted exactly when it has every required column,
      none of the columns it keeps is empty and its model column reads as
      text after the fill: `dropna` removes an empty column, and the model
      and operator lookups or the projection then fail, and `.str` fails on
      a model column that kept another type. */
  lemma FaultAccepts(t: Table, generic: Parser, nulls: NullCleaner, model: ColumnType)
    ensures CleanFault(t, generic, nulls, model).Ok? <==>
      Elems(FaultRequired) <= Elems(t.columns) && (forall c :: c in FaultKept ==> Present(t, c))
      && !ModelNotText(t.rows, model)
  {
    if Elems(FaultRequired) <= Elems(t.columns) {
      if forall c :: c in FaultKept ==> Present(t, c) {
        if !ModelNotText(t.rows, model) {
          FaultKeptAccepted(t, generic, nulls, model);
        } else {
          FaultModelRejected(t, generic, nulls, model);
        }
      } else {
        var c :| c in FaultKept && !Present(t, c);
        FaultKeptMissing(t, c, generic, nulls, model);
      }
    }
  }

  /** A model column that keeps another type than `object` through the
      fill is refused with the `.str` error once the lookups succeed. */
  lemma FaultModelRejected(t: Table, generic: Parser, nulls: NullCleaner, model: ColumnType)
    requires Elems(FaultRequired) <= Elems(t.columns)
    requires Present(t, "机型") && ModelNotText(t.rows, model)
    ensures CleanFault(t, generic, nulls, model) == Err(NotText("机型"))
  {
    DropPresent(t);
  }

  lemma FaultKeptAccepted(t: Table, generic: Parser, nulls: NullCleaner, model: ColumnType)
    requires Elems(FaultRequired) <= Elems(t.columns)
    requires forall c :: c in FaultKept ==> Present(t, c)
    requires !ModelNotText(t.rows, model)
    ensures CleanFault(t, generic, nulls, model).Ok?
  {
    var d := DropAllNullColumns(t);
    DropPresent(t);
    assert FaultKept[5] == "机型" && FaultKept[4] == "运营人";
    assert "机型" in Elems(d.columns) && "运营人" in Elems(d.columns);
    FaultFinalParts();
    assert Elems(FaultFinal) <= Elems(d.columns) + {"数据类型"} + Elems(PartColumns);
  }

  lemma FaultKeptMissing(t: Table, c: string, generic: Parser, nulls: NullCleaner, model: ColumnType)
    requires c in FaultKept && !Present(t, c)
    ensures CleanFault(t, generic, nulls, model).Err?
  {
    if !ModelNotText(t.rows, model) {
      FaultKeptMissingText(t, c, generic, nulls, model);
    }
  }

  lemma FaultKeptMissingText(t: Table, c: string, generic: Parser, nulls: NullCleaner, model: ColumnType)
    requires c in FaultKept && !Present(t, c) && !ModelNotText(t.rows, model)
    ensures CleanFault(t, generic, nulls, model).Err?
  {
    var d := DropAllNullColumns(t);
    DropPresent(t);
    FaultFinalParts();
    assert c in FaultFinal && c !in Elems(d.columns) + {"数据类型"} + Elems(PartColumns);
  }

  /** An upload without rows has only empty columns, so it is rejected. */
  lemma FaultRejectsEmpty(t: Table, generic: Parser, nulls: NullCleaner, model: ColumnType)
    requires |t.rows| == 0
    ensures CleanFault(t, generic, nulls, model).Err?
  {
    assert !Present(t, "机型");
    assert "机型" in FaultKept;
    FaultAccepts(t, generic, nulls, model);
  }

  /** The rows of a successful fault cleaning. */
  lemma FaultOutputRows(t: Table, generic: Parser, nulls: NullCleaner, model: ColumnType)
    requires CleanFault(t, generic, nulls, model).Ok?
    ensures CleanFault(t, generic, nulls, model).value.rows == FaultOutput(DropAllNullColumns(t), generic, nulls, model)
  {
    if !ModelNotText(t.rows, model) {
    }
  }

  /** Removing the empty columns changes no value: every output cell is the
      null cleaning of the column cleaning of the upload's own cell, with
      the model column read through the fill and `.str`, one output row per
      upload row. */
  lemma FaultRows(t: Table, generic: Parser, nulls: NullCleaner, model: ColumnType)
    requires WellFormed(t) && CleanFault(t, generic, nulls, model).Ok?
    ensures var r := CleanFault(t, generic, nulls, model).value;
      |r.rows| == |t.rows|
      && forall i, c :: 0 <= i < |r.rows| && c in FaultFinal ==>
           Get(r.rows[i], c) == nulls(FaultCell(c, Get(ModelView(t.rows, model)[i], c), generic))
  {
    var r := CleanFault(t, generic, nulls, model).value;
    FaultOutputRows(t, generic, nulls, model);
    forall i, c | 0 <= i < |r.rows| && c in FaultFinal
      ensures Get(r.rows[i], c) == nulls(FaultCell(c, Get(ModelView(t.rows, model)[i], c), generic))
    {
      ViewDropKeeps(t, model, i, c);
    }
  }

  /** The model column of a cleaned fault report: the null cleaning of the
      canonical model, or of a missing value when the upload's cell is not
      a string. */
  lemma FaultModelColumn(t: Table, generic: Parser, nulls: NullCleaner, model: ColumnType)
    requires WellFormed(t) && CleanFault(t, generic, nulls, model).Ok?
    ensures var r := CleanFault(t, generic, nulls, model).value;
      |r.rows| == |t.rows| &&
      forall i :: 0 <= i < |r.rows| ==>
        Get(r.rows[i], "机型")
          == nulls(if ModelNonText(t.rows, model, i) then Null else CanonicalAircraft(Get(t.rows[i], "机型")))
  {
    var r := CleanFault(t, generic, nulls, model).value;
    FaultRows(t, generic, nulls, model);
    forall i | 0 <= i < |r.rows|
      ensures Get(r.rows[i], "机型")
        == nulls(if ModelNonText(t.rows, model, i) then Null else CanonicalAircraft(Get(t.rows[i], "机型")))
    {
      assert "机型" in FaultFinal;
      FaultModelCell(Get(ModelView(t.rows, model)[i], "机型"), generic);
      ModelViewMeaning(t.rows, model, i);
    }
  }

  lemma FaultModelCell(v: Cell, generic: Parser)
    ensures FaultCell("机型", v, generic) == ReplaceAircraft(v)
  {
    var c := "机型";
    assert c != "数据类型";
    assert c != "日期" by {
      assert c[0] != "日期"[0];
    }
  }

  /** Reading the model column through the fill and `.str` after dropping
      the empty columns reads every cell as before the drop. */
  lemma ViewDropKeeps(t: Table, model: ColumnType, i: nat, c: string)
    requires WellFormed(t) && i < |t.rows|
    ensures Get(ModelView(DropAllNullColumns(t).rows, model)[i], c) == Get(ModelView(t.rows, model)[i], c)
  {
    DropKeepsCells(t, i, c);
    DropKeepsCells(t, i, "机型");
    ModelViewCell(t.rows, model, i, c);
    ModelViewCell(DropAllNullColumns(t).rows, model, i, c);
  }

  lemma FaultFinalDistinct()
    ensures NoDup(FaultFinal)
  {
  }

  lemma FaultWellFormed(t: Table, generic: Parser, nulls: NullCleaner, model: ColumnType)
    requires CleanFault(t, generic, nulls, model).Ok?
    ensures WellFormed(CleanFault(t, generic, nulls, model).value)
  {
    var rows := CleanFault(t, generic, nulls, model).value.rows;
    var d := ModelView(DropAllNullColumns(t).rows, model);
    FaultOutputRows(t, generic, nulls, model);
    forall i | 0 <= i < |rows| ensures rows[i].Keys == Elems(FaultFinal) {
      assert rows[i] == FaultRow(d[i], generic, nulls);
    }
    FaultFinalDistinct();
    RowsWellFormed(FaultFinal, rows);
  }

  /** A fault report's date column holds stored dates and its tag column
      the fault-report tag. */
  lemma FaultCellClean(v: Cell, generic: Parser)
    ensures StoredDate(FaultCell("日期", v, generic))
    ensures FaultCell("数据类型", v, generic) == Str("故障报告")
  {
  }

  /** Canonical model, operator, serial and ATA cells: fixed points of the
      model (unless missing), operator and serial cleaning, a serial of at
      least five digits, and the ATA as text. */
  ghost predicate FaultTableClean(model: Cell, operator: Cell, serial: Cell, ata: Cell) {
    (model.Str? ==> CanonicalAircraft(model) == model)
    && operator.Str? && CanonicalOperator(operator) == operator
    && serial.Str? && AllDigits(serial.s) && |serial.s| >= 5 && NormaliseSerial(serial) == serial
    && ata.Str?
  }

  lemma FaultTableCellClean(v: Cell)
    ensures FaultTableClean(FaultTableCell("机型", v), FaultTableCell("运营人", v),
                            FaultTableCell("飞机序列号", v), FaultTableCell("维修ATA", v))
  {
    FaultModelClean(v);
    FaultOperatorClean(v);
    FaultSerialClean(v);
    FaultAtaText(v);
  }

  lemma FaultAtaText(v: Cell)
    ensures FaultTableCell("维修ATA", v) == TextCell(v)
  {
    var c := "维修ATA";
    assert c != "机型" && c != "运营人";
    assert c != "飞机序列号" by {
      assert c[0] != "飞机序列号"[0];
    }
  }

  lemma FaultModelClean(v: Cell)
    ensures var m := FaultTableCell("机型", v); (m.Str? <==> v.Str?) && (m.Str? ==> CanonicalAircraft(m) == m)
  {
    AircraftIdempotent(v);
  }

  lemma FaultOperatorClean(v: Cell)
    ensures var o := FaultTableCell("运营人", v); o.Str? && CanonicalOperator(o) == o
  {
    assert FaultTableCell("运营人", v) == CanonicalOperator(v) by {
      assert "运营人" != "机型";
    }
    OperatorIdempotent(v);
  }

  lemma FaultSerialClean(v: Cell)
    ensures var n := FaultTableCell("飞机序列号", v);
      n.Str? && AllDigits(n.s) && |n.s| >= 5 && NormaliseSerial(n) == n
  {
    FaultSerialCell(v);
    SerialMeaning(v);
    SerialIdempotent(v);
  }

  lemma FaultSerialCell(v: Cell)
    ensures FaultTableCell("飞机序列号", v) == NormaliseSerial(v)
  {
    var c := "飞机序列号";
    assert |c| == 5 && c != "机型" && c != "运营人";
  }

  /** Where a part-replacement output column takes its value from: the
      upload's `ATA`, `拆换原因` and `拆卸部件处理措施` replace `维修ATA`,
      `问题描述` and `排故措施` when they survived the removal of empty
      columns; any other column is read as it is. */
  function RAndISource(row: Row, col: string, present: set<string>): Cell {
    if col == "维修ATA" && "ATA" in present then Get(row, "ATA")
    else if col == "问题描述" && "拆换原因" in present then Get(row, "拆换原因")
    else if col == "排故措施" && "拆卸部件处理措施" in present then Get(row, "拆卸部件处理措施")
    else Get(row, col)
  }

  /** What a part-replacement output column holds; `present` is the set of
      upload columns that are not entirely empty. */
  function RAndICell(row: Row, col: string, present: set<string>, generic: Parser): Cell {
    if col == "数据类型" then Str("部件拆换记录")
    else if col == "日期" then
      (if "拆换日期" in present then DateCell(Get(row, "拆换日期"), generic) else Get(row, "日期"))
    else FaultTableCell(col, RAndISource(row, col, present))
  }

  /** The output columns the renames create. */
  function RAndIDerived(present: set<string>): set<string> {
    (if "拆换日期" in present then {"日期"} else {})
    + (if "ATA" in present then {"维修ATA"} else {})
    + (if "拆换原因" in present then {"问题描述"} else {})
    + (if "拆卸部件处理措施" in present then {"排故措施"} else {})
  }

  /** The final columns a part-replacement table can hold, given the
      non-empty upload columns. */
  function RAndIHave(present: set<string>): set<string> {
    present + {"数据类型"} + RAndIDerived(present) + Elems(PartColumns)
  }

  function RAndIRow(row: Row, present: set<string>, generic: Parser, nulls: NullCleaner): Row {
    RowOf(RAndIFinal, c => nulls(RAndICell(row, c, present, generic)))
  }

  /** The cleaned rows of a part-replacement table `d`, one per row, with
      the model column read through the fill and `.str`. */
  function RAndIOutput(d: Table, generic: Parser, nulls: NullCleaner, model: ColumnType): (r: seq<Row>)
    ensures |r| == |d.rows|
    ensures forall i :: 0 <= i < |r| ==>
      r[i] == RAndIRow(ModelView(d.rows, model)[i], Elems(d.columns), generic, nulls)
  {
    Map(ModelView(d.rows, model), row => RAndIRow(row, Elems(d.columns), generic, nulls))
  }

  /** `RAndIRecordProcessor.clean_data`: the schema check, the removal of
      empty columns, the tag, the date taken from `拆换日期`, the three
      renames, the model, operator, serial and ATA cleaning, the empty part
      columns, the null cleaning and the projection, with the same errors
      as the fault-report processor. */
  function CleanRAndI(t: Table, generic: Parser, nulls: NullCleaner, model: ColumnType): (r: Result<Table, CleanError>)
    ensures r.Ok? ==> r.value.columns == RAndIFinal
  {
    match ValidateHeaders(t.columns, RAndIRequired)
    case Err(missing) => Err(MissingColumns(missing))
    case Ok(_) =>
      var d := DropAllNullColumns(t);
      var present := Elems(d.columns);
      var have := present + {"数据类型"} + RAndIDerived(present);
      if "机型" !in have then Err(KeyError({"机型"}))
      else if ModelNotText(t.rows, model) then Err(NotText("机型"))
      else if "运营人" !in have then Err(KeyError({"运营人"}))
      else if !(Elems(RAndIFinal) <= RAndIHave(present)) then
        Err(MissingColumns(Elems(RAndIFinal) - RAndIHave(present)))
      else Ok(Table(RAndIFinal, RAndIOutput(d, generic, nulls, model)))
  }

  /** Every final column a part-replacement upload must supply has a
      source among the non-empty upload columns `present`: the model,
      operator, serial and registration columns themselves, and for each
      renamed column either its new source or an uploaded column of the old
      name. */
  predicate RAndISupplied(present: set<string>) {
    "机型" in present && "运营人" in present && "飞机序列号" in present && "机号" in present
    && ("拆换日期" in present || "日期" in present)
    && ("ATA" in present || "维修ATA" in present)
    && ("拆换原因" in present || "问题描述" in present)
    && ("拆卸部件处理措施" in present || "排故措施" in present)
  }

  /** A part-replacement upload is accepted exactly when it has every
      required column, every final column has a non-empty source and its
      model column reads as text after the fill. */
  lemma RAndIAccepts(t: Table, generic: Parser, nulls: NullCleaner, model: ColumnType)
    ensures CleanRAndI(t, generic, nulls, model).Ok? <==>
      Elems(RAndIRequired) <= Elems(t.columns) && RAndISupplied(PresentColumns(t)) && !ModelNotText(t.rows, model)
  {
    var present := PresentColumns(t);
    RAndIOk(t, generic, nulls, model);
    if "机型" in present && "运营人" in present {
      RAndICovered(present);
    }
  }

  /** When the part-replacement cleaning succeeds, in terms of the
      non-empty upload columns. */
  lemma RAndIOk(t: Table, generic: Parser, nulls: NullCleaner, model: ColumnType)
    ensures var present := PresentColumns(t);
      CleanRAndI(t, generic, nulls, model).Ok? <==>
        Elems(RAndIRequired) <= Elems(t.columns) && "机型" in present && !ModelNotText(t.rows, model)
        && "运营人" in present && Elems(RAndIFinal) <= RAndIHave(present)
  {
    DropPresent(t);
    RAndILookups(PresentColumns(t));
  }

  /** The tag and the renamed columns are neither the model nor the
      operator. */
  lemma RAndILookups(present: set<string>)
    ensures "机型" in present + {"数据类型"} + RAndIDerived(present) <==> "机型" in present
    ensures "运营人" in present + {"数据类型"} + RAndIDerived(present) <==> "运营人" in present
  {
  }

  /** With the model and operator present, the projection succeeds exactly
      when every final column has a source. */
  lemma RAndICovered(present: set<string>)
    requires "机型" in present && "运营人" in present
    ensures Elems(RAndIFinal) <= RAndIHave(present) <==> RAndISupplied(present)
  {
    if RAndISupplied(present) {
      RAndISuppliedCovered(present);
    } else {
      RAndIUnsupplied(present);
    }
  }

  lemma RAndISuppliedCovered(present: set<string>)
    requires RAndISupplied(present)
    ensures Elems(RAndIFinal) <= RAndIHave(present)
  {
    var have := RAndIHave(present);
    assert "日期" in have && "维修ATA" in have && "问题描述" in have && "排故措施" in have;
    assert "数据类型" in have && "拆卸部件件号" in have && "拆卸部件序列号" in have;
    assert "装上部件件号" in have && "装上部件序列号" in have;
  }

  /** Some final column has no non-empty source. */
  lemma RAndIUnsupplied(present: set<string>)
    requires !RAndISupplied(present) && "机型" in present && "运营人" in present
    ensures !(Elems(RAndIFinal) <= RAndIHave(present))
  {
    if "飞机序列号" !in present || "机号" !in present {
      RAndIUnsuppliedOwn(present);
    } else {
      RAndIUnsuppliedRenamed(present);
    }
  }

  lemma RAndIUnsuppliedOwn(present: set<string>)
    requires "飞机序列号" !in present || "机号" !in present
    ensures !(Elems(RAndIFinal) <= RAndIHave(present))
  {
    assert RAndIFinal[6] == "飞机序列号" && RAndIFinal[7] == "机号";
    if "飞机序列号" !in present {
      assert "飞机序列号" !in RAndIHave(present);
    } else {
      assert "机号" !in RAndIHave(present);
    }
  }

  lemma RAndIUnsuppliedRenamed(present: set<string>)
    requires ("拆换日期" !in present && "日期" !in present) || ("ATA" !in present && "维修ATA" !in present)
      || ("拆换原因" !in present && "问题描述" !in present)
      || ("拆卸部件处理措施" !in present && "排故措施" !in present)
    ensures !(Elems(RAndIFinal) <= RAndIHave(present))
  {
    assert RAndIFinal[0] == "日期" && RAndIFinal[1] == "维修ATA";
    assert RAndIFinal[2] == "问题描述" && RAndIFinal[3] == "排故措施";
    if "拆换日期" !in present && "日期" !in present {
      assert "日期" !in RAndIHave(present);
    } else if "ATA" !in present && "维修ATA" !in present {
      assert "维修ATA" !in RAndIHave(present);
    } else if "拆换原因" !in present && "问题描述" !in present {
      assert "问题描述" !in RAndIHave(present);
    } else {
      assert "排故措施" !in RAndIHave(present);
    }
  }

  /** An upload without rows is rejected. */
  lemma RAndIRejectsEmpty(t: Table, generic: Parser, nulls: NullCleaner, model: ColumnType)
    requires |t.rows| == 0
    ensures CleanRAndI(t, generic, nulls, model).Err?
  {
    assert !Present(t, "机型");
    RAndIAccepts(t, generic, nulls, model);
    assert "机型" !in PresentColumns(t);
  }

  /** Every output cell is the null cleaning of the reference reading of
      the upload's own row, with the model column read through the fill
      and `.str`, one output row per upload row. */
  /** The rows of a successful part-replacement cleaning. */
  lemma RAndIOutputRows(t: Table, generic: Parser, nulls: NullCleaner, model: ColumnType)
    requires CleanRAndI(t, generic, nulls, model).Ok?
    ensures CleanRAndI(t, generic, nulls, model).value.rows == RAndIOutput(DropAllNullColumns(t), generic, nulls, model)
  {
    if !ModelNotText(t.rows, model) {
    }
  }

  lemma RAndIRows(t: Table, generic: Parser, nulls: NullCleaner, model: ColumnType)
    requires WellFormed(t) && CleanRAndI(t, generic, nulls, model).Ok?
    ensures var r := CleanRAndI(t, generic, nulls, model).value;
      |r.rows| == |t.rows|
      && forall i, c :: 0 <= i < |r.rows| && c in RAndIFinal ==>
           Get(r.rows[i], c) == nulls(RAndICell(ModelView(t.rows, model)[i], c, PresentColumns(t), generic))
  {
    var r := CleanRAndI(t, generic, nulls, model).value;
    var d := DropAllNullColumns(t);
    var present := Elems(d.columns);
    assert present == PresentColumns(t);
    RAndIOutputRows(t, generic, nulls, model);
    forall i, c | 0 <= i < |r.rows| && c in RAndIFinal
      ensures Get(r.rows[i], c) == nulls(RAndICell(ModelView(t.rows, model)[i], c, present, generic))
    {
      RAndIDropKeeps(t, model, i, c, present, generic);
    }
  }

  /** The model column of a cleaned part-replacement table: the null
      cleaning of the canonical model, or of a missing value when the
      upload's cell is not a string. */
  lemma RAndIModelColumn(t: Table, generic: Parser, nulls: NullCleaner, model: ColumnType)
    requires WellFormed(t) && CleanRAndI(t, generic, nulls, model).Ok?
    ensures var r := CleanRAndI(t, generic, nulls, model).value;
      |r.rows| == |t.rows| &&
      forall i :: 0 <= i < |r.rows| ==>
        Get(r.rows[i], "机型")
          == nulls(if ModelNonText(t.rows, model, i) then Null else CanonicalAircraft(Get(t.rows[i], "机型")))
  {
    var r := CleanRAndI(t, generic, nulls, model).value;
    RAndIRows(t, generic, nulls, model);
    forall i | 0 <= i < |r.rows|
      ensures Get(r.rows[i], "机型")
        == nulls(if ModelNonText(t.rows, model, i) then Null else CanonicalAircraft(Get(t.rows[i], "机型")))
    {
      assert "机型" in RAndIFinal;
      RAndIModelCell(ModelView(t.rows, model)[i], PresentColumns(t), generic);
      ModelViewMeaning(t.rows, model, i);
    }
  }

  lemma RAndIModelCell(row: Row, present: set<string>, generic: Parser)
    ensures RAndICell(row, "机型", present, generic) == ReplaceAircraft(Get(row, "机型"))
  {
    var c := "机型";
    assert |c| == 2 && c != "数据类型" && c != "问题描述" && c != "排故措施" && c != "维修ATA";
    assert c != "日期" by {
      assert c[0] != "日期"[0];
    }
    assert RAndISource(row, c, present) == Get(row, c);
  }

  lemma RAndIDropKeeps(t: Table, model: ColumnType, i: nat, c: string, present: set<string>, generic: Parser)
    requires WellFormed(t) && i < |t.rows|
    ensures RAndICell(ModelView(DropAllNullColumns(t).rows, model)[i], c, present, generic)
      == RAndICell(ModelView(t.rows, model)[i], c, present, generic)
  {
    var dr, tr := ModelView(DropAllNullColumns(t).rows, model)[i], ModelView(t.rows, model)[i];
    ViewDropKeeps(t, model, i, c);
    ViewDropKeeps(t, model, i, "拆换日期");
    ViewDropKeeps(t, model, i, "日期");
    ViewDropKeeps(t, model, i, "ATA");
    ViewDropKeeps(t, model, i, "拆换原因");
    ViewDropKeeps(t, model, i, "拆卸部件处理措施");
    RAndICellAgree(dr, tr, c, present, generic);
  }

  /** A part-replacement output cell depends only on the column itself and
      the sources of the date and the three renames. */
  lemma RAndICellAgree(a: Row, b: Row, c: string, present: set<string>, generic: Parser)
    requires Get(a, c) == Get(b, c) && Get(a, "拆换日期") == Get(b, "拆换日期") && Get(a, "日期") == Get(b, "日期")
    requires Get(a, "ATA") == Get(b, "ATA") && Get(a, "拆换原因") == Get(b, "拆换原因")
    requires Get(a, "拆卸部件处理措施") == Get(b, "拆卸部件处理措施")
    ensures RAndICell(a, c, present, generic) == RAndICell(b, c, present, generic)
  {
  }

  lemma RAndIWellFormed(t: Table, generic: Parser, nulls: NullCleaner, model: ColumnType)
    requires CleanRAndI(t, generic, nulls, model).Ok?
    ensures WellFormed(CleanRAndI(t, generic, nulls, model).value)
  {
    var rows := CleanRAndI(t, generic, nulls, model).value.rows;
    var d := ModelView(DropAllNullColumns(t).rows, model);
    var present := Elems(DropAllNullColumns(t).columns);
    RAndIOutputRows(t, generic, nulls, model);
    forall i | 0 <= i < |rows| ensures rows[i].Keys == Elems(RAndIFinal) {
      assert rows[i] == RAndIRow(d[i], present, generic, nulls);
    }
    SameFinal();
    FaultFinalDistinct();
    RowsWellFormed(RAndIFinal, rows);
  }

  /** The part-replacement cleaning leaves canonical values: the tag, a
      stored date when it comes from `拆换日期`, and canonical model,
      operator, serial and ATA cells. */
  lemma RAndICellClean(row: Row, present: set<string>, generic: Parser)
    ensures RAndICell(row, "数据类型", present, generic) == Str("部件拆换记录")
    ensures "拆换日期" in present ==> StoredDate(RAndICell(row, "日期", present, generic))
  {
  }

  lemma RAndIModelClean(row: Row, present: set<string>, generic: Parser)
    ensures var m := RAndICell(row, "机型", present, generic);
      (m.Str? <==> Get(row, "机型").Str?) && (m.Str? ==> CanonicalAircraft(m) == m)
  {
    RAndIModelCell(row, present, generic);
    FaultModelClean(Get(row, "机型"));
  }

  lemma RAndIOperatorClean(row: Row, present: set<string>, generic: Parser)
    ensures var o := RAndICell(row, "运营人", present, generic); o.Str? && CanonicalOperator(o) == o
  {
    var c := "运营人";
    assert |c| == 3 && c != "数据类型" && c != "日期" && c != "问题描述" && c != "排故措施" && c != "维修ATA";
    assert RAndISource(row, c, present) == Get(row, c);
    FaultOperatorClean(Get(row, c));
  }

  lemma RAndISerialClean(row: Row, present: set<string>, generic: Parser)
    ensures var n := RAndICell(row, "飞机序列号", present, generic);
      n.Str? && AllDigits(n.s) && |n.s| >= 5 && NormaliseSerial(n) == n
  {
    RAndISerialCell(row, present, generic);
    FaultSerialClean(Get(row, "飞机序列号"));
  }

  lemma RAndISerialCell(row: Row, present: set<string>, generic: Parser)
    ensures RAndICell(row, "飞机序列号", present, generic) == FaultTableCell("飞机序列号", Get(row, "飞机序列号"))
  {
    var c := "飞机序列号";
    assert c != "数据类型" && c != "日期" && c != "问题描述" && c != "排故措施";
    assert c != "维修ATA" by {
      assert c[0] != "维修ATA"[0];
    }
    assert RAndISource(row, c, present) == Get(row, c);
  }

  // ---------------------------------------------------------------------------
  // EngineeringProcessor and ManualProcessor

  const EngineeringRequired: seq<string> := ["发布时间", "文件名称", "原因和说明", "文件类型", "MSN有效性", "原文文本"]

  const EngineeringFinal: seq<string> := [
    "发布时间", "文件名称", "原因和说明", "文件类型", "MSN有效性", "原文文本", "机型", "数据类型"]

  const ManualRequired: seq<string> := ["申请时间", "问题描述", "答复详情", "飞机序列号/注册号/运营人"]

  const ManualFinal: seq<string> := [
    "申请时间", "问题描述", "答复详情", "飞机序列号/注册号/运营人", "机型", "数据类型"]

  /** The shape of a document processor: its date column, its final
      columns and its tag. */
  datatype Document = Document(dateColumn: string, final: seq<string>, tag: string)

  const Engineering: Document := Document("发布时间", EngineeringFinal, "工程文件")
  const Manual: Document := Document("申请时间", ManualFinal, "手册")

  /** What a document output column holds: the converted date, the model
      (read through the fill and `.str`, defaulting to "ARJ21" when the
      upload has no model column), the tag, the upload's cell, or "" for a
      final column the upload lacks. */
  function DocumentCell(doc: Document, row: Row, col: string, columns: set<string>, generic: Parser): Cell {
    if col == doc.dateColumn then DateCell(Get(row, col), generic)
    else if col == "机型" then ReplaceAircraft(if "机型" in columns then Get(row, col) else Str("ARJ21"))
    else if col == "数据类型" then Str(doc.tag)
    else if col in columns then Get(row, col)
    else Str("")
  }

  function DocumentRow(doc: Document, row: Row, columns: set<string>, generic: Parser): Row {
    RowOf(doc.final, c => DocumentCell(doc, row, c, columns, generic))
  }

  /** An uploaded model column that keeps another type than `object`
      through the fill; the default model column is text. */
  predicate ModelRefused(t: Table, model: ColumnType) {
    "机型" in t.columns && ModelNotText(t.rows, model)
  }

  /** `EngineeringProcessor.clean_data` and `ManualProcessor.clean_data`:
      the date conversion (a `KeyError` when the date column is missing),
      the model default and cleaning, the tag, the empty fill of missing
      final columns and the projection.  No row is dropped; an upload
      without rows fails at the date conversion, and an uploaded model
      column that is not text after the fill at the model cleaning. */
  function CleanDocument(doc: Document, t: Table, generic: Parser, model: ColumnType): (r: Result<Table, CleanError>)
    ensures r.Ok? ==> r.value.columns == doc.final && |r.value.rows| == |t.rows| > 0
  {
    if doc.dateColumn !in t.columns then Err(KeyError({doc.dateColumn}))
    else if |t.rows| == 0 then Err(NotDatetime(doc.dateColumn))
    else if ModelRefused(t, model) then Err(NotText("机型"))
    else Ok(Table(doc.final, Map(ModelView(t.rows, model), row => DocumentRow(doc, row, Elems(t.columns), generic))))
  }

  /** The document shapes the two processors use: distinct final columns
      that include the date, the model and the tag. */
  predicate DocumentShape(doc: Document) {
    NoDup(doc.final) && doc.dateColumn in doc.final && "机型" in doc.final && "数据类型" in doc.final
    && doc.dateColumn != "机型" && doc.dateColumn != "数据类型"
  }

  lemma DocumentShapes()
    ensures DocumentShape(Engineering) && DocumentShape(Manual)
  {
  }

  /** An engineering or manual upload is cleaned exactly when it has its
      date column, at least one row and no model column that is not text
      after the fill; with the date column but no rows the `.dt` accessor
      raises, and with rows but such a model column the `.str` one. */
  lemma DocumentAccepts(t: Table, generic: Parser, model: ColumnType)
    ensures CleanDocument(Engineering, t, generic, model).Ok? <==>
      "发布时间" in t.columns && |t.rows| > 0 && !ModelRefused(t, model)
    ensures CleanDocument(Manual, t, generic, model).Ok? <==>
      "申请时间" in t.columns && |t.rows| > 0 && !ModelRefused(t, model)
    ensures "发布时间" in t.columns && |t.rows| == 0 ==>
      CleanDocument(Engineering, t, generic, model) == Err(NotDatetime("发布时间"))
    ensures "申请时间" in t.columns && |t.rows| == 0 ==>
      CleanDocument(Manual, t, generic, model) == Err(NotDatetime("申请时间"))
    ensures "发布时间" in t.columns && |t.rows| > 0 && ModelRefused(t, model) ==>
      CleanDocument(Engineering, t, generic, model) == Err(NotText("机型"))
    ensures "申请时间" in t.columns && |t.rows| > 0 && ModelRefused(t, model) ==>
      CleanDocument(Manual, t, generic, model) == Err(NotText("机型"))
    ensures Elems(EngineeringRequired) <= Elems(t.columns) ==>
      (CleanDocument(Engineering, t, generic, model).Ok? <==> |t.rows| > 0 && !ModelRefused(t, model))
    ensures Elems(ManualRequired) <= Elems(t.columns) ==>
      (CleanDocument(Manual, t, generic, model).Ok? <==> |t.rows| > 0 && !ModelRefused(t, model))
  {
    assert "发布时间" in Elems(EngineeringRequired) && "申请时间" in Elems(ManualRequired);
  }

  /** Every document output row is well formed and canonical: the date is
      a stored date, the model a fixed point of the model cleaning unless
      missing and "ARJ21" when the upload has no model column, the tag is
      the processor's, and a final column the upload lacks holds "".  An
      uploaded model is canonicalised, or missing when it is not a
      string. */
  lemma DocumentRows(doc: Document, t: Table, generic: Parser, model: ColumnType)
    requires DocumentShape(doc) && CleanDocument(doc, t, generic, model).Ok?
    ensures WellFormed(CleanDocument(doc, t, generic, model).value)
    ensures forall row :: row in CleanDocument(doc, t, generic, model).value.rows ==>
      DocumentClean(doc, row, Elems(t.columns))
    ensures var rows := CleanDocument(doc, t, generic, model).value.rows;
      "机型" in t.columns ==> forall i :: 0 <= i < |rows| ==>
        Get(rows[i], "机型") == if ModelNonText(t.rows, model, i) then Null else CanonicalAircraft(Get(t.rows[i], "机型"))
  {
    var rows := CleanDocument(doc, t, generic, model).value.rows;
    var cols := Elems(t.columns);
    var view := ModelView(t.rows, model);
    assert rows == Map(view, row => DocumentRow(doc, row, cols, generic));
    forall i | 0 <= i < |rows| ensures rows[i].Keys == Elems(doc.final) && DocumentClean(doc, rows[i], cols) {
      assert rows[i] == DocumentRow(doc, view[i], cols, generic);
      DocumentRowClean(doc, view[i], cols, generic);
    }
    RowsWellFormed(doc.final, rows);
    if "机型" in t.columns {
      forall i | 0 <= i < |rows|
        ensures Get(rows[i], "机型") == if ModelNonText(t.rows, model, i) then Null else CanonicalAircraft(Get(t.rows[i], "机型"))
      {
        assert rows[i] == DocumentRow(doc, view[i], cols, generic);
        DocumentModelCell(doc, view[i], cols, generic);
        ModelViewMeaning(t.rows, model, i);
      }
    }
  }

  lemma DocumentModelCell(doc: Document, input: Row, columns: set<string>, generic: Parser)
    requires DocumentShape(doc) && "机型" in columns
    ensures Get(DocumentRow(doc, input, columns, generic), "机型") == ReplaceAircraft(Get(input, "机型"))
  {
  }

  ghost predicate DocumentClean(doc: Document, row: Row, columns: set<string>) {
    StoredDate(Get(row, doc.dateColumn))
    && (Get(row, "机型").Str? ==> CanonicalAircraft(Get(row, "机型")) == Get(row, "机型"))
    && ("机型" !in columns ==> Get(row, "机型") == Str("ARJ21"))
    && Get(row, "数据类型") == Str(doc.tag)
    && forall c :: c in doc.final && c !in columns && c != doc.dateColumn && c != "机型" && c != "数据类型"
         ==> Get(row, c) == Str("")
  }

  lemma DocumentRowClean(doc: Document, input: Row, columns: set<string>, generic: Parser)
    requires DocumentShape(doc)
    ensures DocumentClean(doc, DocumentRow(doc, input, columns, generic), columns)
  {
    var model := if "机型" in columns then Get(input, "机型") else Str("ARJ21");
    AircraftIdempotent(model);
    if "机型" !in columns {
      AircraftMeaning(Str("ARJ21"));
      TokenFacts();
    }
  }
}
