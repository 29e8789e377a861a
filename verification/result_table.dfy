/** The result table of the search page: which rows a click selects, the
    guard in front of the analysis page, the CSV export of the selected
    rows, and the headers shown for a data source. */
module ResultTable {
  import opened Common
  import opened Sequences

  /** A JavaScript value read from a result row: falsy (`undefined`,
      `null`, `0`, `false`, `""`, `NaN`), or truthy with the text its
      `toString()` gives. */
  datatype Value = Falsy | Truthy(text: string)

  /** A result row: column name to value; an absent column reads as
      `undefined`. */
  type Record = map<string, Value>

  function Read(row: Record, col: string): Value {
    if col in row then row[col] else Falsy
  }

  /** `(value || '').toString()` */
  function CellText(v: Value): string {
    match v
    case Falsy => ""
    case Truthy(t) => t
  }

  // ---------------------------------------------------------------------------
  // handleRowClick

  /** `Array.prototype.indexOf`: the first position of `x`, or -1. */
  function IndexOf<T(==)>(s: seq<T>, x: T): (i: int)
    ensures -1 <= i < |s|
    ensures i == -1 <==> x !in s
    ensures i >= 0 ==> s[i] == x && forall j :: 0 <= j < i ==> s[j] != x
  {
    if x in s then FirstIndex(s, x) else -1
  }

  /** A click on `row`: its selection and the row clicked last change.  A
      click in the check-box column changes nothing; a shift-click after
      an earlier click selects every row from the earlier one to this one,
      inclusive; any other click toggles the row. */
  function RowClick<T(!new)>(results: seq<T>, selected: set<T>, last: Option<T>, row: T,
                           onCheckbox: bool, shift: bool): (r: (set<T>, Option<T>))
    ensures onCheckbox ==> r == (selected, last)
    ensures !onCheckbox ==> r.1 == Some(row)
    ensures !onCheckbox && shift && last.Some? && row in results && last.value in results ==>
      var p, q := IndexOf(results, row), IndexOf(results, last.value);
      row in r.0 && last.value in r.0
      && forall x :: x in r.0 <==> x in selected || exists i :: (p <= i <= q || q <= i <= p) && results[i] == x
    ensures !onCheckbox && (!shift || last.None?) ==>
      (row in r.0 <==> row !in selected) && forall x :: x != row ==> (x in r.0 <==> x in selected)
  {
    if onCheckbox then (selected, last)
    else if shift && last.Some? then
      var p, q := IndexOf(results, row), IndexOf(results, last.value);
      var lo, hi := if p < q then p else q, if p < q then q else p;
      (selected + set i | lo <= i <= hi && 0 <= i < |results| :: results[i], Some(row))
    else if row in selected then (selected - {row}, Some(row))
    else (selected + {row}, Some(row))
  }

  /** A shift-click range does not depend on which end was clicked first. */
  lemma RangeSymmetric<T(!new)>(results: seq<T>, selected: set<T>, a: T, b: T)
    requires a in results && b in results
    ensures RowClick(results, selected, Some(a), b, false, true).0
         == RowClick(results, selected, Some(b), a, false, true).0
  {
  }

  /** Two plain clicks on the same row give the selection back. */
  lemma ClickTwice<T(!new)>(results: seq<T>, selected: set<T>, last: Option<T>, row: T)
    ensures var once := RowClick(results, selected, last, row, false, false);
      RowClick(results, once.0, once.1, row, false, false).0 == selected
  {
  }

  // ---------------------------------------------------------------------------
  // analyzeSelectedData

  const MaxAnalysisRows: nat := 300
  const NothingToAnalyse := "请先选择要分析的数据"
  const TooManyToAnalyse := "为确保分析页面性能，建议选择不超过300条数据"

  /** What the analysis page is handed. */
  datatype Analysis<T> = Analysis(data: seq<T>, columns: seq<string>, dataSource: string)

  /** The analysis page opens on the selection unless it is empty or
      longer than 300 rows; the refusal is a warning. */
  function AnalyzeSelected<T>(selected: seq<T>, columns: seq<string>, source: string): (r: Result<Analysis<T>, string>)
    ensures r.Ok? <==> 0 < |selected| <= MaxAnalysisRows
    ensures r.Ok? ==> r.value == Analysis(selected, columns, source)
    ensures r.Err? ==> r.error == (if |selected| == 0 then NothingToAnalyse else TooManyToAnalyse)
  {
    if |selected| == 0 then Err(NothingToAnalyse)
    else if |selected| > MaxAnalysisRows then Err(TooManyToAnalyse)
    else Ok(Analysis(selected, columns, source))
  }

  // ---------------------------------------------------------------------------
  // exportToCsv

  const Bom := "\U{FEFF}"
  const NothingToExport := "请先选择要导出的数据"

  /** `replace(/"/g, '""')`: every quote doubled. */
  function Escape(s: string): (r: string)
    ensures |r| >= |s|
    ensures forall c :: c != '"' ==> (c in r <==> c in s)
    ensures '"' in r <==> '"' in s
    decreases |s|
  {
    if |s| == 0 then ""
    else (if s[0] == '"' then "\"\"" else [s[0]]) + Escape(s[1..])
  }

  /** The quote doubling is the global replace of the quote character. */
  lemma {:induction false} EscapeIsReplace(s: string)
    ensures Escape(s) == ReplaceAll(s, "\"", "\"\"")
    decreases |s|
  {
    if |s| > 0 {
      EscapeIsReplace(s[1..]);
      assert "\"" <= s <==> s[0] == '"';
    }
  }

  /** A cell needs quotes when it holds a comma, a line feed or a quote. */
  predicate NeedsQuotes(s: string) {
    ',' in s || '\n' in s || '"' in s
  }

  /** One exported cell: the quotes doubled, then the whole quoted when it
      holds a comma, a line feed or a quote.  A carriage return alone does
      not cause quoting. */
  function EncodeField(s: string): (r: string)
    ensures NeedsQuotes(s) ==> |r| >= 2 && r[0] == '"' && r[|r| - 1] == '"'
    ensures !NeedsQuotes(s) ==> r == s
  {
    var e := Escape(s);
    if NeedsQuotes(e) then "\"" + e + "\"" else EscapeNoQuote(s); e
  }

  lemma {:induction false} EscapeNoQuote(s: string)
    ensures '"' !in s ==> Escape(s) == s
    decreases |s|
  {
    if |s| > 0 {
      EscapeNoQuote(s[1..]);
    }
  }

  /** The text of each visible column's cell in a row. */
  function RowTexts(row: Record, cols: seq<string>): (r: seq<string>)
    ensures |r| == |cols|
  {
    Map(cols, c => CellText(Read(row, c)))
  }

  /** One exported line: the encoded cells joined by commas, then a line
      feed. */
  function EncodeLine(cells: seq<string>): (r: string)
    ensures |r| > 0 && r[|r| - 1] == '\n'
  {
    Join(Map(cells, EncodeField), ",") + "\n"
  }

  /** The lines of the selected rows. */
  function EncodeRows(rows: seq<Record>, cols: seq<string>): (r: string)
    ensures |rows| > 0 ==> |r| > 0 && r[|r| - 1] == '\n'
    decreases |rows|
  {
    if |rows| == 0 then ""
    else
      var line, more := EncodeLine(RowTexts(rows[0], cols)), EncodeRows(rows[1..], cols);
      assert (line + more)[|line + more| - 1] == if |more| == 0 then line[|line| - 1] else more[|more| - 1];
      line + more
  }

  /** The exported file: a byte-order mark, the column names joined by
      commas and not escaped, then one line per selected row.  Nothing is
      exported without a selection. */
  function ExportCsv(selected: seq<Record>, cols: seq<string>): (r: Result<string, string>)
    ensures r.Err? <==> |selected| == 0
    ensures r.Err? ==> r.error == NothingToExport
    ensures r.Ok? ==> Bom <= r.value && r.value[|r.value| - 1] == '\n'
  {
    if |selected| == 0 then Err(NothingToExport)
    else
      var head, body := Bom + Join(cols, ",") + "\n", EncodeRows(selected, cols);
      assert (head + body)[|head + body| - 1] == body[|body| - 1];
      assert Bom <= head + body by {
        assert (head + body)[..1] == Bom;
      }
      Ok(head + body)
  }

  // ---------------------------------------------------------------------------
  // Reading the file back (section 2 of RFC 4180)

  /** The rest of a quoted field after its opening quote: `""` stands for
      one quote and a lone quote closes the field.  Gives the field and the
      text after the closing quote. */
  function ReadQuoted(s: string): (r: Option<(string, string)>)
    ensures r.Some? ==> |r.value.1| < |s|
    decreases |s|
  {
    if |s| == 0 then None
    else if s[0] == '"' then
      if |s| > 1 && s[1] == '"' then
        match ReadQuoted(s[2..])
        case None => None
        case Some(p) => Some(("\"" + p.0, p.1))
      else Some(("", s[1..]))
    else
      match ReadQuoted(s[1..])
      case None => None
      case Some(p) => Some(([s[0]] + p.0, p.1))
  }

  predicate Separator(c: char) {
    c == ',' || c == '\n' || c == '\r'
  }

  /** An unquoted field runs to the next comma or line break. */
  function ReadPlain(s: string): (r: (string, string))
    ensures r.0 + r.1 == s
    ensures |r.1| > 0 ==> Separator(r.1[0])
    decreases |s|
  {
    if |s| == 0 || Separator(s[0]) then ("", s)
    else
      var p := ReadPlain(s[1..]);
      ([s[0]] + p.0, p.1)
  }

  function ReadField(s: string): (r: Option<(string, string)>)
    ensures r.Some? ==> |r.value.1| <= |s|
  {
    if |s| > 0 && s[0] == '"' then ReadQuoted(s[1..]) else Some(ReadPlain(s))
  }

  /** One record: fields separated by commas up to a line break (LF or
      CRLF).  Gives the fields and the text after the line break. */
  function ReadRecord(s: string): (r: Option<(seq<string>, string)>)
    ensures r.Some? ==> |r.value.1| < |s|
    decreases |s|
  {
    match ReadField(s)
    case None => None
    case Some(p) =>
      var rest := p.1;
      if |rest| > 0 && rest[0] == ',' then
        match ReadRecord(rest[1..])
        case None => None
        case Some(q) => Some(([p.0] + q.0, q.1))
      else if |rest| > 0 && rest[0] == '\n' then Some(([p.0], rest[1..]))
      else if |rest| > 1 && rest[0] == '\r' && rest[1] == '\n' then Some(([p.0], rest[2..]))
      else None
  }

  /** All records of a text that ends with a line break. */
  function ReadRecords(s: string): (r: Option<seq<seq<string>>>)
    decreases |s|
  {
    if |s| == 0 then Some([])
    else
      match ReadRecord(s)
      case None => None
      case Some(p) =>
        match ReadRecords(p.1)
        case None => None
        case Some(more) => Some([p.0] + more)
  }

  /** Text the reader keeps intact: no carriage return. */
  predicate CarriageFree(s: string) {
    '\r' !in s
  }

  /** A field followed by a comma, a line feed or the end. */
  predicate FieldEnd(rest: string) {
    |rest| == 0 || rest[0] == ',' || rest[0] == '\n'
  }

  /** The closing quote is found after the doubled quotes. */
  lemma {:induction false} ReadEscaped(s: string, rest: string)
    requires |rest| == 0 || rest[0] != '"'
    ensures ReadQuoted(Escape(s) + "\"" + rest) == Some((s, rest))
    decreases |s|
  {
    if |s| > 0 {
      ReadEscaped(s[1..], rest);
      var tail := Escape(s[1..]) + "\"" + rest;
      if s[0] == '"' {
        assert Escape(s) + "\"" + rest == "\"\"" + tail;
        assert ("\"\"" + tail)[2..] == tail;
      } else {
        assert Escape(s) + "\"" + rest == [s[0]] + tail;
        assert ([s[0]] + tail)[1..] == tail;
      }
      assert [s[0]] + s[1..] == s;
    } else {
      assert Escape(s) + "\"" + rest == "\"" + rest;
    }
  }

  /** A field without separators or quotes is read up to the separator. */
  lemma {:induction false} ReadPlainField(s: string, rest: string)
    requires forall i :: 0 <= i < |s| ==> !Separator(s[i])
    requires |rest| == 0 || Separator(rest[0])
    ensures ReadPlain(s + rest) == (s, rest)
    decreases |s|
  {
    if |s| > 0 {
      ReadPlainField(s[1..], rest);
      assert (s + rest)[1..] == s[1..] + rest;
      assert [s[0]] + s[1..] == s;
    } else {
      assert s + rest == rest;
    }
  }

  /** Every carriage-return-free cell is read back from its encoding. */
  lemma FieldRoundTrip(s: string, rest: string)
    requires CarriageFree(s) && FieldEnd(rest)
    ensures ReadField(EncodeField(s) + rest) == Some((s, rest))
  {
    var e := Escape(s);
    if NeedsQuotes(e) {
      ReadEscaped(s, rest);
      assert EncodeField(s) + rest == "\"" + (e + "\"" + rest);
    } else {
      assert forall i :: 0 <= i < |s| ==> s[i] in s;
      ReadPlainField(s, rest);
      if |s| > 0 {
        assert s[0] != '"';
      }
    }
  }

  /** A field followed by a comma continues the record. */
  lemma ReadComma(s: string, f: string, rest: string)
    requires ReadField(s) == Some((f, "," + rest))
    ensures ReadRecord(rest).Some? ==> ReadRecord(s) == Some(([f] + ReadRecord(rest).value.0, ReadRecord(rest).value.1))
  {
    assert ("," + rest)[1..] == rest;
  }

  /** A field followed by a line feed ends the record. */
  lemma ReadLineFeed(s: string, f: string, rest: string)
    requires ReadField(s) == Some((f, "\n" + rest))
    ensures ReadRecord(s) == Some(([f], rest))
  {
    assert ("\n" + rest)[1..] == rest;
  }

  /** A line of carriage-return-free cells is read back as those cells. */
  lemma {:induction false} LineRoundTrip(cells: seq<string>, tail: string)
    requires |cells| > 0
    requires forall i :: 0 <= i < |cells| ==> CarriageFree(cells[i])
    ensures ReadRecord(EncodeLine(cells) + tail) == Some((cells, tail))
    decreases |cells|
  {
    if |cells| == 1 {
      assert cells == [cells[0]];
      LineOne(cells[0], tail);
    } else {
      var more := EncodeLine(cells[1..]) + tail;
      LineCons(cells, tail);
      FieldRoundTrip(cells[0], "," + more);
      LineRoundTrip(cells[1..], tail);
      ReadComma(EncodeField(cells[0]) + ("," + more), cells[0], more);
      assert [cells[0]] + cells[1..] == cells;
    }
  }

  lemma LineOne(cell: string, tail: string)
    requires CarriageFree(cell)
    ensures ReadRecord(EncodeLine([cell]) + tail) == Some(([cell], tail))
  {
    var first := EncodeField(cell);
    assert Map([cell], EncodeField) == [first];
    assert EncodeLine([cell]) + tail == first + ("\n" + tail);
    FieldRoundTrip(cell, "\n" + tail);
    ReadLineFeed(first + ("\n" + tail), cell, tail);
  }

  /** A line of several cells is the first cell, a comma and the line of
      the others. */
  lemma LineCons(cells: seq<string>, tail: string)
    requires |cells| > 1
    ensures EncodeLine(cells) + tail == EncodeField(cells[0]) + ("," + (EncodeLine(cells[1..]) + tail))
  {
    var enc := Map(cells, EncodeField);
    var first, others := EncodeField(cells[0]), Join(Map(cells[1..], EncodeField), ",");
    assert enc[1..] == Map(cells[1..], EncodeField);
    assert Join(enc, ",") == first + "," + others;
    assert EncodeLine(cells[1..]) == others + "\n";
    calc {
      EncodeLine(cells) + tail;
      (first + "," + others) + "\n" + tail;
      first + ("," + (others + "\n" + tail));
    }
  }

  /** The cells of every row, row by row. */
  function Texts(rows: seq<Record>, cols: seq<string>): (r: seq<seq<string>>)
    ensures |r| == |rows| && forall k :: 0 <= k < |rows| ==> r[k] == RowTexts(rows[k], cols)
    decreases |rows|
  {
    if |rows| == 0 then [] else [RowTexts(rows[0], cols)] + Texts(rows[1..], cols)
  }

  /** A column name the header line carries unescaped. */
  predicate PlainName(c: string) {
    forall i :: 0 <= i < |c| ==> !Separator(c[i]) && c[i] != '"'
  }

  lemma PlainNameEncodes(c: string)
    requires PlainName(c)
    ensures EncodeField(c) == c && CarriageFree(c)
  {
    assert !NeedsQuotes(c) && CarriageFree(c) by {
      assert forall ch :: ch in c ==> exists i :: 0 <= i < |c| && c[i] == ch;
    }
  }

  /** Plain column names are their own encoding. */
  lemma HeaderLine(cols: seq<string>)
    requires forall i :: 0 <= i < |cols| ==> PlainName(cols[i])
    ensures EncodeLine(cols) == Join(cols, ",") + "\n"
    ensures forall i :: 0 <= i < |cols| ==> CarriageFree(cols[i])
  {
    assert Map(cols, EncodeField) == cols by {
      forall i | 0 <= i < |cols| ensures EncodeField(cols[i]) == cols[i] {
        PlainNameEncodes(cols[i]);
      }
    }
    forall i | 0 <= i < |cols| ensures CarriageFree(cols[i]) {
      PlainNameEncodes(cols[i]);
    }
  }

  /** Whether no cell that a row exports holds a carriage return. */
  predicate RowCarriageFree(row: Record, cols: seq<string>) {
    forall c :: c in cols ==> CarriageFree(CellText(Read(row, c)))
  }

  /** A record read off the front is followed by the records after it. */
  lemma ReadRecordsStep(s: string, f: seq<string>, rest: string)
    requires ReadRecord(s) == Some((f, rest))
    ensures ReadRecords(rest).Some? ==> ReadRecords(s) == Some([f] + ReadRecords(rest).value)
  {
  }

  /** Each exported row reads back as its cells. */
  lemma {:induction false} RowsRoundTrip(rows: seq<Record>, cols: seq<string>)
    requires |cols| > 0
    requires forall k :: 0 <= k < |rows| ==> RowCarriageFree(rows[k], cols)
    ensures ReadRecords(EncodeRows(rows, cols)) == Some(Texts(rows, cols))
    decreases |rows|
  {
    if |rows| > 0 {
      var texts := RowTexts(rows[0], cols);
      assert RowCarriageFree(rows[0], cols);
      forall i | 0 <= i < |texts| ensures CarriageFree(texts[i]) {
        assert cols[i] in cols;
      }
      var more := EncodeRows(rows[1..], cols);
      LineRoundTrip(texts, more);
      RowsRoundTrip(rows[1..], cols);
      assert EncodeRows(rows, cols) == EncodeLine(texts) + more;
      ReadRecordsStep(EncodeLine(texts) + more, texts, more);
    }
  }

  /** The exported file, after its byte-order mark, reads back as the
      header and the text of every exported cell, row by row, when the
      column names are plain and no cell holds a carriage return. */
  lemma ExportRoundTrip(selected: seq<Record>, cols: seq<string>)
    requires |selected| > 0 && |cols| > 0
    requires forall i :: 0 <= i < |cols| ==> PlainName(cols[i])
    requires forall k :: 0 <= k < |selected| ==> RowCarriageFree(selected[k], cols)
    ensures ExportCsv(selected, cols).Ok?
    ensures var out := ExportCsv(selected, cols).value;
      out[..1] == Bom && ReadRecords(out[1..]) == Some([cols] + Texts(selected, cols))
  {
    var out := ExportCsv(selected, cols).value;
    var body := EncodeRows(selected, cols);
    HeaderLine(cols);
    LineRoundTrip(cols, body);
    RowsRoundTrip(selected, cols);
    ReadRecordsStep(EncodeLine(cols) + body, cols, body);
    AfterMark(selected, cols);
  }

  /** After the byte-order mark come the header line and the row lines. */
  lemma AfterMark(selected: seq<Record>, cols: seq<string>)
    requires |selected| > 0
    ensures ExportCsv(selected, cols).Ok?
    ensures var out := ExportCsv(selected, cols).value;
      out[..1] == Bom && out[1..] == Join(cols, ",") + "\n" + EncodeRows(selected, cols)
  {
    var head, body := Join(cols, ",") + "\n", EncodeRows(selected, cols);
    assert Bom + Join(cols, ",") + "\n" + body == Bom + (head + body);
  }

  /** A lone carriage return breaks the reading: the exporter leaves such a
      cell unquoted, and the reader takes the carriage return for the end
      of the record. */
  lemma CarriageReturnUnread()
    ensures ReadRecord(EncodeLine(["a\rb"])) == None
  {
    var cell := "a\rb";
    assert !NeedsQuotes(cell) by {
      assert forall ch :: ch in cell ==> ch == 'a' || ch == '\r' || ch == 'b';
    }
    EscapeNoQuote(cell);
    assert Map([cell], EncodeField) == [cell];
    var line := EncodeLine([cell]);
    assert line == "a" + "\rb\n";
    ReadPlainField("a", "\rb\n");
    assert ReadField(line) == Some(("a", "\rb\n"));
  }

  // ---------------------------------------------------------------------------
  // Table headers

  const SerialColumn := "序号"
  const SimilarityColumn := "相似度"

  /** `getDefaultHeaders`: the fixed headers of the four data sources, and
      none for any other. */
  function DefaultHeaders(source: string): (r: seq<string>)
    ensures r != [] <==> source in {"case", "engineering", "manual", "faults"}
    ensures r != [] ==> r[0] == SerialColumn && SimilarityColumn !in r
  {
    if source == "case" then
      ["序号", "故障发生日期", "申请时间", "标题", "版本号", "问题描述", "答复详情",
       "客户期望", "ATA", "机号/MSN", "运营人", "服务请求单编号", "机型", "数据类型"]
    else if source == "engineering" then
      ["序号", "发布时间", "文件名称", "原因和说明", "文件类型", "MSN有效性", "原文文本", "机型", "数据类型"]
    else if source == "manual" then
      ["序号", "申请时间", "问题描述", "答复详情", "飞机序列号/注册号/运营人", "机型", "数据类型"]
    else if source == "faults" then
      ["序号", "日期", "问题描述", "排故措施", "运营人", "飞机序列号", "机号", "机型", "数据类型"]
    else []
  }

  /** `getHeadersForDataSource`: the configured columns of the source with
      the serial-number column put in front when they lack it; the default
      headers for a source without configured columns. */
  function HeadersFor(source: string, configured: map<string, seq<string>>): (r: seq<string>)
    ensures source in configured ==> SerialColumn in r
    ensures source in configured ==>
      (multiset(r) == multiset(configured[source])
        + (if SerialColumn in configured[source] then multiset{} else multiset{SerialColumn}))
    ensures source in configured && SerialColumn !in configured[source] ==> r[0] == SerialColumn && r[1..] == configured[source]
    ensures source !in configured ==> r == DefaultHeaders(source)
  {
    if source in configured then
      var cols := configured[source];
      if SerialColumn !in cols then [SerialColumn] + cols else cols
    else DefaultHeaders(source)
  }

  /** Headers once derived are derived again unchanged: the serial-number
      column is added at most once. */
  lemma HeadersStable(source: string, configured: map<string, seq<string>>)
    requires source in configured
    ensures HeadersFor(source, configured[source := HeadersFor(source, configured)]) == HeadersFor(source, configured)
  {
  }

  /** `initTableHeaders`: no headers without a data source; otherwise the
      source's headers, with the similarity column added at the end in
      similarity mode when it is missing. */
  function InitTableHeaders(source: string, configured: map<string, seq<string>>, similarity: bool): (r: seq<string>)
    ensures source == "" ==> r == []
    ensures source != "" && similarity ==> SimilarityColumn in r
    ensures source != "" ==> HeadersFor(source, configured) <= r && |r| <= |HeadersFor(source, configured)| + 1
    ensures source != "" && !similarity ==> r == HeadersFor(source, configured)
    ensures source != "" && SimilarityColumn in HeadersFor(source, configured) ==> r == HeadersFor(source, configured)
  {
    if source == "" then []
    else
      var headers := HeadersFor(source, configured);
      if similarity && SimilarityColumn !in headers then headers + [SimilarityColumn] else headers
  }
}
