/** Upload guards and staging file names: the extension allow-list, the
    staged file name, prefix-based cleanup of staged files, and the
    fault-report file-name check. */
module FileHandlers {
  import opened Common
  import opened Sequences

  // ---------------------------------------------------------------------------
  // allowed_file

  /** The text after the last `.`, or `None` when there is no `.`
      (`filename.rsplit(".", 1)[1]` when `"." in filename`). */
  function Extension(s: string): (r: Option<string>)
    ensures r.None? <==> '.' !in s
    ensures r.Some? ==> '.' !in r.value && |r.value| < |s|
    decreases |s|
  {
    if |s| == 0 then None
    else
      var last := s[|s| - 1];
      var init := s[..|s| - 1];
      assert s == init + [last];
      if last == '.' then Some("")
      else match Extension(init)
        case None => None
        case Some(e) => Some(e + [last])
  }

  /** The extension of `stem.ext` is `ext` whenever `ext` has no `.`. */
  lemma {:induction false} ExtensionOf(stem: string, ext: string)
    requires '.' !in ext
    ensures Extension(stem + "." + ext) == Some(ext)
    decreases |ext|
  {
    var s := stem + "." + ext;
    if |ext| > 0 {
      var init := ext[..|ext| - 1];
      assert s[..|s| - 1] == stem + "." + init;
      assert s[|s| - 1] == ext[|ext| - 1];
      ExtensionOf(stem, init);
      assert init + [ext[|ext| - 1]] == ext;
    } else {
      assert s[..|s| - 1] == stem;
    }
  }

  const AllowedExtensions: set<string> := {"xls", "xlsx"}

  /** `allowed_file`.  Lower-casing is ASCII-only here; no other character
      lower-cases to a letter of "xls". */
  predicate AllowedFile(name: string): (r: bool)
    ensures r ==> '.' in name && |name| >= 4
  {
    Extension(name).Some? && Lower(Extension(name).value) in AllowedExtensions
  }

  /** A name is allowed exactly when it has a `.` and the text after its
      last `.`, lower-cased, is "xls" or "xlsx". */
  lemma AllowedFileMeaning(name: string, stem: string, ext: string)
    requires name == stem + "." + ext && '.' !in ext
    ensures AllowedFile(name) <==> Lower(ext) in AllowedExtensions
    ensures '.' in name
  {
    ExtensionOf(stem, ext);
    assert name[|stem|] == '.';
  }

  /** Without a `.` nothing is allowed. */
  lemma NoDotNotAllowed(name: string)
    requires '.' !in name
    ensures !AllowedFile(name)
  {
  }

  lemma AllowedFileExamples()
    ensures !AllowedFile("") && !AllowedFile("test")
    ensures !AllowedFile("a.file.txt")
    ensures AllowedFile("test.XlS") && AllowedFile("a.b.xlsx")
  {
    ExtensionOf("a.file", "txt");
    assert "a.file.txt" == "a.file" + "." + "txt";
    ExtensionOf("test", "XlS");
    assert "test.XlS" == "test" + "." + "XlS";
    assert Lower("XlS") == "xls";
    ExtensionOf("a.b", "xlsx");
    assert "a.b.xlsx" == "a.b" + "." + "xlsx";
    assert Lower("xlsx") == "xlsx";
    assert Lower("txt") == "txt";
  }

  // ---------------------------------------------------------------------------
  // save_temp_file and cleanup_temp_files

  /** The staged file name `"{temp_id}_{name}"`, where the name is the
      caller's custom name when it is non-empty and otherwise the sanitised
      upload name. */
  function StagedName(tempId: string, custom: Option<string>, secured: string): (r: string)
    ensures tempId <= r
    ensures custom.Some? && custom.value != "" ==> r == tempId + "_" + custom.value
    ensures (custom.None? || custom.value == "") ==> r == tempId + "_" + secured
  {
    tempId + "_" + (if custom.Some? && custom.value != "" then custom.value else secured)
  }

  /** What a cleanup leaves: the file names that do not start with the id. */
  function Cleanup(tempId: string, files: seq<string>): (r: seq<string>)
    ensures forall f :: f in r <==> f in files && !(tempId <= f)
    ensures IsSubseq(r, files)
  {
    Filter(files, f => !(tempId <= f))
  }

  /** The cleanup removes exactly the files whose name starts with the id:
      what it removes and what it leaves make up the directory. */
  lemma {:induction false} CleanupPartition(tempId: string, files: seq<string>)
    ensures multiset(Filter(files, f => tempId <= f)) + multiset(Cleanup(tempId, files)) == multiset(files)
    decreases |files|
  {
    if |files| > 0 {
      CleanupPartition(tempId, files[1..]);
      assert files == [files[0]] + files[1..];
    }
  }

  /** Every file staged under an id goes, and a file staged under a
      different id of the same length stays (uuid ids all have 36
      characters, so none is a prefix of another). */
  lemma CleanupStaged(tempId: string, other: string, files: seq<string>, custom: Option<string>, secured: string)
    requires |other| == |tempId| && other != tempId
    ensures StagedName(tempId, custom, secured) !in Cleanup(tempId, files)
    ensures StagedName(other, custom, secured) in files ==> StagedName(other, custom, secured) in Cleanup(tempId, files)
  {
    var mine := StagedName(other, custom, secured);
    assert mine[..|other|] == other;
  }

  // ---------------------------------------------------------------------------
  // FaultReportProcessor.validate_file_name

  /** `os.path.basename`: the text after the last `/`. */
  function Basename(path: string): (r: string)
    ensures '/' !in r
    ensures '/' !in path ==> r == path
    decreases |path|
  {
    if |path| == 0 then ""
    else if path[|path| - 1] == '/' then ""
    else Basename(path[..|path| - 1]) + [path[|path| - 1]]
  }

  /** The text a `$` anchor may stop before: one final line feed is
      allowed after the match. */
  function Anchored(s: string): string {
    if |s| > 0 && s[|s| - 1] == '\n' then s[..|s| - 1] else s
  }

  /** `re.match(r"^\d{8}.*\.xlsx$", s)`: eight digits, a line without line
      breaks, then ".xlsx" at the end (before an optional final line
      feed). */
  predicate DatedWorkbook(s: string) {
    var body := Anchored(s);
    |body| >= 13 && AllDigits(body[..8]) && body[|body| - 5..] == ".xlsx"
    && '\n' !in body[8..|body| - 5]
  }

  const ReportPrefix: string := "故障报告_"

  /** `re.match(r"^故障报告_\d{8}.*\.xlsx$", s)`. */
  predicate ReportWorkbook(s: string) {
    |s| >= |ReportPrefix| && s[..|ReportPrefix|] == ReportPrefix && DatedWorkbook(s[|ReportPrefix|..])
  }

  predicate IsHex(c: char) {
    '0' <= c <= '9' || 'a' <= c <= 'f'
  }

  /** The lower-case uuid shape `8-4-4-4-12`. */
  predicate UuidShaped(s: string) {
    |s| == 36 && s[8] == '-' && s[13] == '-' && s[18] == '-' && s[23] == '-'
    && forall i :: 0 <= i < 36 && i != 8 && i != 13 && i != 18 && i != 23 ==> IsHex(s[i])
  }

  /** The original name of a staged `uuid_name`: the group `(.*)` of the
      uuid pattern, when it matches. */
  function StagedOriginal(s: string): (r: Option<string>)
    ensures r.Some? ==> '\n' !in r.value
  {
    if |s| >= 37 && UuidShaped(s[..36]) && s[36] == '_' && '\n' !in Anchored(s[37..])
    then Some(Anchored(s[37..]))
    else None
  }

  const NameError: string := "文件名格式不正确"

  /** `validate_file_name`: no path is `false`; a report workbook, or a
      staged name whose original is a dated or report workbook, is `true`;
      any other name raises. */
  function ValidateFileName(path: Option<string>): (r: Result<bool, string>)
    ensures path.None? <==> r == Ok(false)
  {
    match path
    case None => Ok(false)
    case Some(p) =>
      var name := Basename(p);
      if ReportWorkbook(name) then Ok(true)
      else match StagedOriginal(name)
        case Some(original) =>
          if DatedWorkbook(original) || ReportWorkbook(original) then Ok(true) else Err(NameError)
        case None => Err(NameError)
  }

  /** A given path is accepted exactly when its base name is a report
      workbook or a staged name of a dated or report workbook; otherwise
      the check raises rather than answering `false`. */
  lemma ValidateFileNameMeaning(p: string)
    ensures ValidateFileName(Some(p)) == Ok(true) <==>
      ReportWorkbook(Basename(p))
      || (StagedOriginal(Basename(p)).Some?
          && (DatedWorkbook(StagedOriginal(Basename(p)).value) || ReportWorkbook(StagedOriginal(Basename(p)).value)))
    ensures ValidateFileName(Some(p)).Ok? ==> ValidateFileName(Some(p)).value
  {
  }

  /** The fault-report route prefixes a dated workbook name with
      "故障报告_", and the staged name then passes the check. */
  lemma PrefixedNameValid(dir: string, name: string)
    requires DatedWorkbook(name) && '/' !in name
    ensures ValidateFileName(Some(dir + "/" + ReportPrefix + name)) == Ok(true)
  {
    var full := ReportPrefix + name;
    BasenameAfterSlash(dir, full);
    assert dir + "/" + ReportPrefix + name == dir + "/" + full;
    assert full[..|ReportPrefix|] == ReportPrefix;
    assert full[|ReportPrefix|..] == name;
    assert ReportWorkbook(full);
  }

  /** A dated workbook staged behind a uuid passes the check too. */
  lemma StagedNameValid(dir: string, name: string, id: string)
    requires DatedWorkbook(name) && '/' !in name && '\n' !in name
    requires UuidShaped(id) && '/' !in id
    ensures ValidateFileName(Some(dir + "/" + id + "_" + name)) == Ok(true)
  {
    var staged := id + "_" + name;
    BasenameAfterSlash(dir, staged);
    assert dir + "/" + id + "_" + name == dir + "/" + staged;
    assert staged[..36] == id && staged[36] == '_' && staged[37..] == name;
    assert StagedOriginal(staged) == Some(name);
  }

  lemma {:induction false} BasenameAfterSlash(dir: string, name: string)
    requires '/' !in name
    ensures Basename(dir + "/" + name) == name
    decreases |name|
  {
    var s := dir + "/" + name;
    if |name| > 0 {
      var init := name[..|name| - 1];
      assert s[..|s| - 1] == dir + "/" + init;
      BasenameAfterSlash(dir, init);
      assert init + [name[|name| - 1]] == name;
    } else {
      assert s[|s| - 1] == '/';
    }
  }
}
