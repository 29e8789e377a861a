/** The text sanitiser applied to uploaded spreadsheets: deletion of
    bidirectional controls, C0/C1 control characters and zero-width
    characters, trimming of surrounding whitespace, and the pollution
    statistics that decide whether a whole upload is sanitised. */
module UnicodeCleaner {
  import opened Common
  import opened Sequences
  import opened Tables

  /** The three families of invisible characters, in the order they are
      removed and reported. */
  datatype CharClass = Bidirectional | Control | ZeroWidth

  predicate InClass(c: char, k: CharClass) {
    match k
    case Bidirectional =>
      c == '\U{200E}' || c == '\U{200F}' || ('\U{202A}' <= c <= '\U{202E}')
      || ('\U{2066}' <= c <= '\U{2069}') || c == '\U{061C}'
    case Control =>
      ('\U{0000}' <= c <= '\U{0008}') || c == '\U{000B}' || c == '\U{000C}'
      || ('\U{000E}' <= c <= '\U{001F}') || ('\U{007F}' <= c <= '\U{009F}')
      || c == '\U{FFFE}' || c == '\U{FFFF}'
    case ZeroWidth =>
      c == '\U{200B}' || c == '\U{200C}' || c == '\U{200D}' || c == '\U{2060}'
      || c == '\U{FEFF}' || c == '\U{00AD}' || c == '\U{180E}'
  }

  /** A character that sanitising deletes wherever it occurs. */
  predicate Removable(c: char) {
    InClass(c, Bidirectional) || InClass(c, Control) || InClass(c, ZeroWidth)
  }

  /** Text without any character sanitising deletes. */
  predicate Visible(s: string) {
    forall i :: 0 <= i < |s| ==> !Removable(s[i])
  }

  lemma VisibleSubseq(a: string, b: string)
    requires IsSubseq(a, b) && Visible(b)
    ensures Visible(a)
  {
    SubseqElems(a, b);
    forall i | 0 <= i < |a| ensures !Removable(a[i]) {
      assert a[i] in b;
    }
  }

  /** The report name of each family. */
  function ClassName(k: CharClass): string {
    match k
    case Bidirectional => "bidirectional_control_chars"
    case Control => "control_chars"
    case ZeroWidth => "zero_width_chars"
  }

  /** `pattern.sub('', text)` for one family: every member deleted, every
      other character kept in order. */
  function RemoveClass(s: string, k: CharClass): (r: string)
    ensures forall i :: 0 <= i < |r| ==> !InClass(r[i], k)
    ensures IsSubseq(r, s)
    decreases |s|
  {
    if |s| == 0 then []
    else if InClass(s[0], k) then RemoveClass(s[1..], k) else [s[0]] + RemoveClass(s[1..], k)
  }

  lemma {:induction false} RemoveClassNoop(s: string, k: CharClass)
    requires forall i :: 0 <= i < |s| ==> !InClass(s[i], k)
    ensures RemoveClass(s, k) == s
    decreases |s|
  {
    if |s| > 0 {
      RemoveClassNoop(s[1..], k);
    }
  }

  lemma {:induction false} RemoveClassAppend(a: string, b: string, k: CharClass)
    ensures RemoveClass(a + b, k) == RemoveClass(a, k) + RemoveClass(b, k)
    decreases |a|
  {
    if |a| > 0 {
      assert (a + b)[1..] == a[1..] + b;
      RemoveClassAppend(a[1..], b, k);
    } else {
      assert a + b == b;
    }
  }

  lemma {:induction false} RemoveClassAll(s: string, k: CharClass)
    requires forall i :: 0 <= i < |s| ==> InClass(s[i], k)
    ensures RemoveClass(s, k) == []
    decreases |s|
  {
    if |s| > 0 {
      RemoveClassAll(s[1..], k);
    }
  }

  /** The three deletions in the order `clean_text` applies them. */
  function RemoveInvisible(s: string): (r: string)
    ensures Visible(r)
    ensures IsSubseq(r, s)
  {
    var a := RemoveClass(s, Bidirectional);
    var b := RemoveClass(a, Control);
    var c := RemoveClass(b, ZeroWidth);
    InvisibleGone(s, a, b, c);
    c
  }

  /** After the three deletions in turn no removable character is left, and
      what is left is a subsequence of the input. */
  lemma InvisibleGone(s: string, a: string, b: string, c: string)
    requires a == RemoveClass(s, Bidirectional) && b == RemoveClass(a, Control) && c == RemoveClass(b, ZeroWidth)
    ensures Visible(c)
    ensures IsSubseq(c, s)
  {
    SubseqElems(c, b);
    SubseqElems(b, a);
    forall i | 0 <= i < |c| ensures !Removable(c[i]) {
      assert c[i] in b;
      var j :| 0 <= j < |b| && b[j] == c[i];
      assert c[i] in a;
      var m :| 0 <= m < |a| && a[m] == c[i];
    }
    SubseqTrans(c, b, a);
    SubseqTrans(c, a, s);
  }

  lemma RemoveInvisibleNoop(s: string)
    requires Visible(s)
    ensures RemoveInvisible(s) == s
  {
    RemoveClassNoop(s, Bidirectional);
    RemoveClassNoop(s, Control);
    RemoveClassNoop(s, ZeroWidth);
  }

  lemma RemoveInvisibleAppend(a: string, b: string)
    ensures RemoveInvisible(a + b) == RemoveInvisible(a) + RemoveInvisible(b)
  {
    RemoveClassAppend(a, b, Bidirectional);
    RemoveClassAppend(RemoveClass(a, Bidirectional), RemoveClass(b, Bidirectional), Control);
    RemoveClassAppend(RemoveClass(RemoveClass(a, Bidirectional), Control),
                      RemoveClass(RemoveClass(b, Bidirectional), Control), ZeroWidth);
  }

  lemma RemoveInvisibleAll(s: string)
    requires forall i :: 0 <= i < |s| ==> Removable(s[i])
    ensures RemoveInvisible(s) == []
  {
    var a := RemoveClass(s, Bidirectional);
    var b := RemoveClass(a, Control);
    SubseqElems(a, s);
    forall i | 0 <= i < |a| ensures InClass(a[i], Control) || InClass(a[i], ZeroWidth) {
      assert a[i] in s;
    }
    RemoveClassAllBut(a, Control, ZeroWidth);
    SubseqElems(b, a);
    forall i | 0 <= i < |b| ensures InClass(b[i], ZeroWidth) {
      assert b[i] in a;
    }
    RemoveClassAll(b, ZeroWidth);
  }

  lemma RemoveClassAllBut(s: string, k: CharClass, other: CharClass)
    requires forall i :: 0 <= i < |s| ==> InClass(s[i], k) || InClass(s[i], other)
    ensures forall i :: 0 <= i < |RemoveClass(s, k)| ==> InClass(RemoveClass(s, k)[i], other)
  {
    var r := RemoveClass(s, k);
    SubseqElems(r, s);
    forall i | 0 <= i < |r| ensures InClass(r[i], other) {
      assert r[i] in s;
    }
  }

  /** `clean_text`: a missing value becomes empty text; otherwise invisible
      characters are deleted and surrounding whitespace trimmed.  Tabs, line
      feeds and carriage returns inside the text survive. */
  function CleanText(c: Cell): (r: string)
    ensures Visible(r)
    ensures Trimmed(r)
    ensures c.Str? ==> IsSubseq(r, c.s) && |r| <= |c.s|
    ensures c.Null? ==> r == ""
  {
    match c
    case Null => ""
    case Str(s) =>
      var d := RemoveInvisible(s);
      StripSubseq(d);
      VisibleSubseq(Strip(d), d);
      SubseqTrans(Strip(d), d, s);
      SubseqLength(Strip(d), s);
      Strip(d)
  }

  lemma StripSubseq(d: string)
    ensures IsSubseq(Strip(d), d)
  {
    var k := |d| - |StripLeft(d)|;
    InfixSubseq(d, k, |Strip(d)|);
  }

  /** Text that sanitising leaves unchanged is exactly text without invisible
      characters and without surrounding whitespace. */
  lemma CleanFixpoint(s: string)
    ensures CleanText(Str(s)) == s <==> Visible(s) && Trimmed(s)
  {
    if Visible(s) && Trimmed(s) {
      RemoveInvisibleNoop(s);
      StripTrimmed(s);
    }
  }

  /** Sanitising twice is sanitising once. */
  lemma CleanIdempotent(c: Cell)
    ensures CleanText(Str(CleanText(c))) == CleanText(c)
  {
    CleanFixpoint(CleanText(c));
  }

  /** Invisible characters between two runs of visible text disappear and
      the runs are joined, whatever their length. */
  lemma CleanDropsEmbedded(a: string, junk: string, b: string)
    requires Visible(a) && Visible(b)
    requires forall i :: 0 <= i < |junk| ==> Removable(junk[i])
    requires Trimmed(a + b)
    ensures CleanText(Str(a + junk + b)) == a + b
  {
    RemoveInvisibleAppend(a + junk, b);
    RemoveInvisibleAppend(a, junk);
    RemoveInvisibleNoop(a);
    RemoveInvisibleNoop(b);
    RemoveInvisibleAll(junk);
    assert RemoveInvisible(a + junk + b) == a + b;
    StripTrimmed(a + b);
  }

  // ---------------------------------------------------------------------------
  // Pollution detection

  /** `pattern.search(text)` for one family. */
  predicate HasClass(s: string, k: CharClass)
    decreases |s|
  {
    |s| > 0 && (InClass(s[0], k) || HasClass(s[1..], k))
  }

  predicate Polluted(s: string) {
    HasClass(s, Bidirectional) || HasClass(s, Control) || HasClass(s, ZeroWidth)
  }

  /** The search finds a family exactly when one of its members occurs. */
  lemma {:induction false} HasClassIff(s: string, k: CharClass)
    ensures HasClass(s, k) <==> exists i :: 0 <= i < |s| && InClass(s[i], k)
    decreases |s|
  {
    if |s| > 0 {
      HasClassIff(s[1..], k);
      if exists i :: 0 <= i < |s[1..]| && InClass(s[1..][i], k) {
        var i :| 0 <= i < |s[1..]| && InClass(s[1..][i], k);
        assert InClass(s[i + 1], k);
      }
      if exists i :: 0 <= i < |s| && InClass(s[i], k) {
        var i :| 0 <= i < |s| && InClass(s[i], k);
        if i > 0 {
          assert InClass(s[1..][i - 1], k);
        }
      }
    }
  }

  /** Polluted text is exactly text that is not visible. */
  lemma PollutedIffNotVisible(s: string)
    ensures Polluted(s) <==> !Visible(s)
  {
    HasClassIff(s, Bidirectional);
    HasClassIff(s, Control);
    HasClassIff(s, ZeroWidth);
  }

  /** The result of `detect_unicode_pollution`; `lengths` (original and
      sanitised length) is present only for text input. */
  datatype Pollution = Pollution(hasPollution: bool, types: seq<CharClass>, lengths: Option<(nat, nat)>)

  /** `detect_unicode_pollution`: which families occur, reported in the fixed
      order bidirectional, control, zero-width. */
  function DetectPollution(v: Cell): (r: Pollution)
    ensures v.Null? ==> r == Pollution(false, [], None)
    ensures v.Str? ==> forall k :: k in r.types <==> HasClass(v.s, k)
    ensures r.hasPollution <==> |r.types| > 0
    ensures v.Str? ==> r.lengths == Some((|v.s|, |CleanText(v)|))
  {
    match v
    case Null => Pollution(false, [], None)
    case Str(s) =>
      var b, c, z := HasClass(s, Bidirectional), HasClass(s, Control), HasClass(s, ZeroWidth);
      var types := (if b then [Bidirectional] else []) + (if c then [Control] else [])
        + (if z then [ZeroWidth] else []);
      assert forall k :: k in types <==> HasClass(s, k) by {
        forall k ensures k in types <==> HasClass(s, k) {
          assert k == Bidirectional || k == Control || k == ZeroWidth;
        }
      }
      Pollution(|types| > 0, types, Some((|s|, |CleanText(v)|)))
  }

  /** Families are reported at most once each, in the fixed order. */
  lemma DetectPollutionOrder(v: Cell)
    ensures IsSubseq(DetectPollution(v).types, [Bidirectional, Control, ZeroWidth])
    ensures v.Str? ==> DetectPollution(v).lengths.value.1 <= DetectPollution(v).lengths.value.0
  {
  }

  /** A text is reported as polluted exactly when sanitising would delete
      something from it. */
  lemma PollutedIffChanged(s: string)
    requires Trimmed(s)
    ensures DetectPollution(Str(s)).hasPollution <==> CleanText(Str(s)) != s
  {
    CleanFixpoint(s);
    PollutedIffNotVisible(s);
    var r := DetectPollution(Str(s));
    if Polluted(s) {
      var k :| k in AllClasses && HasClass(s, k);
      assert k in r.types;
    }
  }

  const AllClasses: set<CharClass> := {Bidirectional, Control, ZeroWidth}

  /** How many cells contain a member of a family. */
  function ClassCount(cells: seq<string>, k: CharClass): nat {
    |Filter(cells, x => HasClass(x, k))|
  }

  /** Statistics of `analyze_file_pollution`. */
  datatype Summary = Summary(totalCells: nat, pollutedCells: nat, details: map<CharClass, nat>,
                             rate: real, needsCleaning: bool)

  /** The present cells of the text columns, column by column. */
  function TextCells(cols: seq<string>, rows: seq<Row>, isText: string -> bool): seq<string>
    decreases |cols|
  {
    if |cols| == 0 then []
    else ColumnCells(cols[0], rows, isText) + TextCells(cols[1..], rows, isText)
  }

  function ColumnCells(c: string, rows: seq<Row>, isText: string -> bool): seq<string>
    decreases |rows|
  {
    if !isText(c) || |rows| == 0 then []
    else (match Get(rows[0], c) case Str(s) => [s] case Null => []) + ColumnCells(c, rows[1..], isText)
  }

  /** Every counted cell is a present cell of a text column. */
  lemma {:induction false} TextCellsFrom(cols: seq<string>, rows: seq<Row>, isText: string -> bool, x: string)
    requires x in TextCells(cols, rows, isText)
    ensures exists c, row :: c in cols && isText(c) && row in rows && Get(row, c) == Str(x)
    decreases |cols|
  {
    if x in ColumnCells(cols[0], rows, isText) {
      var row := ColumnCellsFrom(cols[0], rows, isText, x);
      assert cols[0] in cols;
    } else {
      TextCellsFrom(cols[1..], rows, isText, x);
      var c, row :| c in cols[1..] && isText(c) && row in rows && Get(row, c) == Str(x);
      assert c in cols;
    }
  }

  lemma {:induction false} ColumnCellsFrom(c: string, rows: seq<Row>, isText: string -> bool, x: string) returns (row: Row)
    requires x in ColumnCells(c, rows, isText)
    ensures isText(c) && row in rows && Get(row, c) == Str(x)
    decreases |rows|
  {
    if Get(rows[0], c) == Str(x) {
      row := rows[0];
    } else {
      row := ColumnCellsFrom(c, rows[1..], isText, x);
    }
  }

  /** `analyze_file_pollution`: counts present cells of the text columns and
      the polluted ones among them; `details` lists only families that occur. */
  function AnalyzePollution(t: Table, isText: string -> bool): (r: Summary)
    ensures r.pollutedCells <= r.totalCells
    ensures r.needsCleaning <==> r.pollutedCells > 0
    ensures forall k :: k in r.details ==> 0 < r.details[k] <= r.pollutedCells
    ensures r.rate == Rate(r.pollutedCells, r.totalCells)
  {
    var cells := TextCells(t.columns, t.rows, isText);
    var polluted := Filter(cells, Polluted);
    var perClass := map k | k in AllClasses && ClassCount(cells, k) > 0 :: ClassCount(cells, k);
    assert forall k :: k in perClass ==> perClass[k] <= |polluted| by {
      forall k | k in perClass ensures perClass[k] <= |polluted| {
        FilterMonotone(cells, x => HasClass(x, k), Polluted);
      }
    }
    assert |polluted| > 0 ==> polluted[0] in polluted;
    Summary(|cells|, |polluted|, perClass, Rate(|polluted|, |cells|), |polluted| > 0)
  }

  /** The polluted share of the counted cells; zero when nothing was counted. */
  function Rate(part: nat, whole: nat): (r: real)
    requires part <= whole
    ensures 0.0 <= r <= 1.0
    ensures whole == 0 ==> r == 0.0
    ensures whole > 0 ==> r * whole as real == part as real
  {
    if whole == 0 then 0.0 else part as real / whole as real
  }

  /** Cleaning is advised exactly when some counted cell is polluted. */
  lemma NeedsCleaningIffPolluted(t: Table, isText: string -> bool)
    ensures AnalyzePollution(t, isText).needsCleaning <==>
      exists x :: x in TextCells(t.columns, t.rows, isText) && Polluted(x)
  {
    var cells := TextCells(t.columns, t.rows, isText);
    var polluted := Filter(cells, Polluted);
    if |polluted| > 0 {
      assert polluted[0] in polluted;
    }
    if exists x :: x in cells && Polluted(x) {
      var x :| x in cells && Polluted(x);
      assert x in polluted;
    }
  }

  lemma {:induction false} FilterMonotone<T>(s: seq<T>, p: T -> bool, q: T -> bool)
    requires forall x :: p(x) ==> q(x)
    ensures |Filter(s, p)| <= |Filter(s, q)|
    decreases |s|
  {
    if |s| > 0 {
      FilterMonotone(s[1..], p, q);
    }
  }

  // ---------------------------------------------------------------------------
  // Whole-table sanitising

  /** `clean_dataframe`: an empty frame is returned as is; otherwise the
      named columns that exist, or every text column when none are named,
      are sanitised cell by cell. */
  function CleanDataFrame(t: Table, columns: Option<seq<string>>, isText: string -> bool): (r: Table)
    ensures r.columns == t.columns && |r.rows| == |t.rows|
    ensures !IsEmpty(t) ==> forall i, c :: 0 <= i < |t.rows| && c in t.rows[i] ==>
      c in r.rows[i] && r.rows[i][c] == (if Targeted(t, columns, isText, c) then Str(CleanText(t.rows[i][c])) else t.rows[i][c])
    ensures IsEmpty(t) ==> r == t
    ensures WellFormed(t) ==> WellFormed(r)
  {
    if IsEmpty(t) then t
    else
      var rows := seq(|t.rows|, i requires 0 <= i < |t.rows| => CleanRow(t, columns, isText, t.rows[i]));
      Table(t.columns, rows)
  }

  /** Whether `clean_dataframe` rewrites a column. */
  predicate Targeted(t: Table, columns: Option<seq<string>>, isText: string -> bool, c: string) {
    c in t.columns && match columns case None => isText(c) case Some(cs) => c in cs
  }

  function CleanRow(t: Table, columns: Option<seq<string>>, isText: string -> bool, row: Row): (r: Row)
    ensures r.Keys == row.Keys
  {
    map c | c in row :: if Targeted(t, columns, isText, c) then Str(CleanText(row[c])) else row[c]
  }

  /** Sanitising every text column leaves nothing to report. */
  lemma CleanDataFrameClearsPollution(t: Table, isText: string -> bool)
    requires WellFormed(t)
    ensures !AnalyzePollution(CleanDataFrame(t, None, isText), isText).needsCleaning
  {
    var r := CleanDataFrame(t, None, isText);
    var cells := TextCells(r.columns, r.rows, isText);
    forall x | x in cells ensures !Polluted(x) {
      TextCellsFrom(r.columns, r.rows, isText, x);
      var c, row :| c in r.columns && isText(c) && row in r.rows && Get(row, c) == Str(x);
      if !IsEmpty(t) {
        var i :| 0 <= i < |r.rows| && r.rows[i] == row;
        assert t.rows[i] in t.rows;
        assert c in t.rows[i];
        assert x == CleanText(t.rows[i][c]);
        PollutedIffNotVisible(x);
      } else {
        assert false;
      }
    }
    NeedsCleaningIffPolluted(r, isText);
  }

  /** Sanitising a whole table twice is sanitising it once. */
  lemma CleanDataFrameIdempotent(t: Table, columns: Option<seq<string>>, isText: string -> bool)
    ensures CleanDataFrame(CleanDataFrame(t, columns, isText), columns, isText) == CleanDataFrame(t, columns, isText)
  {
    var r := CleanDataFrame(t, columns, isText);
    if !IsEmpty(t) {
      var rr := CleanDataFrame(r, columns, isText);
      forall i | 0 <= i < |r.rows| ensures rr.rows[i] == r.rows[i] {
        forall c | c in r.rows[i] ensures rr.rows[i][c] == r.rows[i][c] {
          if Targeted(r, columns, isText, c) {
            CleanIdempotent(t.rows[i][c]);
          }
        }
      }
    }
  }
}
