/** The category-independent steps of `analyze_changes`: sanitising the
    header, the default category tag, the empty-text fill of the upload,
    and the merge with the stored rows (concatenation, newest-first sort,
    keep-first deduplication) together with the five preview counts. */
module AnalysisSteps {
  import opened Common
  import opened Sequences
  import opened LexOrder
  import opened Tables
  import opened UnicodeCleaner
  import opened ImportProcessor

  // ---------------------------------------------------------------------------
  // Header sanitising

  /** One sanitised column name. */
  function CleanHeader(name: string): string {
    CleanText(Str(name))
  }

  /** A row re-keyed from the names `from` to the names `to`, position by
      position. */
  function RenameRow(row: Row, from: seq<string>, to: seq<string>): (r: Row)
    requires |from| == |to| && NoDup(to)
    ensures r.Keys == Elems(to)
    ensures forall k :: 0 <= k < |to| ==> r[to[k]] == Get(row, from[k])
  {
    var r := map k | 0 <= k < |to| :: to[k] := Get(row, from[k]);
    assert forall x :: x in Elems(to) ==> x in r by {
      forall x | x in Elems(to) ensures x in r {
        var k :| 0 <= k < |to| && to[k] == x;
      }
    }
    r
  }

  /** `df.columns = [clean_text(c) for c in df.columns]`.  Rows are keyed by
      name, so two headers that sanitise to the same name cannot both be
      kept: that case is `None`. */
  function CleanHeaders(t: Table): (r: Option<Table>)
    ensures r.Some? <==> NoDup(Map(t.columns, CleanHeader))
    ensures r.Some? ==> r.value.columns == Map(t.columns, CleanHeader) && |r.value.rows| == |t.rows|
    ensures r.Some? ==> WellFormed(r.value)
    ensures r.Some? ==> forall i, k :: 0 <= i < |t.rows| && 0 <= k < |t.columns| ==>
      Get(r.value.rows[i], r.value.columns[k]) == Get(t.rows[i], t.columns[k])
  {
    var names := Map(t.columns, CleanHeader);
    if !NoDup(names) then None
    else
      var rows := Map(t.rows, row => RenameRow(row, t.columns, names));
      assert forall row :: row in rows ==> row.Keys == Elems(names);
      Some(Table(names, rows))
  }

  /** Every sanitised header is free of invisible characters and of
      surrounding whitespace, so sanitising the header again changes
      nothing. */
  lemma CleanHeadersIdempotent(t: Table)
    requires CleanHeaders(t).Some?
    ensures forall c :: c in CleanHeaders(t).value.columns ==> Visible(c) && Trimmed(c)
    ensures CleanHeaders(CleanHeaders(t).value) == CleanHeaders(t)
  {
    var u := CleanHeaders(t).value;
    var names := u.columns;
    forall k | 0 <= k < |names| ensures CleanHeader(names[k]) == names[k] {
      CleanIdempotent(Str(t.columns[k]));
    }
    assert Map(names, CleanHeader) == names;
    var v := CleanHeaders(u).value;
    assert v.rows == Map(u.rows, row => RenameRow(row, names, names));
    forall i | 0 <= i < |u.rows| ensures v.rows[i] == u.rows[i] {
      assert u.rows[i] == RenameRow(t.rows[i], t.columns, names);
      RenameAgain(t.rows[i], t.columns, names);
    }
    assert v.rows == u.rows;
  }

  /** Re-keying a re-keyed row by the same names changes nothing. */
  lemma RenameAgain(row: Row, from: seq<string>, to: seq<string>)
    requires |from| == |to| && NoDup(to)
    ensures RenameRow(RenameRow(row, from, to), to, to) == RenameRow(row, from, to)
  {
    var once := RenameRow(row, from, to);
    var twice := RenameRow(once, to, to);
    forall x | x in once ensures twice[x] == once[x] {
      var k :| 0 <= k < |to| && to[k] == x;
    }
  }

  // ---------------------------------------------------------------------------
  // The default category tag

  const TypeColumn: string := "数据类型"

  /** Whether the cleaned upload lacks a usable tag: no tag column, or one
      that is missing on every row. */
  predicate Untagged(t: Table) {
    TypeColumn !in t.columns || AllNull(t, TypeColumn)
  }

  /** The tag is set to the store's default only when it is absent or
      missing throughout; otherwise the table is left alone. */
  function TagDefault(t: Table, key: string): (r: Table)
    ensures |r.rows| == |t.rows|
    ensures WellFormed(t) ==> WellFormed(r)
    ensures Untagged(t) ==> forall i :: 0 <= i < |r.rows| ==> Get(r.rows[i], TypeColumn) == Str(DefaultTypeTag(key))
    ensures Untagged(t) ==> forall i, c :: 0 <= i < |r.rows| && c != TypeColumn ==> Get(r.rows[i], c) == Get(t.rows[i], c)
    ensures !Untagged(t) ==> r == t
  {
    if Untagged(t) then ConstColumn(t, TypeColumn, Str(DefaultTypeTag(key))) else t
  }

  /** After the default the table has a tag column that is present on some
      row whenever there is a row, and applying the default again changes
      nothing. */
  lemma TagDefaultSettles(t: Table, key: string)
    ensures TypeColumn in TagDefault(t, key).columns
    ensures |t.rows| > 0 ==> !Untagged(TagDefault(t, key))
    ensures TagDefault(TagDefault(t, key), key) == TagDefault(t, key)
  {
    var r := TagDefault(t, key);
    if |t.rows| > 0 && Untagged(t) {
      assert Get(r.rows[0], TypeColumn) == Str(DefaultTypeTag(key));
    }
  }

  // ---------------------------------------------------------------------------
  // fillna('') on the upload's text columns

  /** Whether a column of the upload is filled: a final column present in
      the upload whose dtype is `object`. */
  predicate Filled(t: Table, final: seq<string>, isObject: string -> bool, c: string) {
    c in final && c in t.columns && isObject(c)
  }

  function FillCell(c: Cell): (r: Cell)
    ensures r.Str? && (c.Str? ==> r == c)
  {
    if c.Null? then Str("") else c
  }

  function FillRow(row: Row, t: Table, final: seq<string>, isObject: string -> bool): (r: Row)
    ensures r.Keys == row.Keys
  {
    map c | c in row :: if Filled(t, final, isObject, c) then FillCell(row[c]) else row[c]
  }

  /** Missing cells of the filled columns become "" before the merge; every
      other cell is kept. */
  function FillBlanks(t: Table, final: seq<string>, isObject: string -> bool): (r: Table)
    ensures r.columns == t.columns && |r.rows| == |t.rows|
    ensures WellFormed(t) ==> WellFormed(r)
    ensures forall i, c :: 0 <= i < |t.rows| && c in t.rows[i] ==> c in r.rows[i]
  {
    Table(t.columns, Map(t.rows, row => FillRow(row, t, final, isObject)))
  }

  /** In a well-formed upload the filled columns hold no missing cell
      afterwards, a filled cell that was present is unchanged, and every
      other column is untouched. */
  lemma FillBlanksMeaning(t: Table, final: seq<string>, isObject: string -> bool)
    requires WellFormed(t)
    ensures var r := FillBlanks(t, final, isObject);
      forall i, c :: 0 <= i < |t.rows| ==>
        (Filled(t, final, isObject, c) ==>
           Get(r.rows[i], c).Str? && (Get(t.rows[i], c).Str? ==> Get(r.rows[i], c) == Get(t.rows[i], c)))
        && (!Filled(t, final, isObject, c) ==> Get(r.rows[i], c) == Get(t.rows[i], c))
  {
    var r := FillBlanks(t, final, isObject);
    forall i, c | 0 <= i < |t.rows|
      ensures (Filled(t, final, isObject, c) ==>
                 Get(r.rows[i], c).Str? && (Get(t.rows[i], c).Str? ==> Get(r.rows[i], c) == Get(t.rows[i], c)))
        && (!Filled(t, final, isObject, c) ==> Get(r.rows[i], c) == Get(t.rows[i], c))
    {
      assert t.rows[i] in t.rows;
      assert r.rows[i] == FillRow(t.rows[i], t, final, isObject);
    }
  }

  // ---------------------------------------------------------------------------
  // Ordering: sort_values(date_column, ascending=False)

  /** `a` may come before `b` in a descending sort of one column: present
      values from largest to smallest, missing values last. */
  predicate NewerOrSame(a: Cell, b: Cell) {
    match a
    case Str(s) => (match b case Str(u) => LexLe(u, s) case Null => true)
    case Null => b.Null?
  }

  function NewerFirst(col: string): (Row, Row) -> bool {
    (x: Row, y: Row) => NewerOrSame(Get(x, col), Get(y, col))
  }

  /** The descending order is a total preorder: any two rows compare, and
      comparison chains. */
  lemma NewerFirstPreorder(col: string)
    ensures TotalPreorder(NewerFirst(col))
  {
    var before := NewerFirst(col);
    forall x: Row, y: Row ensures before(x, y) || before(y, x) {
      if Get(x, col).Str? && Get(y, col).Str? {
        LexTotal(Get(x, col).s, Get(y, col).s);
      }
    }
    forall x: Row, y: Row, z: Row | before(x, y) && before(y, z) ensures before(x, z) {
      if Get(x, col).Str? && Get(y, col).Str? && Get(z, col).Str? {
        LexTrans(Get(z, col).s, Get(y, col).s, Get(x, col).s);
      }
    }
  }

  // ---------------------------------------------------------------------------
  // pd.concat([new, existing], ignore_index=True)

  /** The columns of both frames, the upload's first. */
  function UnionColumns(a: seq<string>, b: seq<string>): (r: seq<string>)
    ensures Elems(r) == Elems(a) + Elems(b)
    ensures NoDup(a) && NoDup(b) ==> NoDup(r)
    ensures |a| <= |r| && r[..|a|] == a
  {
    var extra := Filter(b, c => c !in a);
    assert forall c :: c in b ==> c in a || c in extra;
    assert NoDup(b) ==> NoDup(extra) by {
      if NoDup(b) {
        FilterNoDup(b, c => c !in a);
      }
    }
    assert NoDup(a) && NoDup(b) ==> NoDup(a + extra) by {
      if NoDup(a) && NoDup(b) {
        forall i, j | 0 <= i < j < |a + extra| ensures (a + extra)[i] != (a + extra)[j] {
          if j >= |a| && i < |a| {
            assert (a + extra)[j] in extra;
          }
        }
      }
    }
    a + extra
  }

  /** A row padded to the given columns: absent cells become missing. */
  function Align(row: Row, cols: set<string>): (r: Row)
    ensures r.Keys == cols
    ensures forall c :: c in cols ==> r[c] == Get(row, c)
  {
    map c | c in cols :: Get(row, c)
  }

  /** The upload's rows and then the stored rows, padded to the columns of
      both. */
  function Concat(upload: Table, stored: Table): (r: Table)
    ensures r.columns == UnionColumns(upload.columns, stored.columns)
    ensures |r.rows| == |upload.rows| + |stored.rows|
  {
    var cols := UnionColumns(upload.columns, stored.columns);
    Table(cols, Map(upload.rows, row => Align(row, Elems(cols))) + Map(stored.rows, row => Align(row, Elems(cols))))
  }

  /** Concatenation loses no cell: each row of either well-formed frame
      reads the same under every column, and the stacked frame is well
      formed. */
  lemma ConcatKeepsCells(upload: Table, stored: Table)
    requires WellFormed(upload) && WellFormed(stored)
    ensures var r := Concat(upload, stored);
      WellFormed(r)
      && (forall i, c :: 0 <= i < |upload.rows| ==> Get(r.rows[i], c) == Get(upload.rows[i], c))
      && (forall i, c :: 0 <= i < |stored.rows| ==> Get(r.rows[|upload.rows| + i], c) == Get(stored.rows[i], c))
  {
    var r := Concat(upload, stored);
    var cols := Elems(r.columns);
    AlignKeeps(upload, cols);
    AlignKeeps(stored, cols);
    assert r.rows == Map(upload.rows, row => Align(row, cols)) + Map(stored.rows, row => Align(row, cols));
    forall row | row in r.rows ensures row.Keys == cols {
      var k :| 0 <= k < |r.rows| && r.rows[k] == row;
    }
  }

  /** Padding the rows of a well-formed frame to a superset of its columns
      keeps every cell. */
  lemma AlignKeeps(t: Table, cols: set<string>)
    requires WellFormed(t)
    ensures forall i, c :: 0 <= i < |t.rows| ==>
      (Get(Map(t.rows, row => Align(row, cols))[i], c) == Get(t.rows[i], c) || (c !in cols && c in t.rows[i]))
  {
    forall i, c | 0 <= i < |t.rows|
      ensures (Get(Map(t.rows, row => Align(row, cols))[i], c) == Get(t.rows[i], c) || (c !in cols && c in t.rows[i]))
    {
      assert t.rows[i] in t.rows;
    }
  }

  // ---------------------------------------------------------------------------
  // Sort and deduplicate

  /** Survivors of a keep-first deduplication keep the order of the input,
      so deduplicating a sorted sequence leaves it sorted. */
  lemma DistinctOrdered<T(!new)>(s: seq<T>, before: (T, T) -> bool)
    requires Ordered(s, before)
    ensures Ordered(Distinct(s), before)
  {
    DistinctKeepsFirst(s);
    var r := Distinct(s);
    forall i, j | 0 <= i < j < |r| ensures before(r[i], r[j]) {
      assert r[i] in Elems(r) && r[j] in Elems(r);
      var fi := FirstIndex(s, r[i]);
      var fj := FirstIndex(s, r[j]);
      assert s[fi] == r[i] && s[fj] == r[j];
    }
  }

  /** `concat`, `sort_values(date, ascending=False)` and
      `drop_duplicates(keep="first")`. */
  function Merge(upload: Table, stored: Table, dateColumn: string): (r: Table)
    ensures r.columns == Concat(upload, stored).columns
  {
    var c := Concat(upload, stored);
    Table(c.columns, Distinct(SortBy(c.rows, NewerFirst(dateColumn))))
  }

  /** The merged rows are exactly the distinct rows of upload and store
      together, each once, newest first; there are never more of them than
      the two inputs hold. */
  lemma MergeMeaning(upload: Table, stored: Table, dateColumn: string)
    ensures var all := Concat(upload, stored).rows; var r := Merge(upload, stored, dateColumn);
      NoDup(r.rows) && Elems(r.rows) == Elems(all)
      && Ordered(r.rows, NewerFirst(dateColumn))
      && |r.rows| == |Elems(all)| <= |upload.rows| + |stored.rows|
  {
    var all := Concat(upload, stored).rows;
    var sorted := SortBy(all, NewerFirst(dateColumn));
    NewerFirstPreorder(dateColumn);
    SortOrdered(all, NewerFirst(dateColumn));
    DistinctOrdered(sorted, NewerFirst(dateColumn));
    PermutationElems(sorted, all);
    DistinctCount(sorted);
    ElemsCard(all);
  }

  /** How many rows survive does not depend on how the sort orders rows
      with equal dates: deduplicating any arrangement of the stacked rows
      keeps the same rows. */
  lemma MergeIgnoresOrder(upload: Table, stored: Table, dateColumn: string, arranged: seq<Row>)
    requires multiset(arranged) == multiset(Concat(upload, stored).rows)
    ensures Elems(Distinct(arranged)) == Elems(Merge(upload, stored, dateColumn).rows)
    ensures |Distinct(arranged)| == |Merge(upload, stored, dateColumn).rows|
  {
    MergeMeaning(upload, stored, dateColumn);
    PermutationElems(arranged, Concat(upload, stored).rows);
    DistinctCount(arranged);
  }

  /** Merging two well-formed frames gives a well-formed frame. */
  lemma MergeWellFormed(upload: Table, stored: Table, dateColumn: string)
    requires WellFormed(upload) && WellFormed(stored)
    ensures WellFormed(Merge(upload, stored, dateColumn))
  {
    ConcatKeepsCells(upload, stored);
    MergeMeaning(upload, stored, dateColumn);
    var c := Concat(upload, stored);
    var r := Merge(upload, stored, dateColumn);
    forall row | row in r.rows ensures row.Keys == Elems(r.columns) {
      assert row in Elems(r.rows);
    }
  }

  // ---------------------------------------------------------------------------
  // The preview counts

  datatype Counts = Counts(original: int, uploaded: int, duplicate: int, added: int, final: int)

  /** The counts of a merge: rows already stored, rows uploaded, rows after
      the merge, the change in stored rows (`final - original`) and the
      uploaded rows that did not add one (`uploaded - added`). */
  function Tally(stored: Table, upload: Table, merged: Table): (r: Counts)
    ensures r.original == |stored.rows| && r.uploaded == |upload.rows| && r.final == |merged.rows|
  {
    var added := |merged.rows| - |stored.rows|;
    Counts(|stored.rows|, |upload.rows|, |upload.rows| - added, added, |merged.rows|)
  }

  /** The duplicate count is the number of stacked rows deduplication
      dropped, so it is never negative and never more than the upload; the
      new count is never more than the upload, and it is not negative when
      the store held no two equal rows. */
  lemma TallyMeaning(upload: Table, stored: Table, dateColumn: string)
    requires WellFormed(stored)
    ensures var merged := Merge(upload, stored, dateColumn); var n := Tally(stored, upload, merged);
      n.duplicate + n.added == n.uploaded
      && n.duplicate == |Concat(upload, stored).rows| - |merged.rows|
      && 0 <= n.duplicate && n.added <= n.uploaded
      && (NoDup(stored.rows) ==> 0 <= n.added)
  {
    var c := Concat(upload, stored);
    var merged := Merge(upload, stored, dateColumn);
    MergeMeaning(upload, stored, dateColumn);
    if NoDup(stored.rows) {
      var tail := c.rows[|upload.rows|..];
      AlignInjective(stored, Elems(c.columns));
      assert tail == Map(stored.rows, row => Align(row, Elems(c.columns)));
      NoDupCard(tail);
      assert Elems(tail) <= Elems(c.rows);
      assert |Elems(tail)| <= |Elems(c.rows)| by {
        SubsetCard(Elems(tail), Elems(c.rows));
      }
    }
  }

  /** Padding the rows of a well-formed frame to more columns keeps
      distinct rows distinct. */
  lemma AlignInjective(t: Table, cols: set<string>)
    requires WellFormed(t) && NoDup(t.rows) && Elems(t.columns) <= cols
    ensures NoDup(Map(t.rows, row => Align(row, cols)))
  {
    var m := Map(t.rows, row => Align(row, cols));
    forall i, j | 0 <= i < j < |m| ensures m[i] != m[j] {
      assert t.rows[i] in t.rows && t.rows[j] in t.rows;
      AlignEqual(t.rows[i], t.rows[j], cols);
    }
  }

  /** Two rows with the same columns, all inside `cols`, are equal when
      their padded forms are. */
  lemma AlignEqual(a: Row, b: Row, cols: set<string>)
    requires a.Keys == b.Keys && a.Keys <= cols
    ensures Align(a, cols) == Align(b, cols) ==> a == b
  {
    if Align(a, cols) == Align(b, cols) {
      forall c | c in a ensures a[c] == b[c] {
        assert Align(a, cols)[c] == Align(b, cols)[c];
      }
    }
  }

  lemma SubsetCard<T>(a: set<T>, b: set<T>)
    requires a <= b
    ensures |a| <= |b|
  {
    assert b == a + (b - a);
  }

  /** A store that already holds two equal rows can report a negative new
      count: storing one row twice and uploading nothing leaves one row. */
  lemma NegativeAddedExample()
    ensures var row: Row := map["日期" := Str("2024-01-01")];
      var stored := Table(["日期"], [row, row]);
      var upload := Table(["日期"], []);
      Tally(stored, upload, Merge(upload, stored, "日期")).added == -1
  {
    var row: Row := map["日期" := Str("2024-01-01")];
    var stored := Table(["日期"], [row, row]);
    var upload := Table(["日期"], []);
    var c := Concat(upload, stored);
    assert c.rows[0] == c.rows[1];
    MergeMeaning(upload, stored, "日期");
    assert Elems(c.rows) == {c.rows[0]};
  }
}
