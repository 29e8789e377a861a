/** Data frames as the pipeline uses them: an ordered list of column names
    and a list of rows, each row mapping every column to a cell. */
module Tables {
  import opened Common
  import opened Sequences

  datatype Table = Table(columns: seq<string>, rows: seq<Row>)

  /** Column names are distinct and every row has exactly the table's columns. */
  predicate WellFormed(t: Table) {
    NoDup(t.columns) && forall row :: row in t.rows ==> row.Keys == Elems(t.columns)
  }

  /** pandas' `df.empty`: no rows or no columns. */
  predicate IsEmpty(t: Table) {
    |t.rows| == 0 || |t.columns| == 0
  }

  /** The values of one column, top to bottom. */
  function Column(t: Table, name: string): (r: seq<Cell>)
    ensures |r| == |t.rows|
  {
    seq(|t.rows|, i requires 0 <= i < |t.rows| => Get(t.rows[i], name))
  }

  /** `Series.isna().all()`: true for a column of missing cells, and for any
      column of a table without rows. */
  predicate AllNull(t: Table, name: string) {
    forall i :: 0 <= i < |t.rows| ==> Get(t.rows[i], name) == Null
  }

  /** The required names a table lacks. */
  function Missing(t: Table, required: seq<string>): set<string> {
    Elems(required) - Elems(t.columns)
  }

  /** `df[name] = f(row)`: replaces the column, or appends it at the end. */
  function SetColumn(t: Table, name: string, f: Row -> Cell): (r: Table)
    ensures r.columns == if name in t.columns then t.columns else t.columns + [name]
    ensures Elems(r.columns) == Elems(t.columns) + {name}
    ensures |r.rows| == |t.rows|
    ensures forall i :: 0 <= i < |t.rows| ==> r.rows[i] == t.rows[i][name := f(t.rows[i])]
    ensures WellFormed(t) ==> WellFormed(r)
  {
    assert Elems(t.columns + [name]) == Elems(t.columns) + {name};
    Table(if name in t.columns then t.columns else t.columns + [name],
          seq(|t.rows|, i requires 0 <= i < |t.rows| => t.rows[i][name := f(t.rows[i])]))
  }

  /** `df[name] = df[name].map(f)`. */
  function MapColumn(t: Table, name: string, f: Cell -> Cell): (r: Table)
    ensures r.columns == if name in t.columns then t.columns else t.columns + [name]
    ensures |r.rows| == |t.rows|
    ensures forall i :: 0 <= i < |t.rows| ==> r.rows[i] == t.rows[i][name := f(Get(t.rows[i], name))]
    ensures WellFormed(t) ==> WellFormed(r)
  {
    SetColumn(t, name, row => f(Get(row, name)))
  }

  /** `df[dst] = df[src]`. */
  function CopyColumn(t: Table, src: string, dst: string): (r: Table)
    ensures WellFormed(t) ==> WellFormed(r)
  {
    SetColumn(t, dst, row => Get(row, src))
  }

  /** `df[name] = value` for every row. */
  function ConstColumn(t: Table, name: string, value: Cell): (r: Table)
    ensures WellFormed(t) ==> WellFormed(r)
    ensures forall i :: 0 <= i < |r.rows| ==> Get(r.rows[i], name) == value
  {
    SetColumn(t, name, row => value)
  }

  /** `df[cols]`: the listed columns in the listed order; every kept row
      holds a cell under each listed column. */
  function Project(t: Table, cols: seq<string>): (r: Table)
    requires Elems(cols) <= Elems(t.columns)
    ensures r.columns == cols && |r.rows| == |t.rows|
    ensures forall i :: 0 <= i < |r.rows| ==> r.rows[i].Keys == Elems(cols)
    ensures forall i, c :: 0 <= i < |r.rows| && c in cols ==> Get(r.rows[i], c) == Get(t.rows[i], c)
    ensures NoDup(cols) ==> WellFormed(r)
  {
    Table(cols, seq(|t.rows|, i requires 0 <= i < |t.rows| => map k | k in Elems(cols) :: Get(t.rows[i], k)))
  }

  /** Dropping all-missing columns changes no cell a row reads: a dropped
      column held only missing cells. */
  lemma DropKeepsCells(t: Table, i: nat, c: string)
    requires WellFormed(t) && i < |t.rows|
    ensures Get(DropAllNullColumns(t).rows[i], c) == Get(t.rows[i], c)
  {
    var r := DropAllNullColumns(t);
    if c !in r.columns && c in t.columns {
      assert Get(t.rows[i], c) == Null;
    }
  }

  /** `df[mask]`: the rows the predicate accepts, in order. */
  function FilterRows(t: Table, keep: Row -> bool): (r: Table)
    ensures r.columns == t.columns
    ensures WellFormed(t) ==> WellFormed(r)
  {
    var rs := Filter(t.rows, keep);
    assert forall row :: row in rs ==> row in t.rows;
    Table(t.columns, rs)
  }

  /** `df.dropna(axis=1, how="all")`: drops every column without a present
      cell; on a table without rows that is every column. */
  function DropAllNullColumns(t: Table): (r: Table)
    ensures forall c :: c in r.columns <==> c in t.columns && !AllNull(t, c)
    ensures |r.rows| == |t.rows|
    ensures WellFormed(t) ==> WellFormed(r)
  {
    var keep := Filter(t.columns, c => !AllNull(t, c));
    assert WellFormed(t) ==> NoDup(keep) by {
      if WellFormed(t) {
        FilterNoDup(t.columns, c => !AllNull(t, c));
      }
    }
    Project(t, keep)
  }

  lemma {:induction false} FilterNoDup<T>(s: seq<T>, keep: T -> bool)
    requires NoDup(s)
    ensures NoDup(Filter(s, keep))
    decreases |s|
  {
    if |s| > 0 {
      assert NoDup(s[1..]) by {
        forall i, j | 0 <= i < j < |s[1..]| ensures s[1..][i] != s[1..][j] {
          assert s[1..][i] == s[i + 1] && s[1..][j] == s[j + 1];
        }
      }
      FilterNoDup(s[1..], keep);
      assert s[0] !in s[1..];
    }
  }

  /** Of a sequence of column lookups, the first whose column the table
      lacks: the lookup that raises `KeyError`. */
  function FirstAbsent(names: seq<string>, columns: seq<string>): (r: Option<string>)
    ensures r.None? <==> Elems(names) <= Elems(columns)
    ensures r.Some? ==> r.value in names && r.value !in columns
    decreases |names|
  {
    if |names| == 0 then None
    else if names[0] !in columns then
      assert names[0] in Elems(names);
      Some(names[0])
    else
      var r := FirstAbsent(names[1..], columns);
      assert Elems(names) == {names[0]} + Elems(names[1..]);
      r
  }

  /** A column the table has and that holds at least one value: what
      `dropna(axis=1, how="all")` keeps. */
  predicate Present(t: Table, name: string) {
    name in t.columns && !AllNull(t, name)
  }

  /** The columns `dropna(axis=1, how="all")` keeps, as a set. */
  function PresentColumns(t: Table): (r: set<string>)
    ensures forall c :: c in r <==> Present(t, c)
  {
    set c | c in t.columns && !AllNull(t, c)
  }

  /** The columns the removal of empty columns keeps are the present ones. */
  lemma DropPresent(t: Table)
    ensures Elems(DropAllNullColumns(t).columns) == PresentColumns(t)
  {
  }
}
