/** The keyword filter behind every search: the keywords are normalised, the
    searched columns resolved, and each row kept or dropped by
    case-insensitive literal substring matching, all keywords (AND) or any
    keyword (OR), optionally negated. */
module KeywordSearch {
  import opened Common
  import opened Sequences
  import opened Tables

  /** The `keywords` argument: one comma-separated text, or a list. */
  datatype KeywordArg = Text(text: string) | Items(items: seq<string>)

  /** The `column_name` argument: one name, a list of names, or a value of
      any other type. */
  datatype ColumnArg = Named(name: string) | Listed(names: seq<string>) | Unsupported

  datatype SearchError =
    | InvalidColumnArg    // "无效的列名参数"
    | NoSearchColumn      // "未指定有效的搜索列"
    | MissingColumn(name: string)  // the KeyError of selecting an absent column

  /** Python falsiness of the keywords argument. */
  predicate Falsy(k: KeywordArg) {
    match k
    case Text(s) => s == ""
    case Items(xs) => |xs| == 0
  }

  // ---------------------------------------------------------------------------
  // Keywords

  /** The full-width comma `，` read as `,`. */
  function Widen(s: string): (r: string)
    ensures |r| == |s| && '，' !in r
    ensures forall i :: 0 <= i < |s| ==> r[i] == (if s[i] == '，' then ',' else s[i])
  {
    seq(|s|, i requires 0 <= i < |s| => if s[i] == '，' then ',' else s[i])
  }

  /** A normalised keyword: non-empty, without surrounding whitespace, in
      lower case. */
  predicate Normal(k: string) {
    k != "" && Trimmed(k) && forall i :: 0 <= i < |k| ==> !('A' <= k[i] <= 'Z')
  }

  /** The stripped non-blank parts, lower-cased. */
  function CleanParts(parts: seq<string>): (r: seq<string>)
    ensures |r| <= |parts|
    ensures forall i :: 0 <= i < |r| ==> Normal(r[i])
    decreases |parts|
  {
    if |parts| == 0 then []
    else
      var k := Strip(parts[0]);
      var rest := CleanParts(parts[1..]);
      if k == "" then rest
      else
        LowerNormal(k);
        NormalCons(Lower(k), rest);
        [Lower(k)] + rest
  }

  lemma NormalCons(k: string, rest: seq<string>)
    requires Normal(k) && forall i :: 0 <= i < |rest| ==> Normal(rest[i])
    ensures forall i :: 0 <= i < |[k] + rest| ==> Normal(([k] + rest)[i])
  {
  }

  lemma LowerNormal(k: string)
    requires k != "" && Trimmed(k)
    ensures Normal(Lower(k))
  {
    var l := Lower(k);
    forall i | 0 <= i < |l|
      ensures !('A' <= l[i] <= 'Z')
    {
      LowerCharFacts(k[i]);
    }
    LowerCharFacts(k[0]);
    LowerCharFacts(k[|k| - 1]);
  }

  lemma LowerCharFacts(c: char)
    ensures IsSpace(LowerChar(c)) == IsSpace(c)
    ensures !('A' <= LowerChar(c) <= 'Z')
  {
  }

  /** The keyword list the filter uses: a text is split at either comma
      and its blank parts dropped; list items are only lower-cased. */
  function KeywordList(k: KeywordArg): (r: seq<string>)
    ensures k.Text? ==> forall i :: 0 <= i < |r| ==> Normal(r[i])
    ensures k.Items? ==> r == Map(k.items, Lower)
  {
    match k
    case Text(s) => CleanParts(Split(Widen(s), ','))
    case Items(xs) => Map(xs, Lower)
  }

  /** Joining normalised keywords with commas and parsing the text gives the
      keywords back. */
  lemma {:induction false} KeywordRoundTrip(kws: seq<string>)
    requires |kws| > 0
    requires forall i :: 0 <= i < |kws| ==> Normal(kws[i]) && ',' !in kws[i] && '，' !in kws[i]
    ensures KeywordList(Text(Join(kws, ","))) == kws
  {
    var text := Join(kws, ",");
    JoinNoFullWidth(kws);
    assert Widen(text) == text;
    JoinSplit(kws, ',');
    CleanNormal(kws);
  }

  lemma {:induction false} JoinNoFullWidth(kws: seq<string>)
    requires forall i :: 0 <= i < |kws| ==> '，' !in kws[i]
    ensures '，' !in Join(kws, ",")
    decreases |kws|
  {
    if |kws| > 1 {
      JoinNoFullWidth(kws[1..]);
    }
  }

  lemma {:induction false} CleanNormal(kws: seq<string>)
    requires forall i :: 0 <= i < |kws| ==> Normal(kws[i])
    ensures CleanParts(kws) == kws
    decreases |kws|
  {
    if |kws| > 0 {
      CleanFirst(kws);
      CleanNormal(kws[1..]);
      assert kws == [kws[0]] + kws[1..];
    }
  }

  lemma CleanFirst(kws: seq<string>)
    requires |kws| > 0 && Normal(kws[0])
    ensures CleanParts(kws) == [kws[0]] + CleanParts(kws[1..])
  {
    LowerKeepsNormal(kws[0]);
    StripTrimmed(kws[0]);
    CleanUnfold(kws);
  }

  lemma CleanUnfold(parts: seq<string>)
    requires |parts| > 0 && parts[0] != ""
    requires Strip(parts[0]) == parts[0] && Lower(parts[0]) == parts[0]
    ensures CleanParts(parts) == [parts[0]] + CleanParts(parts[1..])
  {
  }

  lemma LowerKeepsNormal(k: string)
    requires Normal(k)
    ensures Lower(k) == k
  {
    assert forall i :: 0 <= i < |k| ==> Lower(k)[i] == LowerChar(k[i]) == k[i];
  }

  // ---------------------------------------------------------------------------
  // Columns

  /** The columns to search: a single name as given, a list filtered to the
      table's columns. */
  function SearchColumns(t: Table, c: ColumnArg): (r: Result<seq<string>, SearchError>)
    ensures c.Unsupported? <==> r == Err(InvalidColumnArg)
    ensures c.Named? ==> r == Ok([c.name])
    ensures c.Listed? && r.Ok? ==> |r.value| > 0 && forall x :: x in r.value <==> x in c.names && x in t.columns
    ensures c.Listed? ==> (r.Err? <==> forall x :: x in c.names ==> x !in t.columns)
  {
    match c
    case Unsupported => Err(InvalidColumnArg)
    case Named(n) => Ok([n])
    case Listed(ns) =>
      var cols := Filter(ns, x => x in t.columns);
      assert |cols| > 0 ==> cols[0] in cols;
      if |cols| == 0 then Err(NoSearchColumn) else Ok(cols)
  }

  // ---------------------------------------------------------------------------
  // Matching

  /** `fillna('').astype(str).str.lower()` of one cell. */
  function SearchText(c: Cell): string {
    match c
    case Null => ""
    case Str(s) => Lower(s)
  }

  /** The keyword occurs literally in the lower-cased cell. */
  predicate Hit(row: Row, col: string, kw: string) {
    Contains(SearchText(Get(row, col)), kw)
  }

  /** The keyword hits one of the searched columns. */
  predicate HitsSome(row: Row, cols: seq<string>, kw: string) {
    exists j | 0 <= j < |cols| :: Hit(row, cols[j], kw)
  }

  /** AND: every keyword hits some searched column; OR: some keyword does. */
  predicate Matches(row: Row, cols: seq<string>, kws: seq<string>, all: bool) {
    if all then forall i | 0 <= i < |kws| :: HitsSome(row, cols, kws[i])
    else exists i | 0 <= i < |kws| :: HitsSome(row, cols, kws[i])
  }

  /** The row mask, negated when `negative`. */
  function Keep(cols: seq<string>, kws: seq<string>, all: bool, negative: bool): Row -> bool {
    row => Matches(row, cols, kws, all) != negative
  }

  /** `search_column`: `logic` other than "and" means OR. */
  function SearchColumn(t: Table, k: KeywordArg, c: ColumnArg, logic: string, negative: bool): (r: Result<Table, SearchError>)
    ensures Falsy(k) ==> r == Ok(t)
    ensures r.Ok? ==> r.value.columns == t.columns && IsSubseq(r.value.rows, t.rows)
    ensures !Falsy(k) && c.Unsupported? ==> r == Err(InvalidColumnArg)
  {
    if Falsy(k) then
      IsSubseqRefl(t.rows);
      Ok(t)
    else
      var kws := KeywordList(k);
      match SearchColumns(t, c)
      case Err(e) => Err(e)
      case Ok(cols) =>
        if |kws| > 0 && c.Named? && c.name !in t.columns then Err(MissingColumn(c.name))
        else Ok(Table(t.columns, Filter(t.rows, Keep(cols, kws, logic == "and", negative))))
  }

  /** A search that gets past its checks keeps a row exactly when its
      match differs from `negative`: with AND, a row where every keyword
      hits one of the columns; with OR, a row where one does. */
  lemma SearchMeaning(t: Table, k: KeywordArg, c: ColumnArg, logic: string, negative: bool, row: Row)
    requires !Falsy(k) && SearchColumns(t, c).Ok?
    requires !(|KeywordList(k)| > 0 && c.Named? && c.name !in t.columns)
    ensures var r := SearchColumn(t, k, c, logic, negative);
      r.Ok?
      && (row in r.value.rows <==>
            row in t.rows && Matches(row, SearchColumns(t, c).value, KeywordList(k), logic == "and") != negative)
  {
    var cols := SearchColumns(t, c).value;
    var keep := Keep(cols, KeywordList(k), logic == "and", negative);
    assert keep(row) == (Matches(row, cols, KeywordList(k), logic == "and") != negative);
  }

  /** The errors: a named column the table lacks fails once there is a
      keyword, a list naming no column of the table fails. */
  lemma SearchErrors(t: Table, k: KeywordArg, c: ColumnArg, logic: string, negative: bool)
    requires !Falsy(k)
    ensures c.Named? && c.name !in t.columns && |KeywordList(k)| > 0 ==>
      SearchColumn(t, k, c, logic, negative) == Err(MissingColumn(c.name))
    ensures c.Listed? && (forall x :: x in c.names ==> x !in t.columns) ==>
      SearchColumn(t, k, c, logic, negative) == Err(NoSearchColumn)
    ensures SearchColumn(t, k, c, logic, negative).Err? <==>
      c.Unsupported? || SearchColumns(t, c).Err? || (c.Named? && c.name !in t.columns && |KeywordList(k)| > 0)
  {
  }

  /** The positive and the negated search split the table: no row value is
      in both, and together they hold every row as often as the table does,
      each in table order. */
  lemma SearchPartition(t: Table, k: KeywordArg, c: ColumnArg, logic: string)
    requires !Falsy(k) && SearchColumn(t, k, c, logic, false).Ok?
    ensures SearchColumn(t, k, c, logic, true).Ok?
    ensures var p := SearchColumn(t, k, c, logic, false).value.rows;
      var n := SearchColumn(t, k, c, logic, true).value.rows;
      multiset(p) + multiset(n) == multiset(t.rows)
      && forall row :: !(row in p && row in n)
  {
    var kws := KeywordList(k);
    var cols := SearchColumns(t, c).value;
    FilterComplement(t.rows, Keep(cols, kws, logic == "and", false), Keep(cols, kws, logic == "and", true));
  }

  lemma {:induction false} FilterComplement<T>(s: seq<T>, p: T -> bool, q: T -> bool)
    requires forall i :: 0 <= i < |s| ==> q(s[i]) == !p(s[i])
    ensures multiset(Filter(s, p)) + multiset(Filter(s, q)) == multiset(s)
    decreases |s|
  {
    if |s| > 0 {
      FilterComplement(s[1..], p, q);
      assert s == [s[0]] + s[1..];
      if p(s[0]) {
        assert Filter(s, p) == [s[0]] + Filter(s[1..], p);
        assert Filter(s, q) == Filter(s[1..], q);
      } else {
        assert Filter(s, p) == Filter(s[1..], p);
        assert Filter(s, q) == [s[0]] + Filter(s[1..], q);
      }
    }
  }

  /** Searching the result of a search again with the same arguments
      changes nothing. */
  lemma SearchIdempotent(t: Table, k: KeywordArg, c: ColumnArg, logic: string, negative: bool)
    requires SearchColumn(t, k, c, logic, negative).Ok?
    ensures var u := SearchColumn(t, k, c, logic, negative).value;
      SearchColumn(u, k, c, logic, negative) == Ok(u)
  {
    if !Falsy(k) {
      var u := SearchColumn(t, k, c, logic, negative).value;
      var kws := KeywordList(k);
      var cols := SearchColumns(t, c).value;
      assert SearchColumns(u, c) == SearchColumns(t, c);
      FilterAll(u.rows, Keep(cols, kws, logic == "and", negative));
    }
  }

  /** A keyword text with no non-blank part (such as ",") leaves no keyword:
      AND keeps every row and OR keeps none. */
  lemma NoKeywordLeft(t: Table, text: string, c: ColumnArg)
    requires text != "" && KeywordList(Text(text)) == [] && SearchColumns(t, c).Ok?
    ensures SearchColumn(t, Text(text), c, "and", false) == Ok(t)
    ensures SearchColumn(t, Text(text), c, "or", false) == Ok(Table(t.columns, []))
  {
    var cols := SearchColumns(t, c).value;
    FilterAll(t.rows, Keep(cols, [], true, false));
    FilterNone(t.rows, Keep(cols, [], false, false));
  }

  lemma {:induction false} FilterNone<T>(s: seq<T>, keep: T -> bool)
    requires forall x :: x in s ==> !keep(x)
    ensures Filter(s, keep) == []
    decreases |s|
  {
    if |s| > 0 {
      FilterNone(s[1..], keep);
    }
  }

  lemma CommaOnly()
    ensures KeywordList(Text(",")) == []
  {
    assert Widen(",") == ",";
    assert Split(",", ',') == ["", ""] by {
      assert Split(","[1..], ',') == [""];
    }
  }
}
