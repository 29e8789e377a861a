/** The search form of the search page: the check that a search has a
    usable criterion, the count of results per data type, the select-all
    entry of the column picker, the headers for a search mode, and adding
    and removing search levels. */
module SearchForm {
  import opened Common
  import opened Sequences
  import opened ResultTable

  // ---------------------------------------------------------------------------
  // handleSearch: the criteria check

  /** One search level; `keywords` and `columns` are `None` when the field
      is `null` or `undefined`. */
  datatype Level = Level(keywords: Option<string>, columns: Option<seq<string>>, logic: string, negative: bool)

  const NoCriteria := "请输入搜索关键字并选择搜索列"

  /** A level a search can use: keywords that are not blank and at least
      one column. */
  predicate Usable(l: Level) {
    l.keywords.Some? && Strip(l.keywords.value) != "" && l.columns.Some? && |l.columns.value| > 0
  }

  /** The walk over the levels before a search: levels with blank keywords
      or without columns are skipped, and the first usable level ends the
      walk.  Without one the search does not start and the user is warned. */
  method CheckCriteria(levels: seq<Level>) returns (warning: Option<string>, at: int)
    ensures warning.None? <==> exists i :: 0 <= i < |levels| && Usable(levels[i])
    ensures warning.Some? ==> warning.value == NoCriteria && at == -1
    ensures warning.None? ==>
      (0 <= at < |levels| && Usable(levels[at]) && forall j :: 0 <= j < at ==> !Usable(levels[j]))
  {
    var i := 0;
    while i < |levels|
      invariant 0 <= i <= |levels|
      invariant forall j :: 0 <= j < i ==> !Usable(levels[j])
    {
      var level := levels[i];
      if level.keywords.Some? && Strip(level.keywords.value) != "" {
        if level.columns.Some? && |level.columns.value| > 0 {
          return None, i;
        }
      }
      i := i + 1;
    }
    return Some(NoCriteria), -1;
  }

  // ---------------------------------------------------------------------------
  // calculateTypeStatistics

  const TypeColumn := "数据类型"
  const UnknownType := "未知"

  /** A result's data type; a falsy one is counted as unknown. */
  function TypeOf(item: Record): string {
    match Read(item, TypeColumn)
    case Falsy => UnknownType
    case Truthy(t) => t
  }

  function Types(results: seq<Record>): (r: seq<string>)
    ensures |r| == |results| && forall i :: 0 <= i < |results| ==> r[i] == TypeOf(results[i])
  {
    Map(results, TypeOf)
  }

  lemma TypesSnoc(results: seq<Record>)
    requires |results| > 0
    ensures Types(results) == Types(results[..|results| - 1]) + [TypeOf(results[|results| - 1])]
  {
  }

  /** Each data type among the results with the number of results of that
      type, counted front to back. */
  function TypeStatistics(results: seq<Record>): (r: map<string, nat>)
    ensures |r| <= |results|
    ensures |results| > 0 ==> TypeOf(results[|results| - 1]) in r
    decreases |results|
  {
    if |results| == 0 then map[]
    else
      var init := results[..|results| - 1];
      var stats := TypeStatistics(init);
      var t := TypeOf(results[|results| - 1]);
      TypesSnoc(results);
      stats[t := (if t in stats then stats[t] else 0) + 1]
  }

  /** The counted types are exactly the types of the results, and each
      type's count is the number of results of that type. */
  lemma {:induction false} StatisticsCount(results: seq<Record>)
    ensures TypeStatistics(results).Keys == Elems(Types(results))
    ensures forall t :: t in TypeStatistics(results) ==> TypeStatistics(results)[t] == multiset(Types(results))[t]
    decreases |results|
  {
    if |results| > 0 {
      StatisticsCount(results[..|results| - 1]);
      TypesSnoc(results);
    }
  }

  /** The counts of the listed types, added up. */
  function SumOver(keys: seq<string>, m: map<string, nat>): nat
    requires forall i :: 0 <= i < |keys| ==> keys[i] in m
    decreases |keys|
  {
    if |keys| == 0 then 0 else SumOver(keys[..|keys| - 1], m) + m[keys[|keys| - 1]]
  }

  /** Raising one listed count by one raises the total by one. */
  lemma {:induction false} SumBump(keys: seq<string>, m: map<string, nat>, x: string)
    requires NoDup(keys) && x in keys
    requires forall i :: 0 <= i < |keys| ==> keys[i] in m
    ensures SumOver(keys, m[x := m[x] + 1]) == SumOver(keys, m) + 1
    decreases |keys|
  {
    var init := keys[..|keys| - 1];
    if keys[|keys| - 1] == x {
      assert x !in init;
      SumIgnores(init, m, x, m[x] + 1);
    } else {
      SumBump(init, m, x);
    }
  }

  /** A count of a type that is not listed does not enter the total. */
  lemma {:induction false} SumIgnores(keys: seq<string>, m: map<string, nat>, x: string, v: nat)
    requires x !in keys
    requires forall i :: 0 <= i < |keys| ==> keys[i] in m
    ensures SumOver(keys, m[x := v]) == SumOver(keys, m)
    decreases |keys|
  {
    if |keys| > 0 {
      SumIgnores(keys[..|keys| - 1], m, x, v);
    }
  }

  /** Every type listed once, in the order the types first appear. */
  function TypeOrder(results: seq<Record>): (keys: seq<string>)
    ensures NoDup(keys)
    ensures forall i :: 0 <= i < |keys| ==> keys[i] in TypeStatistics(results)
  {
    var keys := Distinct(Types(results));
    StatisticsCount(results);
    assert forall i :: 0 <= i < |keys| ==> keys[i] in Elems(keys);
    keys
  }

  /** The counts, one per distinct type in the order the types first
      appear, add up to the number of results; without results there are
      no counts. */
  lemma {:induction false} StatisticsTotal(results: seq<Record>)
    ensures SumOver(TypeOrder(results), TypeStatistics(results)) == |results|
    ensures |results| == 0 ==> TypeStatistics(results) == map[]
    decreases |results|
  {
    if |results| > 0 {
      var init, x := results[..|results| - 1], results[|results| - 1];
      assert results == init + [x];
      StatisticsTotal(init);
      if TypeOf(x) in TypeOrder(init) {
        SeenTypeStep(init, x);
      } else {
        NewTypeStep(init, x);
      }
    }
  }

  /** One more result adds one to the count of its type. */
  lemma StatisticsSnoc(init: seq<Record>, x: Record)
    ensures var before, t := TypeStatistics(init), TypeOf(x);
      TypeStatistics(init + [x]) == before[t := (if t in before then before[t] else 0) + 1]
  {
    var all := init + [x];
    assert all[..|all| - 1] == init && all[|all| - 1] == x;
  }

  /** One more result lists its type at the end if it is new. */
  lemma TypeOrderSnoc(init: seq<Record>, x: Record)
    ensures TypeOrder(init + [x]) == if TypeOf(x) in TypeOrder(init) then TypeOrder(init) else TypeOrder(init) + [TypeOf(x)]
  {
    TypesSnoc(init + [x]);
    assert (init + [x])[..|init|] == init;
  }

  /** A result of a type seen before adds one to the total. */
  lemma SeenTypeStep(init: seq<Record>, x: Record)
    requires TypeOf(x) in TypeOrder(init)
    ensures SumOver(TypeOrder(init + [x]), TypeStatistics(init + [x])) == SumOver(TypeOrder(init), TypeStatistics(init)) + 1
  {
    var t, d, before := TypeOf(x), TypeOrder(init), TypeStatistics(init);
    StatisticsSnoc(init, x);
    TypeOrderSnoc(init, x);
    assert t in before by {
      StatisticsCount(init);
      assert t in Elems(d);
    }
    SumBump(d, before, t);
  }

  /** A result of a new type adds it to the end with a count of one. */
  lemma NewTypeStep(init: seq<Record>, x: Record)
    requires TypeOf(x) !in TypeOrder(init)
    ensures SumOver(TypeOrder(init + [x]), TypeStatistics(init + [x])) == SumOver(TypeOrder(init), TypeStatistics(init)) + 1
  {
    var t, d, before := TypeOf(x), TypeOrder(init), TypeStatistics(init);
    StatisticsSnoc(init, x);
    TypeOrderSnoc(init, x);
    assert t !in before by {
      StatisticsCount(init);
      assert t !in Elems(d);
    }
    SumIgnores(d, before, t, 1);
    var keys := TypeOrder(init + [x]);
    assert keys[..|keys| - 1] == d;
  }

  // ---------------------------------------------------------------------------
  // handleColumnSelectChange

  const SelectAllEntry := "__select_all__"

  /** The level holds all columns: as many as there are, and each of them. */
  predicate AllSelected(current: seq<string>, all: seq<string>) {
    |current| == |all| && forall c :: c in all ==> c in current
  }

  /** The level's new columns after the picker changed to `selection`.
      Picking the select-all entry clears a level that holds all columns
      (`all`, the source's columns, empty when it has none) and fills any
      other level with them; otherwise the level takes the selection. */
  function ColumnSelect(selection: seq<string>, current: seq<string>, all: seq<string>): (r: seq<string>)
    ensures SelectAllEntry !in selection ==> r == selection
    ensures SelectAllEntry in selection ==> r == [] || r == all
    ensures SelectAllEntry in selection && |all| > 0 ==> (r == [] <==> AllSelected(current, all))
  {
    if SelectAllEntry in selection then
      if AllSelected(current, all) then [] else all
    else selection
  }

  /** Picking select-all again undoes it: the columns alternate between
      all and none. */
  lemma SelectAllAlternates(first: seq<string>, second: seq<string>, current: seq<string>, all: seq<string>)
    requires SelectAllEntry in first && SelectAllEntry in second && |all| > 0
    ensures var once := ColumnSelect(first, current, all);
      ColumnSelect(second, once, all) == (if once == all then [] else all)
  {
  }

  // ---------------------------------------------------------------------------
  // updateTableHeaders

  function NotSimilarity(): string -> bool {
    h => h != SimilarityColumn
  }

  /** The headers apart from the similarity column. */
  function Plain(headers: seq<string>): seq<string> {
    Filter(headers, NotSimilarity())
  }

  /** The source's headers for a search mode: similarity mode shows the
      similarity column, added at the end when missing; any other mode
      shows none.  Nothing else about the headers changes. */
  function UpdateTableHeaders(source: string, configured: map<string, seq<string>>, similarity: bool): (r: seq<string>)
    ensures similarity ==> SimilarityColumn in r && |r| <= |HeadersFor(source, configured)| + 1
    ensures !similarity ==> SimilarityColumn !in r && IsSubseq(r, HeadersFor(source, configured))
    ensures Plain(r) == Plain(HeadersFor(source, configured))
    ensures similarity ==> HeadersFor(source, configured) <= r
    ensures similarity && SimilarityColumn in HeadersFor(source, configured) ==> r == HeadersFor(source, configured)
  {
    var headers := HeadersFor(source, configured);
    if similarity && SimilarityColumn !in headers then
      PlainSnoc(headers);
      headers + [SimilarityColumn]
    else if !similarity then
      PlainTwice(headers);
      Plain(headers)
    else headers
  }

  /** With a data source, the headers the table starts with in similarity
      mode are the ones switching to similarity mode shows, and switching
      to another mode shows them without the similarity column. */
  lemma InitMatchesUpdate(source: string, configured: map<string, seq<string>>, similarity: bool)
    requires source != ""
    ensures InitTableHeaders(source, configured, true) == UpdateTableHeaders(source, configured, true)
    ensures UpdateTableHeaders(source, configured, false) == Plain(InitTableHeaders(source, configured, similarity))
  {
    var headers := HeadersFor(source, configured);
    var init := InitTableHeaders(source, configured, similarity);
    var off := UpdateTableHeaders(source, configured, false);
    assert Plain(init) == Plain(headers) by {
      if init != headers {
        PlainSnoc(headers);
      }
    }
    FilterAll(off, NotSimilarity());
  }

  lemma {:induction false} PlainSnoc(s: seq<string>)
    ensures Plain(s + [SimilarityColumn]) == Plain(s)
    decreases |s|
  {
    if |s| > 0 {
      PlainSnoc(s[1..]);
      assert (s + [SimilarityColumn])[1..] == s[1..] + [SimilarityColumn];
    } else {
      assert Plain([SimilarityColumn]) == Plain([SimilarityColumn][1..]);
    }
  }

  lemma PlainTwice(s: seq<string>)
    ensures Plain(Plain(s)) == Plain(s)
  {
    FilterAll(Plain(s), NotSimilarity());
  }

  // ---------------------------------------------------------------------------
  // addLevel / removeLevel

  /** A new level: no keywords, the source's default column, "and", not
      negated. */
  function DefaultLevel(column: string): Level {
    Level(Some(""), Some([column]), "and", false)
  }

  /** `addLevel`: the levels with one default level after them. */
  function AddLevel(levels: seq<Level>, column: string): (r: seq<Level>)
    ensures |r| == |levels| + 1 && r[..|levels|] == levels
    ensures !Usable(r[|levels|])
  {
    levels + [DefaultLevel(column)]
  }

  /** The position `splice(index, 1)` removes at, if any: a negative index
      counts from the end. */
  function SpliceStart(index: int, n: nat): (k: nat)
    ensures k <= n
    ensures 0 <= index ==> k == if index < n then index else n
    ensures index < 0 && n + index >= 0 ==> k == n + index
  {
    if index >= 0 then (if index < n then index else n)
    else if n + index >= 0 then n + index else 0
  }

  /** `removeLevel`: the level at `index` removed, the others kept in
      order; an index past the end removes nothing. */
  function RemoveLevel(levels: seq<Level>, index: int): (r: seq<Level>)
    ensures index >= |levels| ==> r == levels
    ensures var k := SpliceStart(index, |levels|);
      k < |levels| ==>
        |r| == |levels| - 1 && multiset(r) + multiset{levels[k]} == multiset(levels)
        && (forall j :: 0 <= j < k ==> r[j] == levels[j])
        && (forall j :: k <= j < |r| ==> r[j] == levels[j + 1])
  {
    var k := SpliceStart(index, |levels|);
    if k < |levels| then
      assert levels == levels[..k] + [levels[k]] + levels[k + 1..];
      levels[..k] + levels[k + 1..]
    else levels
  }

  /** Removing the level just added gives the levels back, whether it is
      named by its position or as the last one. */
  lemma RemoveAdded(levels: seq<Level>, column: string)
    ensures RemoveLevel(AddLevel(levels, column), |levels|) == levels
    ensures RemoveLevel(AddLevel(levels, column), -1) == levels
  {
    var added := AddLevel(levels, column);
    assert added[..|levels|] == levels;
  }
}
