/** The sensitive-word registry: words filed under categories, kept unique
    across categories, with an index of every word ordered longest first.
    The registry file is an input when loading and a success flag when
    saving. */
module WordRegistry {
  import opened Common
  import opened Sequences

  /** The five categories, in the order the registry presents them. */
  const Categories: seq<string> := ["organizations", "aircraft", "locations", "registration_numbers", "other"]

  /** A stored word with the time it was added. */
  datatype Entry = Entry(word: string, added: string)

  /** One category and its entries, in file order. */
  datatype Group = Group(name: string, entries: seq<Entry>)

  /** The categories in file order and the length-ordered index. */
  datatype Registry = Registry(groups: seq<Group>, sorted: seq<string>)

  datatype Reply = Reply(ok: bool, message: string)

  const EmptyWord := "敏感词不能为空"
  const SaveFailed := "保存敏感词失败"

  function Words(entries: seq<Entry>): (r: seq<string>)
    ensures |r| == |entries| && forall i :: 0 <= i < |entries| ==> r[i] == entries[i].word
  {
    seq(|entries|, i requires 0 <= i < |entries| => entries[i].word)
  }

  /** Every stored word, category by category. */
  function AllWords(groups: seq<Group>): seq<string>
    decreases |groups|
  {
    if |groups| == 0 then [] else Words(groups[0].entries) + AllWords(groups[1..])
  }

  /** `_create_sorted_list`. */
  function SortedList(groups: seq<Group>): (r: seq<string>)
    ensures multiset(r) == multiset(AllWords(groups))
    ensures Ordered(r, LongerFirst())
  {
    LongerFirstPreorder();
    SortOrdered(AllWords(groups), LongerFirst());
    SortBy(AllWords(groups), LongerFirst())
  }

  function EmptyGroups(): (r: seq<Group>)
    ensures |r| == |Categories| && forall i :: 0 <= i < |r| ==> r[i] == Group(Categories[i], [])
  {
    seq(|Categories|, i requires 0 <= i < |Categories| => Group(Categories[i], []))
  }

  /** The registry after construction: the file's categories, or five empty
      ones when the file is missing or unreadable, with the index built from
      them. */
  function Load(file: Option<seq<Group>>): (r: Registry)
    ensures Consistent(r)
    ensures file.None? ==> r.groups == EmptyGroups() && r.sorted == []
  {
    var groups := file.GetOr(EmptyGroups());
    EmptyHasNoWords(EmptyGroups());
    Registry(groups, SortedList(groups))
  }

  lemma {:induction false} EmptyHasNoWords(groups: seq<Group>)
    requires forall i :: 0 <= i < |groups| ==> groups[i].entries == []
    ensures AllWords(groups) == []
    decreases |groups|
  {
    if |groups| > 0 {
      EmptyHasNoWords(groups[1..]);
    }
  }

  /** The index holds exactly the stored words, longest first. */
  predicate Consistent(r: Registry) {
    multiset(r.sorted) == multiset(AllWords(r.groups)) && Ordered(r.sorted, LongerFirst())
  }

  /** No word is stored twice, in one category or across two. */
  ghost predicate Unique(r: Registry) {
    forall w :: multiset(AllWords(r.groups))[w] <= 1
  }

  // ---------------------------------------------------------------------------
  // Lookups

  /** The position of the category `name`, if the registry has it. */
  function GroupIndex(groups: seq<Group>, name: string): (r: Option<nat>)
    ensures r.Some? ==> r.value < |groups| && groups[r.value].name == name
    ensures r.None? <==> forall i :: 0 <= i < |groups| ==> groups[i].name != name
    decreases |groups|
  {
    if |groups| == 0 then None
    else if groups[0].name == name then Some(0)
    else match GroupIndex(groups[1..], name)
      case None => None
      case Some(i) => Some(i + 1)
  }

  /** The first category holding `w`. */
  function FindWord(groups: seq<Group>, w: string): (r: Option<string>)
    ensures r.None? <==> w !in AllWords(groups)
    decreases |groups|
  {
    if |groups| == 0 then None
    else if w in Words(groups[0].entries) then Some(groups[0].name)
    else FindWord(groups[1..], w)
  }

  /** The position of the first entry holding `w`. */
  function FirstEntry(entries: seq<Entry>, w: string): (r: Option<nat>)
    ensures r.Some? ==> (r.value < |entries| && entries[r.value].word == w
      && forall k :: 0 <= k < r.value ==> entries[k].word != w)
    ensures r.None? <==> forall k :: 0 <= k < |entries| ==> entries[k].word != w
    decreases |entries|
  {
    if |entries| == 0 then None
    else if entries[0].word == w then Some(0)
    else match FirstEntry(entries[1..], w)
      case None => None
      case Some(k) => Some(k + 1)
  }

  // ---------------------------------------------------------------------------
  // add_word and remove_word

  function Quoted(s: string): string {
    "'" + s + "'"
  }

  /** `add_word`: the word is stripped, checked against every category, then
      appended to its category and to the index, which is sorted again.
      `saved` is whether writing the file succeeded; the change is made
      either way. */
  function AddWord(r: Registry, word: string, category: string, now: string, saved: bool): (res: (Registry, Reply))
    ensures Strip(word) == "" ==> res == (r, Reply(false, EmptyWord))
    ensures Strip(word) != "" && GroupIndex(r.groups, category).None? ==>
      res == (r, Reply(false, "类别 " + Quoted(category) + " 不存在"))
    ensures Strip(word) != "" && FindWord(r.groups, Strip(word)).Some? ==> res.0 == r && !res.1.ok
    ensures res.0 != r ==> (Strip(word) != "" && GroupIndex(r.groups, category).Some?
      && Strip(word) !in AllWords(r.groups))
    ensures res.1.ok <==> saved && res.0 != r
  {
    var w := Strip(word);
    if w == "" then (r, Reply(false, EmptyWord))
    else match GroupIndex(r.groups, category)
      case None => (r, Reply(false, "类别 " + Quoted(category) + " 不存在"))
      case Some(i) =>
        match FindWord(r.groups, w)
        case Some(cat) => (r, Reply(false, "敏感词 " + Quoted(w) + " 已存在于类别 " + Quoted(cat)))
        case None =>
          var next := Filed(r, i, w, now);
          assert |next.groups[i].entries| != |r.groups[i].entries|;
          if saved then (next, Reply(true, "敏感词 " + Quoted(w) + " 已添加到类别 " + Quoted(category)))
          else (next, Reply(false, SaveFailed))
  }

  /** `remove_word`: the first entry holding the word (as given, not
      stripped) leaves its category, and its first occurrence leaves the
      index. */
  function RemoveWord(r: Registry, word: string, category: string, saved: bool): (res: (Registry, Reply))
    ensures GroupIndex(r.groups, category).None? ==> res == (r, Reply(false, "类别 " + Quoted(category) + " 不存在"))
    ensures (GroupIndex(r.groups, category).Some?
      && FirstEntry(r.groups[GroupIndex(r.groups, category).value].entries, word).None?) ==>
      res == (r, Reply(false, "在类别 " + Quoted(category) + " 中未找到敏感词 " + Quoted(word)))
    ensures res.1.ok ==> saved
  {
    match GroupIndex(r.groups, category)
    case None => (r, Reply(false, "类别 " + Quoted(category) + " 不存在"))
    case Some(i) =>
      var g := r.groups[i];
      match FirstEntry(g.entries, word)
      case None => (r, Reply(false, "在类别 " + Quoted(category) + " 中未找到敏感词 " + Quoted(word)))
      case Some(j) =>
        var next := Unfiled(r, i, j, word);
        if saved then (next, Reply(true, "敏感词 " + Quoted(word) + " 已从类别 " + Quoted(category) + " 中删除"))
        else (next, Reply(false, SaveFailed))
  }

  /** `list.remove`: drops the first occurrence. */
  function DropFirst(s: seq<string>, x: string): (r: seq<string>)
    requires x in s
    ensures multiset(r) == multiset(s) - multiset{x}
  {
    var k := FirstIndex(s, x);
    assert s == s[..k] + [s[k]] + s[k + 1..];
    s[..k] + s[k + 1..]
  }

  // ---------------------------------------------------------------------------
  // get_all_words

  /** `get_all_words`: the five categories in their fixed order, each with
      its entries or none. */
  function GetAllWords(r: Registry): (res: seq<Group>)
    ensures |res| == 5
    ensures forall i :: 0 <= i < 5 ==> (res[i].name == Categories[i]
      && res[i].entries == match GroupIndex(r.groups, Categories[i])
        case Some(k) => r.groups[k].entries
        case None => [])
  {
    seq(5, i requires 0 <= i < 5 =>
      Group(Categories[i], match GroupIndex(r.groups, Categories[i])
        case Some(k) => r.groups[k].entries
        case None => []))
  }

  /** A registry loaded without a file lists its five categories empty. */
  lemma GetAllWordsEmpty()
    ensures GetAllWords(Load(None)) == EmptyGroups()
  {
    var loaded := Load(None);
    var empty := EmptyGroups();
    assert loaded.groups == empty;
    var res := GetAllWords(loaded);
    forall i | 0 <= i < 5 ensures res[i] == empty[i] {
      match GroupIndex(empty, Categories[i])
      case None =>
      case Some(k) => assert empty[k].entries == [];
    }
    assert |res| == |empty|;
  }

  /** After an accepted add the listing shows the stripped word at the end
      of the chosen category, and every other category as before. */
  lemma GetAllWordsAfterAdd(r: Registry, word: string, category: string, now: string, saved: bool)
    requires AddWord(r, word, category, now, saved).0 != r
    ensures var before := GetAllWords(r);
      var after := GetAllWords(AddWord(r, word, category, now, saved).0);
      forall i :: 0 <= i < 5 ==>
        after[i].entries == if Categories[i] == category then before[i].entries + [Entry(Strip(word), now)]
                            else before[i].entries
  {
    var k := GroupIndex(r.groups, category).value;
    var next := Filed(r, k, Strip(word), now);
    assert AddWord(r, word, category, now, saved).0 == next;
    var before := GetAllWords(r);
    var after := GetAllWords(next);
    forall i | 0 <= i < 5
      ensures after[i].entries == if Categories[i] == category then before[i].entries + [Entry(Strip(word), now)]
                                  else before[i].entries
    {
      GroupIndexByNames(next.groups, r.groups, Categories[i]);
      match GroupIndex(r.groups, Categories[i])
      case None =>
        assert Categories[i] != category;
      case Some(j) =>
        assert r.groups[j].name == Categories[i] && r.groups[k].name == category;
    }
  }

  // ---------------------------------------------------------------------------
  // Invariants

  /** Replacing one category's entries changes the stored words by exactly
      the difference between the old and the new entries. */
  lemma {:induction false} AllWordsUpdate(groups: seq<Group>, i: nat, g: Group)
    requires i < |groups|
    ensures multiset(AllWords(groups[i := g])) + multiset(Words(groups[i].entries))
         == multiset(AllWords(groups)) + multiset(Words(g.entries))
    decreases i
  {
    var u := groups[i := g];
    assert AllWords(groups) == Words(groups[0].entries) + AllWords(groups[1..]);
    if i == 0 {
      assert u[1..] == groups[1..];
      assert AllWords(u) == Words(g.entries) + AllWords(groups[1..]);
    } else {
      assert u[0] == groups[0];
      assert u[1..] == groups[1..][i - 1 := g];
      assert groups[1..][i - 1] == groups[i];
      AllWordsUpdate(groups[1..], i - 1, g);
      assert AllWords(u) == Words(groups[0].entries) + AllWords(u[1..]);
      Shift(multiset(Words(groups[0].entries)), multiset(AllWords(u[1..])), multiset(Words(groups[i].entries)),
        multiset(AllWords(groups[1..])), multiset(Words(g.entries)));
    }
  }

  lemma Shift<T>(a: multiset<T>, b: multiset<T>, c: multiset<T>, d: multiset<T>, e: multiset<T>)
    requires b + c == d + e
    ensures a + b + c == a + d + e
  {
    assert a + b + c == a + (b + c);
    assert a + d + e == a + (d + e);
  }

  /** Cancels a common part of two multiset sums. */
  lemma Cancel<T>(a: multiset<T>, b: multiset<T>, c: multiset<T>, d: multiset<T>)
    requires a + c == b + c + d
    ensures a == b + d
  {
    forall x ensures a[x] == (b + d)[x] {
      assert (a + c)[x] == (b + c + d)[x];
    }
  }

  /** The added state: `w` appended to category `i` and to the index,
      which is sorted again. */
  function Filed(r: Registry, i: nat, w: string, now: string): (next: Registry)
    requires i < |r.groups|
    ensures |next.groups| == |r.groups| && next.groups[i].name == r.groups[i].name
    ensures next.groups[i].entries == r.groups[i].entries + [Entry(w, now)]
    ensures forall k :: 0 <= k < |r.groups| && k != i ==> next.groups[k] == r.groups[k]
  {
    var g := r.groups[i];
    Registry(r.groups[i := Group(g.name, g.entries + [Entry(w, now)])], SortBy(r.sorted + [w], LongerFirst()))
  }

  /** Filing a word not yet stored keeps the registry consistent and
      unique. */
  lemma FiledPreserves(r: Registry, i: nat, w: string, now: string)
    requires i < |r.groups| && Consistent(r) && Unique(r) && w !in AllWords(r.groups)
    ensures multiset(AllWords(Filed(r, i, w, now).groups)) == multiset(AllWords(r.groups)) + multiset{w}
    ensures Consistent(Filed(r, i, w, now)) && Unique(Filed(r, i, w, now))
  {
    FiledWords(r, i, w, now);
    LongerFirstPreorder();
    SortOrdered(r.sorted + [w], LongerFirst());
    assert multiset(AllWords(r.groups))[w] == 0;
  }

  /** Filing adds exactly the new word to the stored words. */
  lemma FiledWords(r: Registry, i: nat, w: string, now: string)
    requires i < |r.groups|
    ensures multiset(AllWords(Filed(r, i, w, now).groups)) == multiset(AllWords(r.groups)) + multiset{w}
  {
    var next := Filed(r, i, w, now);
    var g := r.groups[i];
    var g' := next.groups[i];
    assert next.groups == r.groups[i := g'];
    AllWordsUpdate(r.groups, i, g');
    assert Words(g'.entries) == Words(g.entries) + [w];
    var before := multiset(AllWords(r.groups));
    var after := multiset(AllWords(next.groups));
    assert after + multiset(Words(g.entries)) == before + multiset(Words(g.entries)) + multiset{w};
    Cancel(after, before, multiset(Words(g.entries)), multiset{w});
  }

  /** The removed state: entry `j` leaves category `i`, and the first
      occurrence of `word` leaves the index. */
  function Unfiled(r: Registry, i: nat, j: nat, word: string): (next: Registry)
    requires i < |r.groups| && j < |r.groups[i].entries|
    ensures |next.groups| == |r.groups| && next.groups[i].name == r.groups[i].name
    ensures next.groups[i].entries == r.groups[i].entries[..j] + r.groups[i].entries[j + 1..]
    ensures forall k :: 0 <= k < |r.groups| && k != i ==> next.groups[k] == r.groups[k]
  {
    var g := r.groups[i];
    Registry(r.groups[i := Group(g.name, g.entries[..j] + g.entries[j + 1..])],
      if word in r.sorted then DropFirst(r.sorted, word) else r.sorted)
  }

  lemma WordsWithout(entries: seq<Entry>, j: nat)
    requires j < |entries|
    ensures multiset(Words(entries)) == multiset(Words(entries[..j] + entries[j + 1..])) + multiset{entries[j].word}
  {
    var head := Words(entries[..j]);
    var tail := Words(entries[j + 1..]);
    assert Words(entries) == head + [entries[j].word] + tail;
    assert Words(entries[..j] + entries[j + 1..]) == head + tail;
  }

  /** Unfiling entry `j` takes exactly its word out of the stored words. */
  lemma UnfiledWords(r: Registry, i: nat, j: nat, word: string)
    requires i < |r.groups| && j < |r.groups[i].entries| && r.groups[i].entries[j].word == word
    ensures multiset(AllWords(Unfiled(r, i, j, word).groups)) + multiset{word} == multiset(AllWords(r.groups))
  {
    var next := Unfiled(r, i, j, word);
    var g := r.groups[i];
    var g' := next.groups[i];
    assert next.groups == r.groups[i := g'];
    AllWordsUpdate(r.groups, i, g');
    WordsWithout(g.entries, j);
    var before := multiset(AllWords(r.groups));
    var after := multiset(AllWords(next.groups));
    var kept := multiset(Words(g'.entries));
    assert after + (kept + multiset{word}) == before + kept;
    forall x ensures (after + multiset{word})[x] == before[x] {
      assert (after + (kept + multiset{word}))[x] == (before + kept)[x];
    }
    assert after + multiset{word} == before;
  }

  /** Unfiling a stored word keeps the registry consistent and unique. */
  lemma UnfiledPreserves(r: Registry, i: nat, j: nat, word: string)
    requires i < |r.groups| && j < |r.groups[i].entries| && r.groups[i].entries[j].word == word
    requires Consistent(r) && Unique(r)
    ensures multiset(AllWords(Unfiled(r, i, j, word).groups)) + multiset{word} == multiset(AllWords(r.groups))
    ensures Consistent(Unfiled(r, i, j, word)) && Unique(Unfiled(r, i, j, word))
  {
    UnfiledWords(r, i, j, word);
    assert word in multiset(r.sorted);
    DropOrdered(r.sorted, word);
  }

  /** Adding keeps the index consistent with the categories and the words
      unique; an accepted word is the stripped input, filed in the chosen
      category with nothing else changed. */
  lemma AddPreserves(r: Registry, word: string, category: string, now: string, saved: bool)
    requires Consistent(r) && Unique(r)
    ensures var next := AddWord(r, word, category, now, saved).0;
      Consistent(next) && Unique(next)
      && (next != r ==> next == Filed(r, GroupIndex(r.groups, category).value, Strip(word), now))
  {
    var next := AddWord(r, word, category, now, saved).0;
    if next != r {
      FiledPreserves(r, GroupIndex(r.groups, category).value, Strip(word), now);
    }
  }

  /** Removing keeps the index consistent and the words unique; a removal
      takes out the first matching entry of the chosen category and
      nothing else. */
  lemma RemovePreserves(r: Registry, word: string, category: string, saved: bool)
    requires Consistent(r) && Unique(r)
    ensures var next := RemoveWord(r, word, category, saved).0;
      Consistent(next) && Unique(next)
      && (next != r ==> var i := GroupIndex(r.groups, category).value;
            next == Unfiled(r, i, FirstEntry(r.groups[i].entries, word).value, word))
  {
    match GroupIndex(r.groups, category)
    case None =>
    case Some(i) =>
      match FirstEntry(r.groups[i].entries, word)
      case None =>
      case Some(j) =>
        UnfiledPreserves(r, i, j, word);
  }

  /** The position of a category depends only on the category names. */
  lemma {:induction false} GroupIndexByNames(a: seq<Group>, b: seq<Group>, name: string)
    requires |a| == |b| && forall k :: 0 <= k < |a| ==> a[k].name == b[k].name
    ensures GroupIndex(a, name) == GroupIndex(b, name)
    decreases |a|
  {
    if |a| > 0 {
      GroupIndexByNames(a[1..], b[1..], name);
    }
  }

  /** A word of any category is among the stored words. */
  lemma {:induction false} AllWordsHas(groups: seq<Group>, i: nat, w: string)
    requires i < |groups| && w in Words(groups[i].entries)
    ensures w in AllWords(groups)
    decreases i
  {
    if i > 0 {
      AllWordsHas(groups[1..], i - 1, w);
    }
  }

  /** Unfiling the entry just filed restores every category and the
      index's words. */
  lemma UnfiledFiled(r: Registry, i: nat, w: string, now: string)
    requires i < |r.groups|
    ensures var back := Unfiled(Filed(r, i, w, now), i, |r.groups[i].entries|, w);
      back.groups == r.groups && multiset(back.sorted) == multiset(r.sorted)
  {
    var added := Filed(r, i, w, now);
    var e := r.groups[i].entries;
    var back := Unfiled(added, i, |e|, w);
    assert back.groups[i].entries == e;
    assert back.groups == r.groups;
    assert multiset(added.sorted) == multiset(r.sorted) + multiset{w};
    assert w in multiset(added.sorted);
    assert back.sorted == DropFirst(added.sorted, w);
    assert multiset(r.sorted) + multiset{w} - multiset{w} == multiset(r.sorted);
  }

  /** In the filed state, removing the filed word unfiles the entry just
      appended. */
  lemma RemoveFiled(r: Registry, i: nat, w: string, now: string, category: string, saved: bool)
    requires GroupIndex(r.groups, category) == Some(i) && w !in Words(r.groups[i].entries)
    ensures RemoveWord(Filed(r, i, w, now), w, category, saved).0
      == Unfiled(Filed(r, i, w, now), i, |r.groups[i].entries|, w)
    ensures RemoveWord(Filed(r, i, w, now), w, category, saved).1.ok == saved
  {
    var added := Filed(r, i, w, now);
    GroupIndexByNames(added.groups, r.groups, category);
    var e := r.groups[i].entries;
    var n := |e|;
    assert forall k :: 0 <= k < n ==> Words(e)[k] == e[k].word;
    assert added.groups[i].entries[n].word == w;
    assert FirstEntry(added.groups[i].entries, w) == Some(n);
  }

  /** Removing a word just added to a category (given already stripped)
      restores every category, and the index holds the same words again. */
  lemma AddThenRemove(r: Registry, word: string, category: string, now: string, saved: bool, saved2: bool)
    requires Consistent(r) && Unique(r) && Strip(word) == word
    requires AddWord(r, word, category, now, saved).0 != r
    ensures var back := RemoveWord(AddWord(r, word, category, now, saved).0, word, category, saved2);
      back.0.groups == r.groups && multiset(back.0.sorted) == multiset(r.sorted) && back.1.ok == saved2
  {
    var i := GroupIndex(r.groups, category).value;
    AddPreserves(r, word, category, now, saved);
    if word in Words(r.groups[i].entries) {
      AllWordsHas(r.groups, i, word);
    }
    RemoveFiled(r, i, word, now, category, saved2);
    UnfiledFiled(r, i, word, now);
  }

  /** Once added, a word cannot be added again, in any category. */
  lemma AddTwice(r: Registry, word: string, category: string, other: string, now: string, later: string, saved: bool, saved2: bool)
    requires AddWord(r, word, category, now, saved).0 != r
    ensures var added := AddWord(r, word, category, now, saved).0;
      AddWord(added, word, other, later, saved2) == (added, AddWord(added, word, other, later, saved2).1)
      && !AddWord(added, word, other, later, saved2).1.ok
  {
    var i := GroupIndex(r.groups, category).value;
    var w := Strip(word);
    assert AddWord(r, word, category, now, saved).0 == Filed(r, i, w, now);
    FiledWords(r, i, w, now);
    assert w in multiset(AllWords(Filed(r, i, w, now).groups));
  }

  /** Dropping an element keeps a list longest first. */
  lemma DropOrdered(s: seq<string>, x: string)
    requires x in s && Ordered(s, LongerFirst())
    ensures Ordered(DropFirst(s, x), LongerFirst())
  {
    var k := FirstIndex(s, x);
    var r := DropFirst(s, x);
    forall a, b | 0 <= a < b < |r| ensures |r[a]| >= |r[b]| {
      var a' := if a < k then a else a + 1;
      var b' := if b < k then b else b + 1;
      assert r[a] == s[a'] && r[b] == s[b'];
    }
  }
}
