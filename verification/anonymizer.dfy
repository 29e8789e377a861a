/** The text anonymizer: a word list kept longest first, a pattern list
    kept in insertion order, and the removal of both from a text followed
    by whitespace normalisation.  What a regular expression matches is an
    input (`matched`), since the regular-expression engine is not part of
    this model. */
module TextAnonymizer {
  import opened Common
  import opened Sequences

  /** The patterns every anonymizer starts with (Python raw strings). */
  const DefaultPatterns: seq<string> := [
    "(909|ARJ)/B-?[A-Z0-9]{4}", "B-?[A-Z0-9]{4}", "10\\d{3}", "执行.{1,15}?航班", "[A-Z]{2}\\d{4}"
  ]

  datatype Anonymizer = Anonymizer(words: seq<string>, patterns: seq<string>)

  // ---------------------------------------------------------------------------
  // load_sensitive_words

  /** One entry of a category's list in the word file: a record with a
      "word" field, or anything else. */
  datatype Item = WordItem(word: string) | OtherItem

  /** One category of the word file: a list, or any other JSON value. */
  datatype Category = Listed(items: seq<Item>) | NotListed

  function ItemWords(items: seq<Item>): seq<string>
    decreases |items|
  {
    if |items| == 0 then []
    else (if items[0].WordItem? then [items[0].word] else []) + ItemWords(items[1..])
  }

  /** The words of every list-valued category, in file order. */
  function FileWords(categories: seq<Category>): seq<string>
    decreases |categories|
  {
    if |categories| == 0 then []
    else (if categories[0].Listed? then ItemWords(categories[0].items) else []) + FileWords(categories[1..])
  }

  /** A new anonymizer: the words of the file (`None` when it is missing or
      unreadable) longest first, and the default patterns. */
  function Load(file: Option<seq<Category>>): (r: Anonymizer)
    ensures r.patterns == DefaultPatterns
    ensures file.None? ==> r.words == []
    ensures file.Some? ==> multiset(r.words) == multiset(FileWords(file.value))
    ensures Ordered(r.words, LongerFirst())
  {
    var found := if file.Some? then FileWords(file.value) else [];
    LongerFirstPreorder();
    SortOrdered(found, LongerFirst());
    Anonymizer(SortBy(found, LongerFirst()), DefaultPatterns)
  }

  // ---------------------------------------------------------------------------
  // add_sensitive_words and add_patterns

  /** The argument: one string, or a list of them. */
  datatype Arg = One(item: string) | Many(items: seq<string>)

  function Items(a: Arg): seq<string> {
    match a
    case One(x) => [x]
    case Many(xs) => xs
  }

  /** Appends each new item that the growing list does not hold yet. */
  function AddUnseen(list: seq<string>, more: seq<string>): (r: seq<string>)
    ensures |list| <= |r| && r[..|list|] == list
    ensures forall x :: x in r <==> x in list || x in more
    ensures NoDup(list) ==> NoDup(r)
    decreases |more|
  {
    if |more| == 0 then
      assert list[..|list|] == list;
      list
    else
      var next := if more[0] in list then list else list + [more[0]];
      var r := AddUnseen(next, more[1..]);
      assert r[..|list|] == list by { assert r[..|next|][..|list|] == next[..|list|]; }
      assert forall x :: x in more <==> x == more[0] || x in more[1..];
      r
  }

  /** What is appended comes from the new items, in their order. */
  lemma {:induction false} AddUnseenOrder(list: seq<string>, more: seq<string>)
    ensures IsSubseq(AddUnseen(list, more)[|list|..], more)
    decreases |more|
  {
    var r := AddUnseen(list, more);
    if |more| == 0 {
      assert r[|list|..] == [];
    } else {
      var next := if more[0] in list then list else list + [more[0]];
      AddUnseenOrder(next, more[1..]);
      if more[0] in list {
        assert next == list;
        SubseqSkip(r[|list|..], more);
      } else {
        assert r[..|next|] == next;
        assert r[|list|..] == [more[0]] + r[|next|..];
      }
    }
  }

  /** When every new item is present already, nothing is appended. */
  lemma {:induction false} AddUnseenPresent(list: seq<string>, more: seq<string>)
    requires forall i :: 0 <= i < |more| ==> more[i] in list
    ensures AddUnseen(list, more) == list
    decreases |more|
  {
    if |more| > 0 {
      AddUnseenPresent(list, more[1..]);
    }
  }

  /** `add_sensitive_words`: unseen words are appended and the list is
      sorted longest first again. */
  function AddSensitiveWords(a: Anonymizer, more: Arg): (r: Anonymizer)
    ensures r.patterns == a.patterns
    ensures forall x :: x in r.words <==> x in a.words || x in Items(more)
    ensures NoDup(a.words) ==> NoDup(r.words)
    ensures Ordered(r.words, LongerFirst())
  {
    var added := AddUnseen(a.words, Items(more));
    LongerFirstPreorder();
    SortOrdered(added, LongerFirst());
    var sorted := SortBy(added, LongerFirst());
    assert forall x :: x in sorted <==> x in multiset(added);
    SortNoDup(added, sorted);
    Anonymizer(sorted, a.patterns)
  }

  /** A permutation of a sequence without repeats has none either. */
  lemma SortNoDup(s: seq<string>, t: seq<string>)
    requires multiset(t) == multiset(s)
    ensures NoDup(s) ==> NoDup(t)
  {
    if NoDup(s) {
      forall x ensures multiset(s)[x] <= 1 {
        NoDupCount(s, x);
      }
      forall i, j | 0 <= i < j < |t| ensures t[i] != t[j] {
        CountedTwice(t, i, j);
      }
    }
  }

  /** Two equal positions count their element twice. */
  lemma CountedTwice(t: seq<string>, i: nat, j: nat)
    requires i < j < |t|
    ensures t[i] == t[j] ==> multiset(t)[t[i]] >= 2
  {
    var rest := t[..j] + t[j + 1..];
    assert t == t[..j] + [t[j]] + t[j + 1..];
    assert t[..j][i] == t[i];
    assert rest[i] == t[i];
    assert multiset(t)[t[j]] == multiset(rest)[t[j]] + 1;
  }

  /** Without repeats, nothing is counted twice. */
  lemma {:induction false} NoDupCount(s: seq<string>, x: string)
    requires NoDup(s)
    ensures multiset(s)[x] <= 1
    decreases |s|
  {
    if |s| > 0 {
      assert s == [s[0]] + s[1..];
      assert NoDup(s[1..]);
      NoDupCount(s[1..], x);
      if s[0] == x {
        assert x !in s[1..];
      }
    }
  }

  /** Adding the same words a second time changes nothing. */
  lemma AddWordsTwice(a: Anonymizer, more: Arg)
    ensures AddSensitiveWords(AddSensitiveWords(a, more), more) == AddSensitiveWords(a, more)
  {
    var once := AddSensitiveWords(a, more);
    AddUnseenPresent(once.words, Items(more));
    SortFixed(once.words, LongerFirst());
  }

  /** `add_patterns`: unseen patterns are appended in the given order and
      the existing ones keep their places. */
  function AddPatterns(a: Anonymizer, more: Arg): (r: Anonymizer)
    ensures r.words == a.words
    ensures |a.patterns| <= |r.patterns| && r.patterns[..|a.patterns|] == a.patterns
    ensures IsSubseq(r.patterns[|a.patterns|..], Items(more))
    ensures forall x :: x in r.patterns <==> x in a.patterns || x in Items(more)
    ensures NoDup(a.patterns) ==> NoDup(r.patterns)
  {
    AddUnseenOrder(a.patterns, Items(more));
    Anonymizer(a.words, AddUnseen(a.patterns, Items(more)))
  }

  // ---------------------------------------------------------------------------
  // Whitespace normalisation: re.sub(r"\s+", " ", text.strip())

  /** Each run of whitespace becomes one space: a scan that remembers
      whether it is inside a run. */
  function CollapseFrom(s: string, inRun: bool): (r: string)
    ensures |r| <= |s|
    ensures |r| > 0 && IsSpace(r[0]) ==> !inRun && IsSpace(s[0])
    ensures |s| > 0 && !IsSpace(s[0]) ==> |r| > 0 && r[0] == s[0]
    ensures |s| > 0 && !IsSpace(s[|s| - 1]) ==> |r| > 0 && !IsSpace(r[|r| - 1])
    ensures Single(r)
    decreases |s|
  {
    if |s| == 0 then ""
    else if IsSpace(s[0]) then
      if inRun then CollapseFrom(s[1..], true) else " " + CollapseFrom(s[1..], true)
    else
      [s[0]] + CollapseFrom(s[1..], false)
  }

  /** `re.sub(r"\s+", " ", s)`. */
  function Collapse(s: string): (r: string)
    ensures |r| <= |s| && Single(r)
    ensures Trimmed(s) ==> Trimmed(r)
  {
    CollapseFrom(s, false)
  }

  /** Whitespace only as single spaces, never two in a row. */
  predicate Single(s: string) {
    (forall i :: 0 <= i < |s| ==> IsSpace(s[i]) ==> s[i] == ' ')
    && forall i :: 0 <= i < |s| - 1 ==> !(IsSpace(s[i]) && IsSpace(s[i + 1]))
  }

  /** The normalised text: trimmed, with single spaces. */
  function Normalise(s: string): (r: string)
    ensures Trimmed(r) && Single(r)
    ensures |r| <= |s|
    ensures s == "" ==> r == ""
  {
    Collapse(Strip(s))
  }

  /** The characters other than whitespace, in order. */
  function Visible(s: string): string
    decreases |s|
  {
    if |s| == 0 then "" else (if IsSpace(s[0]) then "" else [s[0]]) + Visible(s[1..])
  }

  lemma {:induction false} VisibleStripLeft(s: string)
    ensures Visible(StripLeft(s)) == Visible(s)
    decreases |s|
  {
    if |s| > 0 && IsSpace(s[0]) {
      VisibleStripLeft(s[1..]);
    }
  }

  /** Collapsing keeps every visible character, in order. */
  lemma {:induction false} CollapseVisible(s: string, inRun: bool)
    ensures Visible(CollapseFrom(s, inRun)) == Visible(s)
    decreases |s|
  {
    if |s| > 0 {
      var rest := CollapseFrom(s[1..], IsSpace(s[0]));
      CollapseVisible(s[1..], IsSpace(s[0]));
      if IsSpace(s[0]) && !inRun {
        assert (" " + rest)[1..] == rest;
      } else if !IsSpace(s[0]) {
        assert ([s[0]] + rest)[1..] == rest;
      }
    }
  }

  /** Text already made of single spaces collapses to itself. */
  lemma {:induction false} CollapseFixed(s: string, inRun: bool)
    requires Single(s) && (inRun ==> |s| == 0 || !IsSpace(s[0]))
    ensures CollapseFrom(s, inRun) == s
    decreases |s|
  {
    if |s| > 0 {
      var t := s[1..];
      assert Single(t) by {
        assert forall i :: 0 <= i < |t| ==> t[i] == s[i + 1];
      }
      assert |t| > 0 && IsSpace(s[0]) ==> !IsSpace(t[0]);
      CollapseFixed(t, IsSpace(s[0]));
      assert s == [s[0]] + t;
    }
  }

  /** Normalising twice is normalising once. */
  lemma NormaliseIdempotent(s: string)
    ensures Normalise(Normalise(s)) == Normalise(s)
  {
    var n := Normalise(s);
    StripTrimmed(n);
    CollapseFixed(n, false);
  }

  /** Normalising keeps the visible characters, in order. */
  lemma NormaliseVisible(s: string)
    ensures Visible(Normalise(s)) == Visible(s)
  {
    CollapseVisible(Strip(s), false);
    StripVisible(s);
  }

  lemma StripVisible(s: string)
    ensures Visible(Strip(s)) == Visible(s)
  {
    VisibleStripLeft(s);
    VisibleStripRight(StripLeft(s));
  }

  lemma {:induction false} VisibleStripRight(s: string)
    ensures Visible(StripRight(s)) == Visible(s)
    decreases |s|
  {
    if |s| > 0 && IsSpace(s[|s| - 1]) {
      VisibleStripRight(s[..|s| - 1]);
      VisibleSnoc(s[..|s| - 1], s[|s| - 1]);
      assert s[..|s| - 1] + [s[|s| - 1]] == s;
    }
  }

  lemma {:induction false} VisibleSnoc(s: string, c: char)
    ensures Visible(s + [c]) == Visible(s) + (if IsSpace(c) then "" else [c])
    decreases |s|
  {
    if |s| > 0 {
      VisibleSnoc(s[1..], c);
      assert (s + [c])[1..] == s[1..] + [c];
    } else {
      assert s + [c] == [c];
    }
  }

  // ---------------------------------------------------------------------------
  // anonymize_text

  /** The text with every marked position deleted (what `re.sub(p, "", t)`
      does with the positions `p` matches). */
  function DeleteMarked(t: string, marked: seq<bool>): (r: string)
    ensures |r| <= |t|
    decreases |t|
  {
    if |t| == 0 then ""
    else
      var here := |marked| > 0 && marked[0];
      (if here then "" else [t[0]]) + DeleteMarked(t[1..], if |marked| > 0 then marked[1..] else [])
  }

  /** Each pattern in turn removes what it matches in the current text. */
  function RemovePatterns(t: string, patterns: seq<string>, matched: (string, string) -> seq<bool>): (r: string)
    ensures |r| <= |t|
    decreases |patterns|
  {
    if |patterns| == 0 then t
    else RemovePatterns(DeleteMarked(t, matched(patterns[0], t)), patterns[1..], matched)
  }

  /** `t.replace(word, "")`, the empty word included. */
  function Delete(t: string, word: string): (r: string)
    ensures |r| <= |t|
  {
    if |word| == 0 then InterleaveEmpty(t); PyReplace(t, word, "")
    else ReplaceShrinks(t, word); PyReplace(t, word, "")
  }

  lemma {:induction false} ReplaceShrinks(t: string, word: string)
    requires |word| > 0
    ensures |ReplaceAll(t, word, "")| <= |t|
    decreases |t|
  {
    if |t| > 0 {
      if word <= t {
        ReplaceShrinks(t[|word|..], word);
      } else {
        ReplaceShrinks(t[1..], word);
      }
    }
  }

  /** Each word in list order (longest first) is deleted from the text. */
  function RemoveWords(t: string, words: seq<string>): (r: string)
    ensures |r| <= |t|
    decreases |words|
  {
    if |words| == 0 then t else RemoveWords(Delete(t, words[0]), words[1..])
  }

  /** The value to anonymize: a string, or anything else. */
  datatype Value = Text(text: string) | Other(shown: string)

  /** `anonymize_text`: patterns, then words, then whitespace; anything
      but a string comes back unchanged. */
  function AnonymizeText(a: Anonymizer, v: Value, matched: (string, string) -> seq<bool>): (r: Value)
    ensures v.Other? ==> r == v
    ensures v.Text? ==> r.Text? && Trimmed(r.text) && Single(r.text) && |r.text| <= |v.text|
    ensures v == Text("") ==> r == Text("")
  {
    match v
    case Other(_) => v
    case Text(t) => Text(Normalise(RemoveWords(RemovePatterns(t, a.patterns, matched), a.words)))
  }

  /** With nothing to remove, anonymizing only normalises whitespace: every
      visible character survives in order, and a second pass changes
      nothing. */
  lemma NothingToRemove(t: string, patterns: seq<string>, matched: (string, string) -> seq<bool>)
    requires forall i :: 0 <= i < |patterns| ==> forall k :: 0 <= k < |matched(patterns[i], t)| ==> !matched(patterns[i], t)[k]
    ensures var r := AnonymizeText(Anonymizer([], patterns), Text(t), matched);
      r == Text(Normalise(t)) && Visible(r.text) == Visible(t)
      && AnonymizeText(Anonymizer([], []), r, matched) == r
  {
    NoMatchesKeep(t, patterns, matched);
    NormaliseVisible(t);
    NormaliseIdempotent(t);
  }

  lemma {:induction false} NoMatchesKeep(t: string, patterns: seq<string>, matched: (string, string) -> seq<bool>)
    requires forall i :: 0 <= i < |patterns| ==> forall k :: 0 <= k < |matched(patterns[i], t)| ==> !matched(patterns[i], t)[k]
    ensures RemovePatterns(t, patterns, matched) == t
    decreases |patterns|
  {
    if |patterns| > 0 {
      UnmarkedKept(t, matched(patterns[0], t));
      NoMatchesKeep(t, patterns[1..], matched);
    }
  }

  lemma {:induction false} UnmarkedKept(t: string, marked: seq<bool>)
    requires forall k :: 0 <= k < |marked| ==> !marked[k]
    ensures DeleteMarked(t, marked) == t
    decreases |t|
  {
    if |t| > 0 {
      UnmarkedKept(t[1..], if |marked| > 0 then marked[1..] else []);
    }
  }
}
