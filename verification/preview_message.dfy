/** The text protocol between change analysis and the upload routes: the
    processor renders the five preview counts into a fixed message, and the
    routes read them back with one regular expression per key. */
module PreviewMessage {
  import opened Common

  // ---------------------------------------------------------------------------
  // Matching `key\s*(\d+)\s*条`

  /** The longest run of decimal digits at the start of `s` (`\d+` is greedy). */
  function DigitRun(s: string): (r: string)
    ensures r <= s && AllDigits(r)
    ensures |r| < |s| ==> !IsDigit(s[|r|])
    decreases |s|
  {
    if |s| > 0 && IsDigit(s[0]) then [s[0]] + DigitRun(s[1..]) else []
  }

  /** The pattern anchored at the start of `s`: the key character by
      character, optional blanks when `gap` allows them, a digit run,
      optional blanks, then `条`. Backtracking cannot help: fewer digits or
      fewer blanks leave a digit or a blank where the next part needs
      something else. */
  function MatchAt(s: string, key: string, gap: bool): (r: Option<nat>)
    decreases |key|
  {
    if |key| == 0 then NumberThenUnit(if gap then StripLeft(s) else s)
    else if |s| > 0 && s[0] == key[0] then MatchAt(s[1..], key[1..], gap)
    else None
  }

  /** A match starts with the key. */
  lemma {:induction false} MatchStartsWithKey(s: string, key: string, gap: bool)
    requires MatchAt(s, key, gap).Some?
    ensures key <= s
    decreases |key|
  {
    if |key| > 0 {
      MatchStartsWithKey(s[1..], key[1..], gap);
    }
  }

  /** `(\d+)\s*条` at the start of `s`. */
  function NumberThenUnit(s: string): Option<nat> {
    var d := DigitRun(s);
    var rest := StripLeft(s[|d|..]);
    if |d| > 0 && |rest| > 0 && rest[0] == '条' then Some(DigitsValue(d)) else None
  }

  /** `re.search`: the match at the leftmost position where there is one. */
  function Search(s: string, key: string, gap: bool): (r: Option<nat>)
    decreases |s|
  {
    match MatchAt(s, key, gap)
    case Some(n) => Some(n)
    case None => if |s| == 0 then None else Search(s[1..], key, gap)
  }

  /** The search reports the first position that matches. */
  lemma {:induction false} SearchFirst(s: string, key: string, gap: bool) returns (i: nat)
    requires Search(s, key, gap).Some?
    ensures i <= |s| && MatchAt(s[i..], key, gap) == Search(s, key, gap)
    ensures forall j :: 0 <= j < i ==> MatchAt(s[j..], key, gap).None?
    decreases |s|
  {
    if MatchAt(s, key, gap).Some? {
      i := 0;
    } else {
      var k := SearchFirst(s[1..], key, gap);
      i := k + 1;
      assert s[i..] == s[1..][k..];
      forall j | 0 <= j < i ensures MatchAt(s[j..], key, gap).None? {
        if j > 0 {
          assert s[j..] == s[1..][j - 1..];
        }
      }
    }
  }

  /** No position matches when the search fails. */
  lemma {:induction false} SearchNone(s: string, key: string, gap: bool, j: nat)
    requires Search(s, key, gap).None? && j <= |s|
    ensures MatchAt(s[j..], key, gap).None?
    decreases |s|
  {
    if j > 0 {
      SearchNone(s[1..], key, gap, j - 1);
      assert s[j..] == s[1..][j - 1..];
    }
  }

  /** Text that cannot start the key can be skipped. */
  lemma {:induction false} SearchSkip(a: string, b: string, key: string, gap: bool)
    requires |key| > 0 && key[0] !in a
    ensures Search(a + b, key, gap) == Search(b, key, gap)
    decreases |a|
  {
    if |a| > 0 {
      assert (a + b)[0] == a[0];
      assert (a + b)[1..] == a[1..] + b;
      SearchSkip(a[1..], b, key, gap);
    } else {
      assert a + b == b;
    }
  }

  lemma {:induction false} DigitRunAppend(d: string, t: string)
    requires AllDigits(d)
    requires |t| == 0 || !IsDigit(t[0])
    ensures DigitRun(d + t) == d
    decreases |d|
  {
    if |d| > 0 {
      assert (d + t)[1..] == d[1..] + t;
      DigitRunAppend(d[1..], t);
    } else {
      assert d + t == t;
    }
  }

  /** How a rendered count reads back: `\d+` does not match a minus sign. */
  function Reading(x: int): Option<nat> {
    if x >= 0 then Some(x) else None
  }

  /** `str(x)` followed by a blank and `条` right after the key matches
      exactly when `x` is not negative, and then yields `x`. */
  lemma {:induction false} NumberAfterLabel(key: string, x: int, more: string, gap: bool)
    ensures MatchAt(Item(key, x) + more, key, gap) == Reading(x)
  {
    MatchItem(key, x, more, gap);
    if x >= 0 {
      NatThenUnit(x, " 条" + more);
    } else {
      NegativeThenUnit(x, " 条" + more);
    }
  }

  lemma {:induction false} MatchItem(key: string, x: int, more: string, gap: bool)
    ensures MatchAt(Item(key, x) + more, key, gap) == NumberThenUnit(IntStr(x) + (" 条" + more))
  {
    var t := IntStr(x) + (" 条" + more);
    Assoc4(key, IntStr(x), " 条", more);
    MatchAfterKey(key, t, gap);
    NumberStartsNonBlank(x, " 条" + more);
  }

  lemma NumberStartsNonBlank(x: int, more: string)
    ensures StripLeft(IntStr(x) + more) == IntStr(x) + more
  {
    var t := IntStr(x) + more;
    assert t[0] == IntStr(x)[0];
    StripLeftKeeps(t);
  }

  lemma NegativeThenUnit(x: int, more: string)
    requires x < 0
    ensures NumberThenUnit(IntStr(x) + more) == None
  {
    var t := IntStr(x) + more;
    assert t[0] == '-';
    assert DigitRun(t) == [];
  }

  lemma Assoc4(a: string, b: string, c: string, d: string)
    ensures a + b + c + d == a + (b + (c + d))
  {
  }

  /** After the key the rest of the pattern is tried on what follows it. */
  lemma {:induction false} MatchAfterKey(key: string, t: string, gap: bool)
    ensures MatchAt(key + t, key, gap) == NumberThenUnit(if gap then StripLeft(t) else t)
    decreases |key|
  {
    if |key| > 0 {
      assert (key + t)[1..] == key[1..] + t;
      MatchAfterKey(key[1..], t, gap);
    } else {
      assert key + t == t;
    }
  }

  lemma {:induction false} NatThenUnit(x: nat, after: string)
    requires |after| >= 2 && after[0] == ' ' && after[1] == '条'
    ensures NumberThenUnit(NatStr(x) + after) == Some(x)
  {
    var n := NatStr(x);
    var tail := n + after;
    DigitRunAppend(n, after);
    assert tail[|n|..] == after;
    StripLeftKeeps(after[1..]);
    NatStrRoundTrip(x);
  }

  /** Text that starts with a non-blank loses nothing to `lstrip`. */
  lemma StripLeftKeeps(s: string)
    requires |s| > 0 && !IsSpace(s[0])
    ensures StripLeft(s) == s
  {
  }

  /** A counted item of a message: a key, a rendered count, a blank and `条`. */
  function Item(key: string, x: int): string {
    key + IntStr(x) + " 条"
  }

  /** A character outside the key and outside a rendered count is not in
      the item. */
  lemma ItemAvoids(key: string, x: int, c: char)
    requires c !in key && !IsDigit(c) && c != '-' && c != ' ' && c != '条'
    ensures c !in Item(key, x)
  {
  }

  /** The search through `pre + key + str(x) + " 条" + more` finds `x`, or
      nothing when `x` is negative, if the key's first character occurs
      nowhere else. */
  lemma {:induction false} SearchNumber(pre: string, key: string, x: int, more: string, gap: bool)
    requires |key| > 0 && !IsDigit(key[0]) && key[0] != '-'
    requires key[0] !in pre && key[0] !in key[1..] && key[0] !in more
    requires key[0] != ' ' && key[0] != '条'
    ensures Search(pre + (Item(key, x) + more), key, gap) == Reading(x)
  {
    var s := Item(key, x) + more;
    NumberAfterLabel(key, x, more, gap);
    SearchSkip(pre, s, key, gap);
    if x < 0 {
      ItemTail(key, x, more);
      ItemAvoids(key[1..], x, key[0]);
      SearchAbsent(Item(key[1..], x) + more, key, gap);
      SearchStep(s, key, gap);
    } else {
      SearchHere(s, key, gap);
    }
  }

  lemma ItemTail(key: string, x: int, more: string)
    requires |key| > 0
    ensures (Item(key, x) + more)[1..] == Item(key[1..], x) + more
  {
  }

  /** A text without the key's first character holds no match. */
  lemma SearchAbsent(t: string, key: string, gap: bool)
    requires |key| > 0 && key[0] !in t
    ensures Search(t, key, gap) == None
  {
    SearchSkip(t, [], key, gap);
    assert t + [] == t;
  }

  lemma SearchHere(s: string, key: string, gap: bool)
    requires MatchAt(s, key, gap).Some?
    ensures Search(s, key, gap) == MatchAt(s, key, gap)
  {
  }

  /** Where nothing matches, the search moves on one character. */
  lemma SearchStep(s: string, key: string, gap: bool)
    requires |s| > 0 && MatchAt(s, key, gap).None?
    ensures Search(s, key, gap) == Search(s[1..], key, gap)
  {
  }

  // ---------------------------------------------------------------------------
  // The preview message

  const Header: string := "数据变更预览："
  const OriginalLabel: string := "原有数据："
  const UploadedLabel: string := "上传数据："
  const DuplicateLabel: string := "重复数据："
  const NewLabel: string := "实际新增："
  const FinalLabel: string := "变更后数据："
  const Question: string := "是否确认更新数据？"

  /** A line followed by a line break and the rest of the text. */
  function Line(line: string, rest: string): string {
    line + "\n" + rest
  }

  /** The preview text `analyze_changes` returns: the header, one counted
      item per line, a blank line and the question. */
  function PreviewText(original: int, uploaded: int, duplicate: int, added: int, final: int): string {
    Line(Header,
    Line(Item(OriginalLabel, original),
    Line(Item(UploadedLabel, uploaded),
    Line(Item(DuplicateLabel, duplicate),
    Line(Item(NewLabel, added),
    Line(Item(FinalLabel, final),
    Line("", Question)))))))
  }

  /** The statistics `parse_preview_message` returns. */
  datatype PreviewStats = PreviewStats(original: nat, uploaded: nat, duplicate: nat,
                                       added: nat, final: nat, total: nat)

  /** `parse_preview_message`: each count is the number after the first
      occurrence of its key, 0 when the key is not followed by one;
      the total repeats the final count. */
  function ParsePreview(msg: string): (r: PreviewStats)
    ensures r.total == r.final
    ensures Search(msg, FinalLabel, false).None? ==> r.final == 0
  {
    var final := Search(msg, FinalLabel, false).GetOr(0);
    PreviewStats(Search(msg, OriginalLabel, false).GetOr(0),
                 Search(msg, UploadedLabel, false).GetOr(0),
                 Search(msg, DuplicateLabel, false).GetOr(0),
                 Search(msg, NewLabel, false).GetOr(0),
                 final, final)
  }

  function Clamp(x: int): nat {
    if x >= 0 then x else 0
  }

  lemma Assoc3(a: string, b: string, c: string)
    ensures a + b + c == a + (b + c)
  {
  }

  /** A line without the key's first character is passed over. */
  lemma SkipLine(line: string, rest: string, key: string)
    requires |key| > 0 && key[0] !in line && key[0] != '\n'
    ensures Search(Line(line, rest), key, false) == Search(rest, key, false)
  {
    SearchSkip(line + "\n", rest, key, false);
  }

  /** A character in neither part nor the break is not in the text. */
  lemma LineAvoids(line: string, rest: string, c: char)
    requires c !in line && c != '\n' && c !in rest
    ensures c !in Line(line, rest)
  {
  }

  /** A line holding the key and a count, with the key's first character
      nowhere after it, yields the count. */
  lemma HitLine(key: string, x: int, rest: string)
    requires |key| > 0 && !IsDigit(key[0]) && key[0] !in "-\n 条"
    requires key[0] !in key[1..] && key[0] !in rest
    ensures Search(Line(Item(key, x), rest), key, false) == Reading(x)
  {
    Assoc3(Item(key, x), "\n", rest);
    assert Line(Item(key, x), rest) == [] + (Item(key, x) + ("\n" + rest));
    SearchNumber([], key, x, "\n" + rest, false);
  }

  /** The two closing lines hold no key character. */
  lemma ClosingAvoids(c: char)
    requires c in "原上重实变"
    ensures c !in Line("", Question)
  {
  }

  /** Parsing the preview text recovers every count, except that a negative
      count (the new count when the store already held duplicates) reads
      back as 0, and the total repeats the final count. */
  lemma PreviewRoundTrip(o: int, u: int, d: int, n: int, f: int)
    ensures ParsePreview(PreviewText(o, u, d, n, f)) ==
      PreviewStats(Clamp(o), Clamp(u), Clamp(d), Clamp(n), Clamp(f), Clamp(f))
  {
    OriginalCount(o, u, d, n, f);
    UploadedCount(o, u, d, n, f);
    DuplicateCount(o, u, d, n, f);
    NewCount(o, u, d, n, f);
    FinalCount(o, u, d, n, f);
    ParseFound(PreviewText(o, u, d, n, f), o, u, d, n, f);
  }

  /** The parsed statistics of a text whose five searches succeed. */
  lemma ParseFound(msg: string, o: int, u: int, d: int, n: int, f: int)
    requires Search(msg, OriginalLabel, false) == Reading(o)
    requires Search(msg, UploadedLabel, false) == Reading(u)
    requires Search(msg, DuplicateLabel, false) == Reading(d)
    requires Search(msg, NewLabel, false) == Reading(n)
    requires Search(msg, FinalLabel, false) == Reading(f)
    ensures ParsePreview(msg) == PreviewStats(Clamp(o), Clamp(u), Clamp(d), Clamp(n), Clamp(f), Clamp(f))
  {
  }

  /** The search for each key of the preview text finds that key's count. */
  lemma OriginalCount(o: int, u: int, d: int, n: int, f: int)
    ensures Search(PreviewText(o, u, d, n, f), OriginalLabel, false) == Reading(o)
  {
    var c := '原';
    ClosingAvoids(c);
    ItemAvoids(FinalLabel, f, c);
    LineAvoids(Item(FinalLabel, f), Line("", Question), c);
    var t5 := Line(Item(FinalLabel, f), Line("", Question));
    ItemAvoids(NewLabel, n, c);
    LineAvoids(Item(NewLabel, n), t5, c);
    var t4 := Line(Item(NewLabel, n), t5);
    ItemAvoids(DuplicateLabel, d, c);
    LineAvoids(Item(DuplicateLabel, d), t4, c);
    var t3 := Line(Item(DuplicateLabel, d), t4);
    ItemAvoids(UploadedLabel, u, c);
    LineAvoids(Item(UploadedLabel, u), t3, c);
    var t2 := Line(Item(UploadedLabel, u), t3);
    HitLine(OriginalLabel, o, t2);
    SkipLine(Header, Line(Item(OriginalLabel, o), t2), OriginalLabel);
  }

  lemma UploadedCount(o: int, u: int, d: int, n: int, f: int)
    ensures Search(PreviewText(o, u, d, n, f), UploadedLabel, false) == Reading(u)
  {
    var c := '上';
    ClosingAvoids(c);
    ItemAvoids(FinalLabel, f, c);
    LineAvoids(Item(FinalLabel, f), Line("", Question), c);
    var t5 := Line(Item(FinalLabel, f), Line("", Question));
    ItemAvoids(NewLabel, n, c);
    LineAvoids(Item(NewLabel, n), t5, c);
    var t4 := Line(Item(NewLabel, n), t5);
    ItemAvoids(DuplicateLabel, d, c);
    LineAvoids(Item(DuplicateLabel, d), t4, c);
    var t3 := Line(Item(DuplicateLabel, d), t4);
    HitLine(UploadedLabel, u, t3);
    var t2 := Line(Item(UploadedLabel, u), t3);
    ItemAvoids(OriginalLabel, o, c);
    SkipLine(Item(OriginalLabel, o), t2, UploadedLabel);
    SkipLine(Header, Line(Item(OriginalLabel, o), t2), UploadedLabel);
  }

  lemma DuplicateCount(o: int, u: int, d: int, n: int, f: int)
    ensures Search(PreviewText(o, u, d, n, f), DuplicateLabel, false) == Reading(d)
  {
    var c := '重';
    ClosingAvoids(c);
    ItemAvoids(FinalLabel, f, c);
    LineAvoids(Item(FinalLabel, f), Line("", Question), c);
    var t5 := Line(Item(FinalLabel, f), Line("", Question));
    ItemAvoids(NewLabel, n, c);
    LineAvoids(Item(NewLabel, n), t5, c);
    var t4 := Line(Item(NewLabel, n), t5);
    HitLine(DuplicateLabel, d, t4);
    var t3 := Line(Item(DuplicateLabel, d), t4);
    ItemAvoids(UploadedLabel, u, c);
    SkipLine(Item(UploadedLabel, u), t3, DuplicateLabel);
    var t2 := Line(Item(UploadedLabel, u), t3);
    ItemAvoids(OriginalLabel, o, c);
    SkipLine(Item(OriginalLabel, o), t2, DuplicateLabel);
    SkipLine(Header, Line(Item(OriginalLabel, o), t2), DuplicateLabel);
  }

  lemma NewCount(o: int, u: int, d: int, n: int, f: int)
    ensures Search(PreviewText(o, u, d, n, f), NewLabel, false) == Reading(n)
  {
    var c := '实';
    ClosingAvoids(c);
    ItemAvoids(FinalLabel, f, c);
    LineAvoids(Item(FinalLabel, f), Line("", Question), c);
    var t5 := Line(Item(FinalLabel, f), Line("", Question));
    HitLine(NewLabel, n, t5);
    var t4 := Line(Item(NewLabel, n), t5);
    ItemAvoids(DuplicateLabel, d, c);
    SkipLine(Item(DuplicateLabel, d), t4, NewLabel);
    var t3 := Line(Item(DuplicateLabel, d), t4);
    ItemAvoids(UploadedLabel, u, c);
    SkipLine(Item(UploadedLabel, u), t3, NewLabel);
    var t2 := Line(Item(UploadedLabel, u), t3);
    ItemAvoids(OriginalLabel, o, c);
    SkipLine(Item(OriginalLabel, o), t2, NewLabel);
    SkipLine(Header, Line(Item(OriginalLabel, o), t2), NewLabel);
  }

  /** The header holds the final key's first character, but one step before
      a character that differs from the key, so the search passes over it. */
  lemma FinalCount(o: int, u: int, d: int, n: int, f: int)
    ensures Search(PreviewText(o, u, d, n, f), FinalLabel, false) == Reading(f)
  {
    var c := '变';
    ClosingAvoids(c);
    HitLine(FinalLabel, f, Line("", Question));
    var t5 := Line(Item(FinalLabel, f), Line("", Question));
    ItemAvoids(NewLabel, n, c);
    SkipLine(Item(NewLabel, n), t5, FinalLabel);
    var t4 := Line(Item(NewLabel, n), t5);
    ItemAvoids(DuplicateLabel, d, c);
    SkipLine(Item(DuplicateLabel, d), t4, FinalLabel);
    var t3 := Line(Item(DuplicateLabel, d), t4);
    ItemAvoids(UploadedLabel, u, c);
    SkipLine(Item(UploadedLabel, u), t3, FinalLabel);
    var t2 := Line(Item(UploadedLabel, u), t3);
    ItemAvoids(OriginalLabel, o, c);
    SkipLine(Item(OriginalLabel, o), t2, FinalLabel);
    var t1 := Line(Item(OriginalLabel, o), t2);
    HeaderPassed(t1);
  }

  lemma HeaderPassed(rest: string)
    ensures Search(Line(Header, rest), FinalLabel, false) == Search(rest, FinalLabel, false)
  {
    var tail := "更预览：\n" + rest;
    assert Line(Header, rest) == "数据" + ("变" + tail);
    SearchSkip("数据", "变" + tail, FinalLabel, false);
    assert ("变" + tail)[1..] == tail;
    assert tail[1..] == "预览：\n" + rest;
    assert MatchAt(tail[1..], FinalLabel[2..], false).None?;
    assert MatchAt(tail, FinalLabel[1..], false).None?;
    assert MatchAt("变" + tail, FinalLabel, false).None?;
    SearchStep("变" + tail, FinalLabel, false);
    SearchSkip("更预览：\n", rest, FinalLabel, false);
  }

  // ---------------------------------------------------------------------------
  // The commit message

  const ImportedLabel: string := "成功导入"

  /** The message `save_changes` returns on success. */
  function CommitMessage(added: int): string {
    ImportedLabel + " " + IntStr(added) + " 条数据"
  }

  /** `re.search(r"成功导入\s*(\d+)\s*条", message)`: the count the confirm
      route reports, absent when there is no match. */
  function ImportedCount(msg: string): Option<nat> {
    Search(msg, ImportedLabel, true)
  }

  /** The confirm route reads back the count the commit reported, or finds
      none when it was negative. */
  lemma {:induction false} CommitRoundTrip(added: int)
    ensures ImportedCount(CommitMessage(added)) == Reading(added)
  {
    if added >= 0 {
      CommitRoundTripNat(added);
    } else {
      CommitRoundTripNegative(added);
    }
  }

  lemma CommitRoundTripNat(added: int)
    requires added >= 0
    ensures ImportedCount(CommitMessage(added)) == Reading(added)
  {
    var s := CommitMessage(added);
    CommitMatch(added);
    CountThenUnit(added);
    SearchHere(s, ImportedLabel, true);
  }

  lemma CountThenUnit(x: nat)
    ensures NumberThenUnit(IntStr(x) + " 条数据") == Some(x)
  {
    var after := " 条数据";
    assert after[0] == ' ' && after[1] == '条';
    NatThenUnit(x, after);
  }

  lemma CommitRoundTripNegative(added: int)
    requires added < 0
    ensures ImportedCount(CommitMessage(added)) == Reading(added)
  {
    CommitMatch(added);
    NegativeThenUnit(added, " 条数据");
    CommitTailAbsent(added);
    SearchStep(CommitMessage(added), ImportedLabel, true);
  }

  lemma CommitMatch(added: int)
    ensures MatchAt(CommitMessage(added), ImportedLabel, true) == NumberThenUnit(IntStr(added) + " 条数据")
  {
    var u := IntStr(added) + " 条数据";
    Assoc4(ImportedLabel, " ", IntStr(added), " 条数据");
    MatchAfterKey(ImportedLabel, " " + u, true);
    assert (" " + u)[1..] == u;
    NumberStartsNonBlank(added, " 条数据");
  }

  lemma CommitTailAbsent(added: int)
    ensures Search(CommitMessage(added)[1..], ImportedLabel, true) == None
  {
    var s := CommitMessage(added);
    var u := IntStr(added) + " 条数据";
    Assoc4(ImportedLabel, " ", IntStr(added), " 条数据");
    assert s[1..] == ImportedLabel[1..] + (" " + u);
    assert '成' !in IntStr(added);
    SearchAbsent(s[1..], ImportedLabel, true);
  }
}
