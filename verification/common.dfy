/** Shared vocabulary of the model: failure-compatible wrappers, spreadsheet
    cells, and the handful of Python string operations the pipeline relies on
    (`str.isspace`, `str.strip`, `str.lower`, `str.replace`, `str.split`,
    integer rendering and decimal digit parsing).
 */
module Common {

  /** The conventional Some/None datatype. */
  datatype Option<+T> = None | Some(value: T) {
    predicate IsFailure() { None? }
    function PropagateFailure<U>(): Option<U>
      requires None?
    {
      None
    }
    function Extract(): T
      requires Some?
    {
      value
    }
    function GetOr(default: T): T {
      match this
      case Some(v) => v
      case None => default
    }
  }

  /** A value or the error a Python call would have raised. */
  datatype Result<+T, +E> = Ok(value: T) | Err(error: E) {
    predicate IsFailure() { Err? }
    function PropagateFailure<U>(): Result<U, E>
      requires Err?
    {
      Err(error)
    }
    function Extract(): T
      requires Ok?
    {
      value
    }
  }

  /** One spreadsheet cell: missing (NaN / None / NaT) or text.  A non-text
      pandas value is represented by its `str()` rendering. */
  datatype Cell = Null | Str(s: string)

  /** A row maps column names to cells. */
  type Row = map<string, Cell>

  /** The cell a row holds under a column, `Null` when the column is absent
      (pandas pads missing columns with NaN when frames are concatenated). */
  function Get(r: Row, col: string): Cell {
    if col in r then r[col] else Null
  }

  /** `astype(str)`: text stays as it is, a missing cell becomes "nan". */
  function AsText(c: Cell): string {
    match c
    case Null => "nan"
    case Str(s) => s
  }

  /** The set of elements of a sequence. */
  function Elems<T>(s: seq<T>): set<T> {
    set x | x in s
  }

  /** No element occurs twice. */
  predicate NoDup<T(==)>(s: seq<T>) {
    forall i, j :: 0 <= i < j < |s| ==> s[i] != s[j]
  }

  // ---------------------------------------------------------------------------
  // Characters

  /** Python's `str.isspace()`: the characters `str.strip()` removes and the
      regular-expression class `\s` matches. */
  predicate IsSpace(c: char) {
    c == '\t' || c == '\n' || c == '\U{000B}' || c == '\U{000C}' || c == '\r'
    || ('\U{001C}' <= c <= '\U{001F}') || c == ' ' || c == '\U{0085}'
    || c == '\U{00A0}' || c == '\U{1680}' || ('\U{2000}' <= c <= '\U{200A}')
    || c == '\U{2028}' || c == '\U{2029}' || c == '\U{202F}' || c == '\U{205F}'
    || c == '\U{3000}'
  }

  /** A decimal digit (the regular-expression class `\d`, ASCII range). */
  predicate IsDigit(c: char) {
    '0' <= c <= '9'
  }

  predicate AllDigits(s: string) {
    forall i :: 0 <= i < |s| ==> IsDigit(s[i])
  }

  /** `str.lower()` on the ASCII letters. */
  function LowerChar(c: char): char {
    if 'A' <= c <= 'Z' then (c as int + 32) as char else c
  }

  function Lower(s: string): (r: string)
    ensures |r| == |s|
    ensures forall i :: 0 <= i < |s| ==> r[i] == LowerChar(s[i])
  {
    seq(|s|, i requires 0 <= i < |s| => LowerChar(s[i]))
  }

  // ---------------------------------------------------------------------------
  // Python's str.strip()

  function StripLeft(s: string): (r: string)
    ensures |r| <= |s| && r == s[|s| - |r|..]
    ensures |r| > 0 ==> !IsSpace(r[0])
    ensures forall i :: 0 <= i < |s| - |r| ==> IsSpace(s[i])
  {
    if |s| > 0 && IsSpace(s[0]) then StripLeft(s[1..]) else s
  }

  function StripRight(s: string): (r: string)
    ensures |r| <= |s| && r == s[..|r|]
    ensures |r| > 0 ==> !IsSpace(r[|r| - 1])
    ensures forall i :: |r| <= i < |s| ==> IsSpace(s[i])
  {
    if |s| > 0 && IsSpace(s[|s| - 1]) then StripRight(s[..|s| - 1]) else s
  }

  /** `str.strip()`: the longest infix of `s` that neither starts nor ends
      with whitespace, obtained by cutting whitespace off both ends. */
  function Strip(s: string): (r: string)
    ensures |r| <= |s|
    ensures |r| > 0 ==> !IsSpace(r[0]) && !IsSpace(r[|r| - 1])
    ensures |s| - |StripLeft(s)| + |r| <= |s|
    ensures r == s[|s| - |StripLeft(s)|..|s| - |StripLeft(s)| + |r|]
  {
    StripInfix(s);
    StripRight(StripLeft(s))
  }

  lemma StripInfix(s: string)
    ensures |s| - |StripLeft(s)| + |StripRight(StripLeft(s))| <= |s|
    ensures StripRight(StripLeft(s)) == s[|s| - |StripLeft(s)|..|s| - |StripLeft(s)| + |StripRight(StripLeft(s))|]
    ensures |StripRight(StripLeft(s))| > 0 ==> !IsSpace(StripRight(StripLeft(s))[0])
  {
    var left := StripLeft(s);
    var r := StripRight(left);
    var k := |s| - |left|;
    assert r == left[..|r|] && left == s[k..];
    assert s[k..][..|r|] == s[k..k + |r|];
    if |r| > 0 {
      assert r[0] == left[0];
    }
  }

  /** Text that `strip()` leaves alone. */
  predicate Trimmed(s: string) {
    |s| > 0 ==> !IsSpace(s[0]) && !IsSpace(s[|s| - 1])
  }

  lemma StripTrimmed(s: string)
    requires Trimmed(s)
    ensures StripLeft(s) == s && Strip(s) == s
  {
  }

  // ---------------------------------------------------------------------------
  // Substrings and Python's str.replace

  /** `needle in hay`, scanning left to right. */
  predicate Contains(hay: string, needle: string)
    decreases |hay|
  {
    needle <= hay || (|hay| > 0 && Contains(hay[1..], needle))
  }

  /** `hay.replace(pat, rep)` for a non-empty pattern: non-overlapping
      occurrences replaced from left to right. */
  function ReplaceAll(hay: string, pat: string, rep: string): string
    requires |pat| > 0
    decreases |hay|
  {
    if |hay| == 0 then []
    else if pat <= hay then rep + ReplaceAll(hay[|pat|..], pat, rep)
    else [hay[0]] + ReplaceAll(hay[1..], pat, rep)
  }

  /** Python's `str.replace` including the empty pattern, which inserts the
      replacement between every two characters and at both ends. */
  function PyReplace(hay: string, pat: string, rep: string): string {
    if |pat| == 0 then Interleave(hay, rep) else ReplaceAll(hay, pat, rep)
  }

  function Interleave(s: string, rep: string): string
    decreases |s|
  {
    if |s| == 0 then rep else rep + [s[0]] + Interleave(s[1..], rep)
  }

  /** Replacing the empty pattern by the empty text changes nothing. */
  lemma {:induction false} InterleaveEmpty(s: string)
    ensures Interleave(s, "") == s
    decreases |s|
  {
    if |s| > 0 {
      InterleaveEmpty(s[1..]);
    }
  }

  /** When the needle starts with a character absent from `a`, no occurrence
      can start inside `a`. */
  lemma {:induction false} ContainsSkip(a: string, b: string, needle: string)
    requires |needle| > 0 && needle[0] !in a
    ensures Contains(a + b, needle) == Contains(b, needle)
    decreases |a|
  {
    if |a| > 0 {
      assert (a + b)[0] == a[0];
      assert !(needle <= a + b);
      assert (a + b)[1..] == a[1..] + b;
      ContainsSkip(a[1..], b, needle);
    } else {
      assert a + b == b;
    }
  }

  /** If the replaced text starts with `q`, whose characters never occur in
      the replacement, then so did the original. */
  lemma {:induction false} ReplacePrefixKept(t: string, pat: string, rep: string, q: string)
    requires |pat| > 0 && |rep| > 0
    requires forall c :: c in q ==> c !in rep
    requires q <= ReplaceAll(t, pat, rep)
    ensures q <= t
    decreases |t|
  {
    if |q| > 0 && |t| > 0 {
      ReplaceFirstChar(t, pat, rep);
      assert q[0] in q;
      assert !(pat <= t);
      var tail := ReplaceAll(t[1..], pat, rep);
      assert ReplaceAll(t, pat, rep) == [t[0]] + tail;
      assert q[1..] <= tail;
      forall c | c in q[1..] ensures c !in rep {
        assert c in q;
      }
      ReplacePrefixKept(t[1..], pat, rep, q[1..]);
    }
  }

  /** The replaced text starts with the replacement where the pattern
      matches at the front, and with the original first character otherwise. */
  lemma ReplaceFirstChar(t: string, pat: string, rep: string)
    requires |pat| > 0 && |rep| > 0 && |t| > 0
    ensures |ReplaceAll(t, pat, rep)| > 0
    ensures ReplaceAll(t, pat, rep)[0] == if pat <= t then rep[0] else t[0]
  {
  }

  /** Replacing with text that shares no character with `q` cannot create an
      occurrence of `q`. */
  lemma {:induction false} ReplaceCreatesNothing(hay: string, pat: string, rep: string, q: string)
    requires |pat| > 0 && |rep| > 0 && |q| > 0
    requires forall c :: c in q ==> c !in rep
    requires !Contains(hay, q)
    ensures !Contains(ReplaceAll(hay, pat, rep), q)
    decreases |hay|
  {
    if |hay| == 0 {
    } else if pat <= hay {
      assert q[0] in q;
      NotContainsSuffix(hay, |pat|, q);
      ReplaceCreatesNothing(hay[|pat|..], pat, rep, q);
      ContainsSkip(rep, ReplaceAll(hay[|pat|..], pat, rep), q);
    } else {
      var tail := ReplaceAll(hay[1..], pat, rep);
      assert ReplaceAll(hay, pat, rep) == [hay[0]] + tail;
      assert !Contains(hay[1..], q) && !(q <= hay);
      ReplaceCreatesNothing(hay[1..], pat, rep, q);
      KeptHeadNoMatch(hay, pat, rep, q);
      assert ([hay[0]] + tail)[1..] == tail;
    }
  }

  /** An occurrence of `q` after a kept first character was already
      there in the original text. */
  lemma KeptHeadNoMatch(hay: string, pat: string, rep: string, q: string)
    requires |pat| > 0 && |rep| > 0 && |q| > 0 && |hay| > 0
    requires forall c :: c in q ==> c !in rep
    ensures q <= [hay[0]] + ReplaceAll(hay[1..], pat, rep) ==> q <= hay
  {
    var tail := ReplaceAll(hay[1..], pat, rep);
    if q <= [hay[0]] + tail {
      forall c | c in q[1..] ensures c !in rep {
        assert c in q;
      }
      assert q[1..] <= tail;
      ReplacePrefixKept(hay[1..], pat, rep, q[1..]);
      assert q[0] == hay[0];
      assert q == [q[0]] + q[1..] && hay == [hay[0]] + hay[1..];
    }
  }

  /** A suffix of a text without `q` is without `q`. */
  lemma {:induction false} NotContainsSuffix(hay: string, k: nat, q: string)
    requires k <= |hay|
    requires !Contains(hay, q)
    ensures !Contains(hay[k..], q)
    decreases k
  {
    if k > 0 {
      NotContainsSuffix(hay[1..], k - 1, q);
      assert hay[1..][k - 1..] == hay[k..];
    }
  }

  /** Replacing a pattern by text that shares no character with it leaves no
      occurrence of the pattern behind. */
  lemma {:induction false} ReplaceRemovesAll(hay: string, pat: string, rep: string)
    requires |pat| > 0 && |rep| > 0
    requires forall c :: c in pat ==> c !in rep
    ensures !Contains(ReplaceAll(hay, pat, rep), pat)
    decreases |hay|
  {
    if |hay| == 0 {
    } else if pat <= hay {
      assert pat[0] in pat;
      ReplaceRemovesAll(hay[|pat|..], pat, rep);
      ContainsSkip(rep, ReplaceAll(hay[|pat|..], pat, rep), pat);
    } else {
      var tail := ReplaceAll(hay[1..], pat, rep);
      assert ReplaceAll(hay, pat, rep) == [hay[0]] + tail;
      ReplaceRemovesAll(hay[1..], pat, rep);
      if pat <= [hay[0]] + tail {
        forall c | c in pat[1..] ensures c !in rep {
          assert c in pat;
        }
        ReplacePrefixKept(hay[1..], pat, rep, pat[1..]);
        assert false;
      }
      assert ([hay[0]] + tail)[1..] == tail;
    }
  }

  /** A text without the pattern is returned unchanged. */
  lemma {:induction false} ReplaceAbsent(hay: string, pat: string, rep: string)
    requires |pat| > 0 && !Contains(hay, pat)
    ensures ReplaceAll(hay, pat, rep) == hay
    decreases |hay|
  {
    if |hay| > 0 {
      ReplaceAbsent(hay[1..], pat, rep);
      assert [hay[0]] + hay[1..] == hay;
    }
  }

  // ---------------------------------------------------------------------------
  // Python's str.split(sep) with a one-character separator

  function Split(s: string, sep: char): (r: seq<string>)
    ensures |r| > 0
    ensures forall i :: 0 <= i < |r| ==> sep !in r[i]
    decreases |s|
  {
    if |s| == 0 then [""]
    else
      var rest := Split(s[1..], sep);
      if s[0] == sep then [""] + rest else [[s[0]] + rest[0]] + rest[1..]
  }

  /** `sep.join(parts)` */
  function Join(parts: seq<string>, sep: string): string {
    if |parts| == 0 then ""
    else if |parts| == 1 then parts[0]
    else parts[0] + sep + Join(parts[1..], sep)
  }

  /** Splitting and re-joining with the same separator gives the text back. */
  lemma {:induction false} SplitJoin(s: string, sep: char)
    ensures Join(Split(s, sep), [sep]) == s
    decreases |s|
  {
    if |s| > 0 {
      SplitJoin(s[1..], sep);
      var rest := Split(s[1..], sep);
      if s[0] != sep {
        if |rest| > 1 {
          assert Join(rest, [sep]) == rest[0] + [sep] + Join(rest[1..], [sep]);
        }
      }
    }
  }

  /** A text without the separator is a single part. */
  lemma {:induction false} SplitNoSep(a: string, sep: char)
    requires sep !in a
    ensures Split(a, sep) == [a]
    decreases |a|
  {
    if |a| > 0 {
      SplitNoSep(a[1..], sep);
      assert [a[0]] + a[1..] == a;
    }
  }

  /** The text before the first separator is the first part. */
  lemma {:induction false} SplitCons(a: string, sep: char, b: string)
    requires sep !in a
    ensures Split(a + [sep] + b, sep) == [a] + Split(b, sep)
    decreases |a|
  {
    var s := a + [sep] + b;
    if |a| == 0 {
      assert s[1..] == b;
    } else {
      assert s[1..] == a[1..] + [sep] + b;
      SplitCons(a[1..], sep, b);
      assert [a[0]] + a[1..] == a;
    }
  }

  /** Joining parts that do not contain the separator and splitting again
      gives the parts back. */
  lemma {:induction false} JoinSplit(parts: seq<string>, sep: char)
    requires |parts| > 0
    requires forall i :: 0 <= i < |parts| ==> sep !in parts[i]
    ensures Split(Join(parts, [sep]), sep) == parts
    decreases |parts|
  {
    if |parts| == 1 {
      SplitNoSep(parts[0], sep);
    } else {
      var rest := Join(parts[1..], [sep]);
      assert Join(parts, [sep]) == parts[0] + [sep] + rest;
      JoinSplit(parts[1..], sep);
      SplitCons(parts[0], sep, rest);
      assert [parts[0]] + parts[1..] == parts;
    }
  }

  /** Texts with the same parts are the same text. */
  lemma SplitInjective(s: string, t: string, sep: char)
    requires Split(s, sep) == Split(t, sep)
    ensures s == t
  {
    SplitJoin(s, sep);
    SplitJoin(t, sep);
  }

  // ---------------------------------------------------------------------------
  // Decimal numbers

  function DigitValue(c: char): nat
    requires IsDigit(c)
  {
    c as int - '0' as int
  }

  /** Python's `int()` on a non-empty run of decimal digits. */
  function DigitsValue(s: string): nat
    requires AllDigits(s)
    decreases |s|
  {
    if |s| == 0 then 0 else DigitsValue(s[..|s| - 1]) * 10 + DigitValue(s[|s| - 1])
  }

  function DigitChar(d: nat): char
    requires d < 10
  {
    ('0' as int + d) as char
  }

  /** `str(n)` for a natural number: shortest decimal rendering. */
  function NatStr(n: nat): (r: string)
    ensures |r| > 0 && AllDigits(r)
    decreases n
  {
    if n < 10 then [DigitChar(n)] else NatStr(n / 10) + [DigitChar(n % 10)]
  }

  /** `str(n)` for any integer (a minus sign for negatives). */
  function IntStr(n: int): (r: string)
    ensures |r| > 0
    ensures forall c :: c in r ==> IsDigit(c) || c == '-'
  {
    if n >= 0 then NatStr(n) else "-" + NatStr(-n)
  }

  /** Parsing the rendering of a number gives the number back. */
  lemma {:induction false} NatStrRoundTrip(n: nat)
    ensures DigitsValue(NatStr(n)) == n
    decreases n
  {
    if n >= 10 {
      NatStrRoundTrip(n / 10);
      var s := NatStr(n);
      assert s[..|s| - 1] == NatStr(n / 10);
    }
  }

  /** `str(n).zfill(width)` for text without a sign: left-padded with zeros. */
  function ZFill(s: string, width: nat): (r: string)
    ensures |r| == if |s| >= width then |s| else width
    ensures r[|r| - |s|..] == s
    ensures forall i :: 0 <= i < |r| - |s| ==> r[i] == '0'
  {
    if |s| >= width then s else Zeros(width - |s|) + s
  }

  function Zeros(n: nat): (r: string)
    ensures |r| == n && forall i :: 0 <= i < n ==> r[i] == '0'
  {
    if n == 0 then [] else "0" + Zeros(n - 1)
  }

  /** Zero-padded rendering of a natural number to at least `width` digits. */
  function PadNat(n: nat, width: nat): (r: string)
    ensures AllDigits(r) && |r| >= width
  {
    ZFill(NatStr(n), width)
  }

  /** Leading zeros do not change a decimal value. */
  lemma {:induction false} LeadingZeros(k: nat, s: string)
    requires AllDigits(s)
    ensures AllDigits(Zeros(k) + s)
    ensures DigitsValue(Zeros(k) + s) == DigitsValue(s)
    decreases |s|
  {
    var z := Zeros(k) + s;
    assert AllDigits(z) by {
      forall i | 0 <= i < |z| ensures IsDigit(z[i]) {
        if i < k { assert z[i] == Zeros(k)[i]; } else { assert z[i] == s[i - k]; }
      }
    }
    if |s| == 0 {
      assert z == Zeros(k);
      ZerosValue(k);
    } else {
      var init := s[..|s| - 1];
      LeadingZeros(k, init);
      assert z[..|z| - 1] == Zeros(k) + init;
      assert z[|z| - 1] == s[|s| - 1];
    }
  }

  lemma {:induction false} ZerosValue(k: nat)
    ensures DigitsValue(Zeros(k)) == 0
    decreases k
  {
    if k > 0 {
      ZerosValue(k - 1);
      assert Zeros(k) == Zeros(k - 1) + "0" by { ZerosSnoc(k); }
      assert Zeros(k)[..k - 1] == Zeros(k - 1);
    }
  }

  lemma ZerosSnoc(k: nat)
    requires k > 0
    ensures Zeros(k) == Zeros(k - 1) + "0"
  {
    var a := Zeros(k);
    var b := Zeros(k - 1) + "0";
    assert |a| == |b|;
    forall i | 0 <= i < k ensures a[i] == b[i] {
      if i < k - 1 { assert b[i] == Zeros(k - 1)[i]; }
    }
  }


  /** Zero-filling keeps a decimal value. */
  lemma ZFillValue(s: string, width: nat)
    requires AllDigits(s)
    ensures AllDigits(ZFill(s, width)) && DigitsValue(ZFill(s, width)) == DigitsValue(s)
  {
    if |s| < width {
      LeadingZeros(width - |s|, s);
    }
  }
}
