/** The data backup script: the decision whether to back up, the record of
    past backups it reads, the retention of the newest backup directories,
    the naming of a new directory, and the outcome of one backup run.  The
    file system, the clock and the size of the data directory are inputs. */
module BackupManager {
  import opened Common
  import opened Sequences
  import opened LexOrder
  import opened Dates

  // ---------------------------------------------------------------------------
  // Backup records

  /** One entry of the record file: its timestamp in seconds (`None` when it
      is missing or not an ISO timestamp), whether its status is "success",
      and its `data_size`, if it has one. */
  datatype Record = Record(stamp: Option<int>, success: bool, dataSize: Option<int>)

  predicate Sized(r: Record) {
    r.success && r.dataSize.Some?
  }

  /** `get_last_backup_size`: the size of the latest successful record that
      carries one, else 0. */
  function LastBackupSize(records: seq<Record>): (size: int)
    ensures size != 0 ==> exists i :: 0 <= i < |records| && Sized(records[i]) && records[i].dataSize == Some(size)
    decreases |records|
  {
    if |records| == 0 then 0
    else
      var last := records[|records| - 1];
      if Sized(last) then last.dataSize.value
      else
        var size := LastBackupSize(records[..|records| - 1]);
        assert size != 0 ==> exists i :: 0 <= i < |records| && Sized(records[i]) && records[i].dataSize == Some(size) by {
          if size != 0 {
            var i :| 0 <= i < |records| - 1 && Sized(records[..|records| - 1][i])
              && records[..|records| - 1][i].dataSize == Some(size);
            assert records[i] == records[..|records| - 1][i];
          }
        }
        size
  }

  /** The size read is the one of the last sized successful record. */
  lemma {:induction false} LastBackupSizeIs(records: seq<Record>, i: nat)
    requires i < |records| && Sized(records[i])
    requires forall j :: i < j < |records| ==> !Sized(records[j])
    ensures LastBackupSize(records) == records[i].dataSize.value
    decreases |records|
  {
    if i < |records| - 1 {
      var init := records[..|records| - 1];
      assert init[i] == records[i];
      assert forall j :: i < j < |init| ==> init[j] == records[j];
      LastBackupSizeIs(init, i);
    }
  }

  /** The timestamp of the latest successful record: `Ok(None)` when there
      is none, an error when it cannot be read. */
  function LastSuccessStamp(records: seq<Record>): (r: Result<Option<int>, string>)
    ensures r == Ok(None) <==> forall i :: 0 <= i < |records| ==> !records[i].success
    decreases |records|
  {
    if |records| == 0 then Ok(None)
    else
      var last := records[|records| - 1];
      if last.success then
        (match last.stamp
         case None => Err("invalid timestamp")
         case Some(t) => Ok(Some(t)))
      else
        var init := records[..|records| - 1];
        assert forall i :: 0 <= i < |init| ==> init[i] == records[i];
        LastSuccessStamp(init)
  }

  const SecondsPerDay: int := 86400

  /** `(now - earlier).days`: whole days, rounded down. */
  function DaysSince(now: int, earlier: int): (days: int)
    ensures days * SecondsPerDay <= now - earlier < (days + 1) * SecondsPerDay
  {
    (now - earlier) / SecondsPerDay
  }

  // ---------------------------------------------------------------------------
  // should_backup_based_on_size

  /** Whether to back up, given the current data size, the records, the
      current time and the minimum interval.  An unreadable timestamp on
      the latest successful record raises, and any error answers `false`. */
  function ShouldBackup(current: int, records: seq<Record>, now: int, minDays: int): (r: bool)
    ensures current == 0 ==> !r
    ensures current != 0 && LastBackupSize(records) == 0 ==> r
    ensures r && current != LastBackupSize(records) ==> LastSuccessStamp(records).Ok? || LastBackupSize(records) == 0
  {
    if current == 0 then false
    else
      var last := LastBackupSize(records);
      if last == 0 then true
      else
        var sizeChanged := current != last;
        match LastSuccessStamp(records)
        case Err(_) => false
        case Ok(stamp) =>
          var intervalReached := stamp.Some? && DaysSince(now, stamp.value) >= minDays;
          sizeChanged || intervalReached
  }

  /** With a readable latest timestamp, a changed size always triggers a
      backup, and an unchanged one triggers it exactly when the interval has
      passed. */
  lemma ShouldBackupMeaning(current: int, records: seq<Record>, now: int, minDays: int, t: int)
    requires current != 0 && LastBackupSize(records) != 0
    requires LastSuccessStamp(records) == Ok(Some(t))
    ensures current != LastBackupSize(records) ==> ShouldBackup(current, records, now, minDays)
    ensures current == LastBackupSize(records) ==>
      (ShouldBackup(current, records, now, minDays) <==> now - t >= minDays * SecondsPerDay)
  {
    DaysBound(now - t, minDays);
  }

  /** Whole days reach `k` exactly when the seconds reach `k` days. */
  lemma DaysBound(seconds: int, k: int)
    ensures seconds / SecondsPerDay >= k <==> seconds >= k * SecondsPerDay
  {
    var q := seconds / SecondsPerDay;
    var m := seconds % SecondsPerDay;
    assert seconds == q * SecondsPerDay + m && 0 <= m < SecondsPerDay;
    assert q * SecondsPerDay - k * SecondsPerDay == (q - k) * SecondsPerDay;
  }

  /** An unreadable timestamp on the latest successful record stops the
      backup even when the size changed. */
  lemma UnreadableStampBlocks(current: int, records: seq<Record>, now: int, minDays: int)
    requires current != 0 && LastBackupSize(records) != 0
    requires |records| > 0 && records[|records| - 1].success && records[|records| - 1].stamp.None?
    ensures !ShouldBackup(current, records, now, minDays)
  {
  }

  // ---------------------------------------------------------------------------
  // cleanup_old_backups

  /** A backup directory and its creation time. */
  datatype Dir = Dir(created: int, name: string)

  /** Python's order on the `(created, path)` pairs of the directories of
      one backup root: the creation time first, then the directory name,
      code point by code point. */
  predicate AtMost(a: Dir, b: Dir) {
    a.created < b.created || (a.created == b.created && LexLe(a.name, b.name))
  }

  /** The order of `sort(reverse=True)`: newest first, and of directories
      created at the same time the greater name first. */
  function NewerFirst(): (Dir, Dir) -> bool {
    (a: Dir, b: Dir) => AtMost(b, a)
  }

  lemma NewerFirstPreorder()
    ensures TotalPreorder(NewerFirst())
  {
    forall a: Dir, b: Dir ensures AtMost(a, b) || AtMost(b, a) {
      LexTotal(a.name, b.name);
    }
    forall a: Dir, b: Dir, c: Dir | AtMost(a, b) && AtMost(b, c) ensures AtMost(a, c) {
      if a.created == b.created == c.created {
        LexTrans(a.name, b.name, c.name);
      }
    }
  }

  /** Python's slice bound `k` on a list of length `n`. */
  function SliceBound(k: int, n: nat): (r: nat)
    ensures r <= n
    ensures k >= 0 ==> r == if k < n then k else n
  {
    if k >= 0 then (if k < n then k else n) else if n + k >= 0 then n + k else 0
  }

  /** The directories kept and the ones deleted: the first `keep` of the
      list sorted newest first, ties going to the greater name. */
  function Retain(dirs: seq<Dir>, keep: int): (r: (seq<Dir>, seq<Dir>))
    ensures multiset(r.0 + r.1) == multiset(dirs)
    ensures |r.0| == SliceBound(keep, |dirs|)
    ensures keep >= 0 ==> |r.0| == if keep < |dirs| then keep else |dirs|
    ensures forall i, j :: 0 <= i < |r.0| && 0 <= j < |r.1| ==> AtMost(r.1[j], r.0[i])
    ensures forall i, j :: 0 <= i < |r.0| && 0 <= j < |r.1| ==> r.0[i].created >= r.1[j].created
  {
    NewerFirstPreorder();
    SortOrdered(dirs, NewerFirst());
    var sorted := SortBy(dirs, NewerFirst());
    var k := SliceBound(keep, |sorted|);
    assert sorted[..k] + sorted[k..] == sorted;
    SplitOrdered(sorted, k, NewerFirst());
    (sorted[..k], sorted[k..])
  }

  /** Of two directories created in the same second, keeping one keeps the
      one named later, a run's `_HHMMSS` directory over the day's first,
      whatever order the listing gives them in. */
  lemma RetainTieBreak(t: int, listing: seq<Dir>)
    requires multiset(listing) == multiset{Dir(t, "20240105"), Dir(t, "20240105_093000")}
    ensures Retain(listing, 1) == ([Dir(t, "20240105_093000")], [Dir(t, "20240105")])
  {
    var first: string := "20240105";
    var later: string := "20240105_093000";
    assert first == later[..8];
    LexPrefix(first, later);
    RetainOfTwo(Dir(t, first), Dir(t, later), listing);
  }

  /** Keeping one of two directories keeps the greater, whatever order the
      listing gives them in. */
  lemma RetainOfTwo(lesser: Dir, greater: Dir, listing: seq<Dir>)
    requires !AtMost(greater, lesser)
    requires multiset(listing) == multiset{lesser, greater}
    ensures Retain(listing, 1) == ([greater], [lesser])
  {
    assert |listing| == 2 by {
      assert |multiset(listing)| == 2;
    }
    var r := Retain(listing, 1);
    KeepsGreater(r.0, r.1, lesser, greater);
  }

  /** A split of two directories into one kept and the rest, with nothing
      kept below anything dropped, keeps the greater. */
  lemma KeepsGreater(kept: seq<Dir>, dropped: seq<Dir>, lesser: Dir, greater: Dir)
    requires !AtMost(greater, lesser)
    requires |kept| == 1 && multiset(kept + dropped) == multiset{lesser, greater}
    requires forall i, j :: 0 <= i < |kept| && 0 <= j < |dropped| ==> AtMost(dropped[j], kept[i])
    ensures kept == [greater] && dropped == [lesser]
  {
    assert |kept + dropped| == 2 by {
      assert |multiset(kept + dropped)| == 2;
    }
    assert kept + dropped == [kept[0], dropped[0]];
    PairOf(kept[0], dropped[0], lesser, greater);
    assert AtMost(dropped[0], kept[0]);
  }

  /** Two multisets of two elements agree exactly when the elements do, in
      some order. */
  lemma PairOf<T>(x: T, y: T, a: T, b: T)
    requires multiset{x, y} == multiset{a, b}
    ensures (x == a && y == b) || (x == b && y == a)
  {
    assert x in multiset{a, b};
    if x == a {
      assert multiset{x, y} - multiset{x} == multiset{a, b} - multiset{a};
      assert multiset{y} == multiset{b};
      assert y in multiset{b};
    } else {
      assert x == b;
      assert multiset{x, y} - multiset{x} == multiset{a, b} - multiset{b};
      assert multiset{y} == multiset{a};
      assert y in multiset{a};
    }
  }

  // ---------------------------------------------------------------------------
  // _create_backup_directory

  /** A reading of the wall clock. */
  datatype Clock = Clock(day: Date, hour: nat, minute: nat, second: nat)

  /** `strftime("%Y%m%d")`. */
  function DayStamp(d: Date): string {
    PadNat(d.year, 4) + PadNat(d.month, 2) + PadNat(d.day, 2)
  }

  /** `strftime("%H%M%S")`. */
  function TimeStamp(c: Clock): string {
    PadNat(c.hour, 2) + PadNat(c.minute, 2) + PadNat(c.second, 2)
  }

  /** The new directory's name: the day, or the day and the time when a
      directory for the day exists already.  The day and the time come
      from two readings of the clock. */
  function BackupDirName(today: Date, later: Clock, existing: set<string>): (name: string)
    ensures DayStamp(today) <= name
    ensures name == DayStamp(today) <==> DayStamp(today) !in existing
  {
    var day := DayStamp(today);
    if day in existing then
      assert |day + "_" + TimeStamp(later)| > |day|;
      day + "_" + TimeStamp(later)
    else day
  }

  /** Reads a `%Y%m%d` stamp back. */
  function ReadDayStamp(s: string): Option<Date> {
    if |s| == 8 && AllDigits(s) then
      assert AllDigits(s[..4]) && AllDigits(s[4..6]) && AllDigits(s[6..]) by {
        assert forall i :: 0 <= i < 4 ==> s[..4][i] == s[i];
        assert forall i :: 0 <= i < 2 ==> s[4..6][i] == s[4 + i] && s[6..][i] == s[6 + i];
      }
      Some(Date(DigitsValue(s[..4]), DigitsValue(s[4..6]), DigitsValue(s[6..])))
    else None
  }

  /** The day stamp is eight digits from which the day reads back. */
  lemma DayStampRoundTrip(d: Date)
    requires Fits(d)
    ensures ReadDayStamp(DayStamp(d)) == Some(d)
  {
    FieldWidths(d);
    var y, m, dd := PadNat(d.year, 4), PadNat(d.month, 2), PadNat(d.day, 2);
    ReadSplit(y, m, dd);
    PadNatValue(d.year, 4);
    PadNatValue(d.month, 2);
    PadNatValue(d.day, 2);
  }

  /** Reading eight digits splits them into fields of four, two and two. */
  lemma ReadSplit(y: string, m: string, dd: string)
    requires |y| == 4 && |m| == 2 && |dd| == 2
    requires AllDigits(y) && AllDigits(m) && AllDigits(dd)
    ensures ReadDayStamp(y + m + dd) == Some(Date(DigitsValue(y), DigitsValue(m), DigitsValue(dd)))
  {
    var s := y + m + dd;
    assert s[..4] == y && s[4..6] == m && s[6..] == dd;
    assert AllDigits(s) by {
      forall i | 0 <= i < 8 ensures IsDigit(s[i]) {
        if i < 4 { assert s[i] == y[i]; } else if i < 6 { assert s[i] == m[i - 4]; } else { assert s[i] == dd[i - 6]; }
      }
    }
  }

  // ---------------------------------------------------------------------------
  // create_backup

  /** The source directory: missing, or present with its entries. */
  datatype Source = Missing | Present(items: seq<string>)

  /** The backup directories that exist and the record file's entries. */
  datatype Store = Store(dirs: set<string>, records: seq<Record>)

  /** `create_backup`.  `copied` is what copying reports: the number of
      entries copied, or an error; `size` is the data size measured when the
      record is written at time `now`, and `recordSaved` whether writing the
      record file succeeded (its failure is only logged). */
  function CreateBackup(st: Store, source: Source, today: Date, later: Clock, copied: Result<nat, string>,
                        now: int, size: int, recordSaved: bool): (r: (Store, bool))
    ensures source.Missing? || |source.items| == 0 ==> r == (st, false)
    ensures r.1 ==> copied.Ok? && copied.value > 0
    ensures r.1 ==> BackupDirName(today, later, st.dirs) in r.0.dirs
    ensures source.Present? && |source.items| > 0 && copied == Ok(0) ==>
      BackupDirName(today, later, st.dirs) !in r.0.dirs && !r.1
    ensures forall d :: d in st.dirs && d != BackupDirName(today, later, st.dirs) ==> d in r.0.dirs
    ensures forall d :: d in r.0.dirs && d != BackupDirName(today, later, st.dirs) ==> d in st.dirs
  {
    if source.Missing? || |source.items| == 0 then (st, false)
    else
      var name := BackupDirName(today, later, st.dirs);
      var dirs := st.dirs + {name};
      match copied
      case Err(_) => (Store(dirs, st.records), false)
      case Ok(count) =>
        if count == 0 then (Store(dirs - {name}, st.records), false)
        else
          var records := if recordSaved then st.records + [Record(Some(now), true, Some(size))] else st.records;
          (Store(dirs, records), true)
  }

  /** Right after a recorded backup, the recorded size is the last size,
      and with the data unchanged no new backup is due until the interval
      has passed. */
  lemma BackupSettles(st: Store, items: seq<string>, today: Date, later: Clock, count: nat,
                      now: int, size: int, afterwards: int, minDays: int)
    requires |items| > 0 && count > 0 && size != 0
    requires afterwards - now < minDays * SecondsPerDay
    ensures var after := CreateBackup(st, Present(items), today, later, Ok(count), now, size, true);
      after.1 && LastBackupSize(after.0.records) == size
      && !ShouldBackup(size, after.0.records, afterwards, minDays)
  {
    var after := CreateBackup(st, Present(items), today, later, Ok(count), now, size, true);
    var records := after.0.records;
    assert records == st.records + [Record(Some(now), true, Some(size))];
    LastBackupSizeIs(records, |records| - 1);
    DaysBound(afterwards - now, minDays);
  }
}
