/** The database calls, statement by statement, against the functions of KvLog. */
module Kvdb {
  import opened Options
  import opened Bytes
  import opened OsFiles
  import opened KvLog

  // ---- what the calls answer, as functions of the file bytes ----

  /** A get on the clean file `c`. The first seek of the walk is kept in an
      `int`, so a file of 2^31 + 7 bytes or more answers nothing. */
  function GetResult(c: seq<Byte>, key: CString): Option<CString> {
    if |c| <= 2 || ToInt32(|c| - 7) <= 0 then None else Lookup(DecodeLog(c), key)
  }

  /** The log write reports failure for an empty string and for an end offset
      that turns negative in an `int`; the commit mark is then missing. */
  predicate WriteFails(c: seq<Byte>, key: CString, value: CString) {
    ToInt32(|c|) < 0 || key == [] || value == []
  }

  /** All bytes a put appends to the clean file `c`. */
  function Appended(c: seq<Byte>, key: CString, value: CString): seq<Byte> {
    if GetResult(c, key) == Some(value) then []
    else if WriteFails(c, key, value) then Body(key, value)
    else Encode(Record(key, value))
  }

  function PutReturn(c: seq<Byte>, key: CString, value: CString): int {
    if GetResult(c, key) == Some(value) || !WriteFails(c, key, value) then 0 else -1
  }

  /** When a put succeeds on a clean file whose size fits 32 bits. */
  lemma {:induction false} PutReturnIs(c: seq<Byte>, key: CString, value: CString)
    requires |c| < 0x1_0000_0000
    ensures PutReturn(c, key, value) == 0 || PutReturn(c, key, value) == -1
    ensures PutReturn(c, key, value) == 0 <==>
      GetResult(c, key) == Some(value) || (key != [] && value != [] && |c| < 0x8000_0000)
  {
    hide GetResult;
  }

  /** The bytes a put of two non-empty strings adds: none when a get answers the value already;
      else the two strings, their lengths and, if it succeeds, the commit mark, each with a NUL. */
  lemma {:induction false} PutAppends(c: seq<Byte>, key: CString, value: CString)
    requires |c| < 0x1_0000_0000 && Fits(key, value) && key != [] && value != []
    ensures GetResult(c, key) == Some(value) ==> Appended(c, key, value) == []
    ensures GetResult(c, key) != Some(value) ==>
      var body := (key + [0]) + (value + [0]) + (Format(|key|) + [0]) + (Format(|value|) + [0]);
      Appended(c, key, value) == if |c| < 0x8000_0000 then body + [3, 0] else body
  {
    hide GetResult, Body, Format, WStr;
    BodyIs(key, value);
    CommitIs();
  }

  lemma {:induction false} BodyIs(key: CString, value: CString)
    requires Fits(key, value) && key != [] && value != []
    ensures Body(key, value) == (key + [0]) + (value + [0]) + (Format(|key|) + [0]) + (Format(|value|) + [0])
  {
    hide Format;
    FormatWidth(|key|);
    FormatWidth(|value|);
  }

  lemma CommitIs()
    ensures WStr([COMMIT]) == [3, 0]
  {
  }

  ghost predicate Repairable(d: seq<Byte>) {
    |d| < TWO32 - 1 && Clean(Recovered(d))
  }

  // ---- recovery ----

  lemma {:induction false} CutAfter(d: seq<Byte>, i: nat)
    requires i < |d|
    ensures Padded(Overwrite(d, i + 1, [NUL]), i + 2)[..i + 2] == d[..i + 1] + [NUL]
  {
  }

  lemma {:induction false} ReadOne(d: seq<Byte>, i: nat)
    requires i < |d|
    ensures Readable(d, i, 1) == [d[i]]
  {
  }

  lemma {:induction false} RepairedIsStable(d: seq<Byte>)
    ensures !NeedsRepair(Repaired(d)) && Recovered(Repaired(d)) == Repaired(d)
  {
  }

  lemma {:induction false} CutAll(d: seq<Byte>)
    ensures Padded(d, 0)[..0] == []
  {
  }

  method CrashHandle(f: OsFile)
    modifies f
    ensures f.data == Repaired(old(f.data))
    ensures |f.data| >= 3 ==> f.pos == |f.data| - 1
    decreases 1
  {
    hide LastCommit, NeedsRepair, Overwrite, Padded, Readable, Recovered;
    var off := f.Lseek(-1, SeekEnd);
    if off <= 0 {
      return;
    }
    ghost var d := f.data;
    var flag := false;
    ReadOne(d, off);
    var temp := f.Read(1);
    while temp != []
      invariant f.data == d && !flag
      invariant temp != [] && off < |d| && f.pos == off + 1 && off > 0 && temp == [d[off]]
      invariant forall k :: off < k < |d| ==> d[k] != COMMIT
      decreases off
    {
      if temp[0] == COMMIT {
        var _ := f.Write([NUL]);
        CutAfter(d, off);
        LastCommitUnique(d, |d| - 1, off);
        off := off + 2;
        f.Ftruncate(off);
        flag := true;
        break;
      }
      off := f.Lseek(-2, SeekCur);
      if off <= 0 {
        LastCommitUnique(d, |d| - 1, 0);
        break;
      }
      ReadOne(d, off);
      temp := f.Read(1);
    }
    off := f.Lseek(0, SeekCur);
    if !flag && off <= 0 {
      CutAll(f.data);
      f.Ftruncate(0);
    }
    assert f.data == Repaired(d);
    RepairedIsStable(d);
    CrashCheck(f);
  }

  method CrashCheck(f: OsFile)
    modifies f
    ensures f.data == Recovered(old(f.data))
    ensures |f.data| >= 3 ==> f.pos == |f.data| - 1
    decreases if NeedsRepair(f.data) then 2 else 0
  {
    var off := f.Lseek(-2, SeekEnd);
    if off > 0 {
      var temp := f.Read(1);
      if temp[0] != COMMIT {
        CrashHandle(f);
      }
    }
  }

  // ---- writing ----

  method WriteStr(f: OsFile, s: CString) returns (ret: int)
    requires f.pos == |f.data|
    modifies f
    ensures f.data == old(f.data) + WStr(s) && f.pos == |f.data|
    ensures ret == |s|
  {
    ret := f.Write(s);
    if ret <= 0 {
      return;
    }
    var _ := f.Write([NUL]);
  }

  method WriteLog(f: OsFile, key: CString, value: CString) returns (ok: int)
    requires Fits(key, value)
    modifies f
    ensures var fails := WriteFails(old(f.data), key, value);
      f.data == old(f.data) + (if fails then Body(key, value) else Encode(Record(key, value)))
    ensures ok == if WriteFails(old(f.data), key, value) then 0 else 1
    ensures |old(f.data)| < 0x1_0000_0000 ==>
      (ok == 1 <==> key != [] && value != [] && |old(f.data)| < 0x8000_0000)
  {
    ghost var d := f.data;
    var end := f.Lseek(0, SeekEnd);
    var ret0 := ToInt32(end);
    var ret1 := WriteStr(f, key);
    var ret2 := WriteStr(f, value);
    FormatWidth(|key|);
    FormatWidth(|value|);
    var l1: CString, l2: CString := Format(|key|), Format(|value|);
    assert |l1| <= 4 && |l2| <= 4;  // both fit their five-byte buffers
    var ret3 := WriteStr(f, l1);
    var ret4 := WriteStr(f, l2);
    assert f.data == d + Body(key, value) by {
      Associative(d, WStr(key), WStr(value));
      Associative(d, WStr(key) + WStr(value), WStr(l1));
      Associative(d, WStr(key) + WStr(value) + WStr(l1), WStr(l2));
    }
    if ret0 < 0 || ret1 <= 0 || ret2 <= 0 || ret3 <= 0 || ret4 <= 0 {
      return 0;
    }
    var ret := WriteStr(f, [COMMIT]);
    Associative(d, Body(key, value), WStr([COMMIT]));
    if ret <= 0 {
      return 0;
    }
    return 1;
  }

  // ---- reading ----

  /** Copies what a read delivered to the front of a buffer. */
  function Fill(buf: seq<Byte>, bytes: seq<Byte>): seq<Byte> {
    bytes + (if |bytes| <= |buf| then buf[|bytes|..] else [])
  }

  lemma {:induction false} FilledString(buf: seq<Byte>, bytes: seq<Byte>, s: CString)
    requires bytes == s + [NUL]
    ensures CStr(Fill(buf, bytes)) == s
  {
    CStrOfTerminated(s, if |bytes| <= |buf| then buf[|bytes|..] else []);
  }

  lemma {:induction false} PrefixRecord(d: seq<Byte>, junk: seq<Byte>, log: seq<Record>, j: nat)
    requires Laid(d, junk, log) && 1 <= j <= |log|
    ensures var pre := junk + EncodeLog(log[..j - 1]);
      junk + EncodeLog(log[..j]) == pre + Encode(log[j - 1])
      && |pre| + 16 <= |junk + EncodeLog(log[..j])| && Valid(log[j - 1])
  {
    hide EncodeLog, Encode;
    assert log[..j][..j - 1] == log[..j - 1];
    LastRecord(junk, log[..j]);
    EncodeShape(log[j - 1]);
  }

  lemma {:induction false} PrefixOf(d: seq<Byte>, junk: seq<Byte>, log: seq<Record>, j: nat)
    requires Laid(d, junk, log) && j <= |log|
    ensures junk + EncodeLog(log[..j]) <= d
    decreases |log| - j
  {
    hide EncodeLog, Encode;
    if j < |log| {
      PrefixOf(d, junk, log, j + 1);
      PrefixRecord(d, junk, log, j + 1);
    } else {
      assert log[..j] == log;
    }
  }

  /** The oldest record starts at most two bytes into the file, every other
      record right after a commit mark. */
  lemma {:induction false} RecordBefore(d: seq<Byte>, junk: seq<Byte>, log: seq<Record>, j: nat)
    requires Laid(d, junk, log) && 1 <= j <= |log|
    ensures var start := Off(junk, log, j - 1);
      && (start <= 2 <==> j == 1)
      && (j > 1 ==> start <= |d| && d[start - 2] == COMMIT)
  {
    if j > 1 {
      var pre := PrefixFits(d, junk, log, j - 1);
      Slices(pre, log[j - 2]);
    } else {
      assert EncodeLog(log[..0]) == [];
    }
  }

  lemma {:induction false} ToInt32Small(n: int)
    requires 0 <= n < TWO32
    ensures ToInt32(n) > 0 ==> n < TWO31 && ToInt32(n) == n
    ensures n < TWO31 ==> ToInt32(n) == n
  {
  }

  /** The offset just after the first j records. */
  ghost function Off(junk: seq<Byte>, log: seq<Record>, j: nat): nat
    requires j <= |log|
  {
    |junk| + |EncodeLog(log[..j])|
  }

  /** What the reads of one round deliver when record r lies in start..e. */
  ghost predicate RoundAt(c: seq<Byte>, start: nat, e: nat, r: Record) {
    && Valid(r) && e <= |c| && e == start + |r.key| + |r.value| + 14
    && Scan(c[e - 7..e - 3] + [NUL]) == Some(|r.value|)
    && Scan(c[e - 12..e - 8] + [NUL]) == Some(|r.key|)
    && c[e - 13 - |r.value|..e - 12] == r.value + [NUL]
    && c[start..start + |r.key| + 1] == r.key + [NUL]
  }

  lemma {:induction false} RoundReads(c: seq<Byte>, pre: seq<Byte>, r: Record)
    requires Valid(r) && pre + Encode(r) <= c
    ensures RoundAt(c, |pre|, |pre + Encode(r)|, r)
  {
    hide Encode, Scan;
    var p := pre + Encode(r);
    var e := |p|;
    Slices(pre, r);
    ScanFormat(|r.key|, [NUL]);
    ScanFormat(|r.value|, [NUL]);
    assert c[..e] == p;
    var n1, n2 := |r.key|, |r.value|;
    assert c[e - 7..e - 3] == p[e - 7..e - 3];
    assert c[e - 12..e - 8] == p[e - 12..e - 8];
    assert c[e - 13 - n2..e - 12] == p[e - 13 - n2..e - 12];
    assert c[|pre|..|pre| + n1 + 1] == p[|pre|..|pre| + n1 + 1];
  }

  lemma {:induction false} PrefixFits(c: seq<Byte>, junk: seq<Byte>, log: seq<Record>, j: nat) returns (pre: seq<Byte>)
    requires Laid(c, junk, log) && 1 <= j <= |log|
    ensures pre + Encode(log[j - 1]) <= c && Valid(log[j - 1])
    ensures |pre| == Off(junk, log, j - 1)
    ensures |pre + Encode(log[j - 1])| == Off(junk, log, j)
  {
    pre := junk + EncodeLog(log[..j - 1]);
    PrefixOf(c, junk, log, j);
    PrefixRecord(c, junk, log, j);
  }

  lemma {:induction false} RecordRound(c: seq<Byte>, junk: seq<Byte>, log: seq<Record>, j: nat)
    requires Laid(c, junk, log) && 1 <= j <= |log|
    ensures RoundAt(c, Off(junk, log, j - 1), Off(junk, log, j), log[j - 1])
  {
    var pre := PrefixFits(c, junk, log, j);
    RoundReads(c, pre, log[j - 1]);
  }

  /** Step j of the walk: where record j - 1 starts and ends, and what precedes it. */
  ghost predicate StepAt(c: seq<Byte>, offs: seq<nat>, log: seq<Record>, j: nat)
    requires 1 <= j <= |log| < |offs|
  {
    && RoundAt(c, offs[j - 1], offs[j], log[j - 1])
    && (offs[j - 1] <= 2 <==> j == 1)
    && (j > 1 ==> c[offs[j - 1] - 2] == COMMIT)
  }

  ghost predicate Walk(c: seq<Byte>, offs: seq<nat>, log: seq<Record>) {
    && |offs| == |log| + 1
    && offs[|log|] == |c|
    && forall j :: 1 <= j <= |log| ==> StepAt(c, offs, log, j)
  }

  lemma {:induction false} StepHolds(c: seq<Byte>, junk: seq<Byte>, log: seq<Record>, offs: seq<nat>, j: nat)
    requires Laid(c, junk, log) && 1 <= j <= |log| < |offs|
    requires offs[j - 1] == Off(junk, log, j - 1) && offs[j] == Off(junk, log, j)
    ensures StepAt(c, offs, log, j)
  {
    hide Scan, EncodeLog, Encode;
    RecordRound(c, junk, log, j);
    RecordBefore(c, junk, log, j);
  }

  lemma {:induction false} WalkExists(c: seq<Byte>, junk: seq<Byte>, log: seq<Record>) returns (offs: seq<nat>)
    requires Laid(c, junk, log)
    ensures Walk(c, offs, log)
  {
    hide EncodeLog, StepAt;
    offs := seq(|log| + 1, j requires 0 <= j <= |log| => Off(junk, log, j));
    assert |c| == Off(junk, log, |log|) by { assert log[..|log|] == log; }
    forall j | 1 <= j <= |log| ensures StepAt(c, offs, log, j) {
      StepHolds(c, junk, log, offs, j);
    }
  }

  /** The first half of a round: from one commit mark back over the two length
      columns. */
  method ReadLengths(f: OsFile, l1: seq<Byte>, l2: seq<Byte>, ghost start: nat, ghost e: nat, ghost r: Record)
    returns (l1': seq<Byte>, l2': seq<Byte>, len1: int, len2: int, err: nat)
    requires |f.data| < TWO32 && |l1| == |l2| == 5 && l1[4] == l2[4] == NUL
    requires f.data != [] ==> RoundAt(f.data, start, e, r) && f.pos == e - 1
    modifies f`pos
    ensures |l1'| == |l2'| == 5 && l1'[4] == l2'[4] == NUL
    ensures f.data == [] || ToInt32(e - 7) <= 0 ==> err > 0
    ensures f.data != [] ==> len1 == |r.key| && len2 == |r.value| && f.pos == e - 8
    ensures f.data != [] && ToInt32(e - 7) > 0 ==> err == 0
  {
    hide ToInt32, Scan, Fill;
    if f.data != [] {
      ToInt32Small(e - 7);
      ToInt32Small(e - 12);
    }
    err := 0;
    var bad;
    l2', bad := ReadColumn(f, -6, l2, e - 7);
    err := err + bad;
    l1', bad := ReadColumn(f, -9, l1, e - 12);
    err := err + bad;

    len1, len2 := *, *;  // uninitialised unless scanned
    var s1, s2 := Scan(l1'), Scan(l2');
    if s1.Some? { len1 := s1.value; }
    if s2.Some? { len2 := s2.value; }
  }

  /** One length column: seek back to it, read its four characters, count the errors. */
  method ReadColumn(f: OsFile, back: int, l: seq<Byte>, ghost at: int) returns (l': seq<Byte>, err: nat)
    requires |l| == 5 && l[4] == NUL
    requires f.data != [] ==> f.pos + back == at >= 0 && at + 4 <= |f.data|
    modifies f`pos
    ensures |l'| == 5 && l'[4] == NUL
    ensures f.data == [] ==> err > 0
    ensures f.data != [] ==>
      l' == f.data[at..at + 4] + [NUL] && f.pos == at + 4 && err == if ToInt32(at) <= 0 then 1 else 0
  {
    hide ToInt32;
    err := 0;
    var off := f.Lseek(back, SeekCur);
    var ret := ToInt32(off);
    err := err + (if ret <= 0 then 1 else 0);
    var bytes := f.Read(4);
    l' := Fill(l, bytes);
    err := err + (if |bytes| != 4 then 1 else 0);
    assert l[4..] == [NUL];
  }

  /** One string of a round: seek back, read it with its terminator. */
  method ReadString(f: OsFile, back: int, n: int, ghost at: int, ghost s: CString)
    returns (buf: seq<Byte>, off: int, short: bool)
    requires f.data != [] ==>
      f.pos + back == at >= 0 && n == |s| + 1 && at + n <= |f.data| && f.data[at..at + n] == s + [NUL]
    modifies f`pos
    ensures f.data != [] ==> off == at && !short && CStr(buf) == s && f.pos == at + n
  {
    buf := *;  // a fresh, uninitialised buffer
    off := f.Lseek(back, SeekCur);
    var bytes := f.Read(n);
    assert |bytes| <= if f.data == [] then 0 else |s| + 1;
    if f.data != [] {
      FilledString(buf, bytes, s);
    }
    buf := Fill(buf, bytes);
    short := |bytes| != n;
  }

  /** The second half of a round: back over the value and the key. */
  method ReadStrings(f: OsFile, len1: int, len2: int, ghost start: nat, ghost e: nat, ghost r: Record)
    returns (k: seq<Byte>, v: seq<Byte>, err: nat)
    requires |f.data| < TWO32
    requires f.data != [] ==>
      RoundAt(f.data, start, e, r) && f.pos == e - 8 && len1 == |r.key| && len2 == |r.value|
    modifies f`pos
    ensures f.data != [] ==> CStr(k) == r.key && CStr(v) == r.value && f.pos == start + len1 + 1
    ensures f.data != [] && ToInt32(e - 7) > 0 ==> err == 0
  {
    hide ToInt32, Scan, CStr;
    if f.data != [] {
      ToInt32Small(e - 7);
      ToInt32Small(e - 13 - len2);
      ToInt32Small(start);
    }
    err := 0;
    var off := f.Lseek(0, SeekCur);
    var short;
    v, off, short := ReadString(f, -5 - len2, len2 + 1, e - 13 - |r.value|, r.value);
    err := err + (if ToInt32(off) <= 0 then 1 else 0);
    err := err + (if short then 1 else 0);
    k, off, short := ReadString(f, -len2 - 2 - len1, len1 + 1, start, r.key);
    err := err + (if ToInt32(off) < 0 then 1 else 0);
    err := err + (if short then 1 else 0);
  }

  /** Only the first seek of a walk can leave the range of an `int`. */
  lemma {:induction false} EarlierOffsets(s: nat, e: nat)
    requires 13 < e <= s < TWO32 && ToInt32(s - 7) > 0
    ensures ToInt32(e - 7) > 0
  {
  }

  lemma {:induction false} LookupStops(log: seq<Record>, key: CString, j: nat)
    requires 1 <= j <= |log| && (j == 1 || log[j - 1].key == key)
    ensures Lookup(log[..j], key) == Some(log[j - 1].value)
  {
  }

  lemma {:induction false} LookupGoesOn(log: seq<Record>, key: CString, j: nat)
    requires 2 <= j <= |log| && log[j - 1].key != key
    ensures Lookup(log[..j], key) == Lookup(log[..j - 1], key)
  {
    assert log[..j][..j - 1] == log[..j - 1];
  }

  lemma {:induction false} RecoveredSize(d: seq<Byte>)
    ensures |d| >= 3 ==> Recovered(d) == [] || |Recovered(d)| >= 3
    ensures |d| <= 2 ==> Recovered(d) == d
    ensures |Recovered(d)| <= |d| + 1
  {
  }

  /** One round of the walk of a get: read a record, stop on an error, on the
      oldest record or on the key, else step over the commit mark before it. */
  method Round(f: OsFile, key: CString, l1: seq<Byte>, l2: seq<Byte>,
               ghost offs: seq<nat>, ghost log: seq<Record>, ghost j: nat)
    returns (v: seq<Byte>, l1': seq<Byte>, l2': seq<Byte>, err: nat, stop: bool)
    requires |f.data| < TWO32 && |l1| == |l2| == 5 && l1[4] == l2[4] == NUL
    requires f.data != [] ==> 1 <= j <= |log| < |offs| && StepAt(f.data, offs, log, j) && f.pos == offs[j] - 1
    modifies f`pos
    ensures |l1'| == |l2'| == 5 && l1'[4] == l2'[4] == NUL
    ensures f.data == [] || ToInt32(offs[j] - 7) <= 0 ==> stop && err > 0
    ensures f.data != [] && ToInt32(offs[j] - 7) > 0 ==>
      && err == 0 && CStr(v) == log[j - 1].value
      && (stop <==> j == 1 || log[j - 1].key == key)
      && (!stop ==> f.pos == offs[j - 1] - 1)
  {
    hide Scan, CStr, ToInt32;
    ghost var start, e, r := 0, 0, Record([], []);
    if f.data != [] {
      start, e, r := offs[j - 1], offs[j], log[j - 1];
    }
    var k, len1, len2, err2;
    l1', l2', len1, len2, err := ReadLengths(f, l1, l2, start, e, r);
    k, v, err2 := ReadStrings(f, len1, len2, start, e, r);
    err := err + err2;
    stop := true;
    if err > 0 {
      return;
    }
    var off := f.Lseek(-len1 - 3, SeekCur);
    if off <= 0 {
      return;
    }
    if CStr(k) == key {
      return;
    }
    var temp := f.Read(1);
    err := err + (if |temp| != 1 then 1 else 0);
    if err > 0 {
      return;
    }
    err := if temp[0] != COMMIT then 1 else 0;
    stop := err > 0;
  }

  method LocklessGet(f: OsFile, key: CString) returns (res: Option<CString>)
    requires Repairable(f.data)
    modifies f
    ensures f.data == Recovered(old(f.data))
    ensures res == GetResult(f.data, key)
  {
    hide Scan, DecodeLog, Lookup, CStr, Recovered, ToInt32, Clean, Walk, StepAt;
    RecoveredSize(f.data);
    var end := f.Lseek(-2, SeekEnd);
    if end <= 0 {
      return None;
    }
    CrashCheck(f);

    ghost var c, log, offs := f.data, [], [];
    log, offs := Records(c);
    ghost var j: nat := |log|;
    assert log[..j] == log;
    if c != [] {
      StepBounds(c, offs, log, j);
    }
    var l1: seq<Byte>, l2: seq<Byte> := [NUL, NUL, NUL, NUL, NUL], [NUL, NUL, NUL, NUL, NUL];
    var v: seq<Byte>, err: nat;
    while true
      invariant f.data == c && |l1| == |l2| == 5 && l1[4] == l2[4] == NUL
      invariant c == [] || (1 <= j <= |log| && f.pos + 1 == offs[j])
      invariant c == [] || Lookup(log, key) == Lookup(log[..j], key)
      invariant c == [] || j == |log| || ToInt32(|c| - 7) > 0
      decreases j
    {
      ghost var more := c != [] && ToInt32(|c| - 7) > 0;
      if c != [] {
        StepBounds(c, offs, log, j);
      }
      var stop;
      v, l1, l2, err, stop := Round(f, key, l1, l2, offs, log, j);
      if stop {
        if more {
          LookupStops(log, key, j);
        }
        break;
      }
      LookupGoesOn(log, key, j);
      j := j - 1;
    }
    if err > 0 {
      return None;
    }
    res := Some(CStr(v));
  }

  lemma {:induction false} StepBounds(c: seq<Byte>, offs: seq<nat>, log: seq<Record>, j: nat)
    requires Walk(c, offs, log) && 1 <= j <= |log| && |c| < TWO32
    ensures |offs| == |log| + 1 && StepAt(c, offs, log, j) && offs[j] > 13
    ensures ToInt32(|c| - 7) > 0 ==> ToInt32(offs[j] - 7) > 0
    ensures j == |log| ==> offs[j] == |c|
  {
    assert StepAt(c, offs, log, j);
    if ToInt32(|c| - 7) > 0 {
      EarlierOffsets(|c|, offs[j]);
    }
  }

  /** The records of a clean file and the offsets a walk over them visits. */
  lemma {:induction false} Records(c: seq<Byte>) returns (log: seq<Record>, offs: seq<nat>)
    requires Clean(c)
    ensures log == DecodeLog(c) && Walk(c, offs, log)
    ensures |c| <= 2 <==> log == []
  {
    var junk := CleanLog(c);
    log := DecodeLog(c);
    CleanTail(c, junk, log);
    offs := WalkExists(c, junk, log);
  }

  method LocklessPut(f: OsFile, key: CString, value: CString) returns (ret: int)
    requires Repairable(f.data) && Fits(key, value)
    modifies f
    ensures var c := Recovered(old(f.data));
      f.data == c + Appended(c, key, value) && ret == PutReturn(c, key, value)
    ensures var c := Recovered(old(f.data));
      && (ret == 0 || ret == -1)
      && (ret == 0 <==>
        GetResult(c, key) == Some(value) || (key != [] && value != [] && |c| < 0x8000_0000))
  {
    hide Recovered, Clean, ToInt32, GetResult, Encode, Body;
    ghost var c := Recovered(f.data);
    RecoveredStays(f.data);
    RecoveredSize(f.data);
    PutReturnIs(c, key, value);
    var oldv := LocklessGet(f, key);
    if oldv.Some? && oldv.value == value {
      assert c + [] == c;
      return 0;
    }
    var wr := WriteLog(f, key, value);
    if wr <= 0 {
      return -1;
    }
    CommittedAppend(c, Record(key, value));
    CrashCheck(f);
    return 0;
  }

  lemma {:induction false} RecoveredStays(d: seq<Byte>)
    requires Clean(Recovered(d))
    ensures Recovered(Recovered(d)) == Recovered(d)
  {
    CleanIsStable(Recovered(d));
  }

  // ---- the public calls ----

  /** `kvdb_t`: a descriptor (negative once closed) for the file it names, and whether
      the mutex all calls take is held. */
  class Db {
    var fd: int
    var locked: bool
    const file: OsFile

    constructor (file: OsFile)
      ensures this.file == file && fd == 0 && !locked
    {
      this.file := file;
      fd, locked := 0, false;
    }

    /** `descriptor` is what open(2) returns. After a failure the mutex stays held. */
    method Open(descriptor: int) returns (ret: int)
      requires !locked
      modifies this, file
      ensures old(fd) > 0 ==> ret == 0 && !locked && fd == old(fd) && file.data == old(file.data)
      ensures old(fd) <= 0 && descriptor < 0 ==>
        ret == fd == descriptor && locked && file.data == old(file.data)
      ensures old(fd) <= 0 && descriptor >= 0 ==>
        && ret == 0 && !locked && fd == descriptor
        && file.data == if descriptor == 0 then old(file.data) else Recovered(old(file.data))
    {
      locked := true;
      if fd > 0 {
        locked := false;
        return 0;
      }
      fd := descriptor;
      if fd < 0 {
        return fd;
      }
      file.pos := 0;
      if fd > 0 {
        CrashCheck(file);
      }
      locked := false;
      return 0;
    }

    method Close() returns (ret: int)
      requires !locked
      modifies this`fd
      ensures old(fd) < 0 ==> ret == -1 && fd == old(fd)
      ensures old(fd) >= 0 ==> ret == 0 && fd == -1
    {
      if fd < 0 {
        return -1;
      }
      fd := -1;
      return 0;
    }

    method Put(key: CString, value: CString) returns (ret: int)
      requires !locked && fd != 0 && Repairable(file.data) && Fits(key, value)
      modifies file
      ensures fd < 0 ==> ret == -1 && file.data == old(file.data)
      ensures fd > 0 ==>
        var c := Recovered(old(file.data));
        file.data == c + Appended(c, key, value) && ret == PutReturn(c, key, value)
      ensures fd > 0 ==>
        var c := Recovered(old(file.data));
        && (ret == 0 || ret == -1)
        && (ret == 0 <==>
          GetResult(c, key) == Some(value) || (key != [] && value != [] && |c| < 0x8000_0000))
    {
      if fd < 0 {
        return -1;
      }
      ret := LocklessPut(file, key, value);
    }

    method Get(key: CString) returns (res: Option<CString>)
      requires !locked && fd != 0 && Repairable(file.data)
      modifies file
      ensures fd < 0 ==> res == None && file.data == old(file.data)
      ensures fd > 0 ==>
        file.data == Recovered(old(file.data)) && res == GetResult(file.data, key)
    {
      if fd < 0 {
        return None;
      }
      res := LocklessGet(file, key);
    }
  }
}
