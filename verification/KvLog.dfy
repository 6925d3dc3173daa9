/** The record format of the log, the walk that reads it from the end, and the
    recovery that restores it after a crash, as functions on the file bytes. */
module KvLog {
  import opened Options
  import opened Bytes

  datatype Record = Record(key: CString, value: CString)

  const MAX_KEY := 127
  const MAX_VALUE := 65535

  /** What fits the reader's key buffer and the four length columns. */
  predicate Fits(key: CString, value: CString) {
    |key| <= MAX_KEY && |value| <= MAX_VALUE
  }

  predicate Valid(r: Record) {
    Fits(r.key, r.value) && r.key != [] && r.value != []
  }

  predicate ValidLog(log: seq<Record>) {
    forall i :: 0 <= i < |log| ==> Valid(log[i])
  }

  /** `write_str`: an empty string writes nothing, not even its terminator. */
  function WStr(s: seq<Byte>): seq<Byte> {
    if s == [] then [] else s + [NUL]
  }

  /** Everything a put writes before the commit mark. */
  function Body(key: CString, value: CString): seq<Byte> {
    WStr(key) + WStr(value) + WStr(Format(|key|)) + WStr(Format(|value|))
  }

  function Encode(r: Record): seq<Byte> {
    Body(r.key, r.value) + WStr([COMMIT])
  }

  function EncodeLog(log: seq<Record>): seq<Byte> {
    if log == [] then [] else EncodeLog(log[..|log| - 1]) + Encode(log[|log| - 1])
  }

  lemma {:induction false} EncodeLogAppend(log: seq<Record>, r: Record)
    ensures EncodeLog(log + [r]) == EncodeLog(log) + Encode(r)
  {
    assert (log + [r])[..|log|] == log;
  }

  // ---- the backward walk ----

  /** The newest record ending at the end of d, and the offset it starts at. */
  function DecodeLast(d: seq<Byte>): Option<(Record, nat)> {
    var s := |d|;
    if s < 14 then None else
    match (Scan(d[s - 12..s - 8] + [NUL]), Scan(d[s - 7..s - 3] + [NUL]))
    case (Some(n1), Some(n2)) =>
      var start := s - 14 - n1 - n2;
      if start < 0 then None else
      Some((Record(CStr(d[start..start + n1 + 1]), CStr(d[start + n1 + 1..s - 12])), start))
    case _ => None
  }

  /** All records, oldest first; the walk stops before the third byte. */
  function DecodeLog(d: seq<Byte>): seq<Record> {
    if |d| <= 2 then [] else
    match DecodeLast(d)
    case None => []
    case Some((r, start)) => DecodeLog(d[..start]) + [r]
  }

  lemma {:induction false} EncodeShape(r: Record)
    requires Valid(r)
    ensures Encode(r) ==
            r.key + [NUL] + r.value + [NUL] + Format(|r.key|) + [NUL] + Format(|r.value|) + [NUL] + [COMMIT] + [NUL]
    ensures |Encode(r)| == |r.key| + |r.value| + 14
    ensures |Format(|r.key|)| == 4 && |Format(|r.value|)| == 4
  {
    hide Format;
    FormatWidth(|r.key|);
    FormatWidth(|r.value|);
  }

  /** Where the fields of the newest record lie. */
  lemma {:induction false} Slices(pre: seq<Byte>, r: Record)
    requires Valid(r)
    ensures var d := pre + Encode(r); var s := |d|; var n1, n2 := |r.key|, |r.value|;
      && s == |pre| + n1 + n2 + 14
      && d[s - 7..s - 3] == Format(n2)
      && d[s - 12..s - 8] == Format(n1)
      && d[s - 13 - n2..s - 12] == r.value + [NUL]
      && d[|pre|..|pre| + n1 + 1] == r.key + [NUL]
      && d[..|pre|] == pre
      && d[s - 2] == COMMIT
      && d[s - 1] == NUL
  {
    hide Encode, Format;
    EncodeShape(r);
    StringSlices(pre, r);
    LengthSlices(pre, r);
  }

  /** A piece in the middle of a concatenation. */
  lemma SliceAt(d: seq<Byte>, a: seq<Byte>, x: seq<Byte>, b: seq<Byte>)
    requires d == a + x + b
    ensures |d| == |a| + |x| + |b| && d[|a|..|a| + |x|] == x && d[..|a|] == a
  {
  }

  lemma {:induction false} StringSlices(pre: seq<Byte>, r: Record)
    requires Valid(r)
    ensures var d := pre + Encode(r); var s := |d|; var n1, n2 := |r.key|, |r.value|;
      && s == |pre| + n1 + n2 + 14
      && d[|pre|..|pre| + n1 + 1] == r.key + [NUL]
      && d[s - 13 - n2..s - 12] == r.value + [NUL]
      && d[..|pre|] == pre
  {
    hide Encode, Format;
    EncodeShape(r);
    var d := pre + Encode(r);
    var k, v := r.key + [NUL], r.value + [NUL];
    var rest := Format(|r.key|) + [NUL] + Format(|r.value|) + [NUL] + [COMMIT] + [NUL];
    assert Encode(r) == k + v + rest;
    SliceAt(d, pre, k, v + rest);
    SliceAt(d, pre + k, v, rest);
  }

  lemma {:induction false} LengthSlices(pre: seq<Byte>, r: Record)
    requires Valid(r)
    ensures var d := pre + Encode(r); var s := |d|;
      && s >= 14 && d[s - 7..s - 3] == Format(|r.value|) && d[s - 12..s - 8] == Format(|r.key|)
      && d[s - 2] == COMMIT && d[s - 1] == NUL
  {
    hide Encode, Format;
    EncodeShape(r);
    var d := pre + Encode(r);
    var kv := r.key + [NUL] + r.value + [NUL];
    var f1, f2 := Format(|r.key|), Format(|r.value|);
    var end := [NUL] + [COMMIT] + [NUL];
    assert Encode(r) == kv + f1 + [NUL] + f2 + end;
    SliceAt(d, pre + kv, f1, [NUL] + f2 + end);
    SliceAt(d, pre + kv + f1 + [NUL], f2, end);
  }

  lemma {:induction false} DecodeLastEncode(pre: seq<Byte>, r: Record)
    requires Valid(r)
    ensures DecodeLast(pre + Encode(r)) == Some((r, |pre|))
  {
    hide Encode, Scan, CStr;
    Slices(pre, r);
    ScanFormat(|r.key|, [NUL]);
    ScanFormat(|r.value|, [NUL]);
    CStrOfTerminated(r.key, []);
    CStrOfTerminated(r.value, []);
    assert r.key + [NUL] + [] == r.key + [NUL];
    assert r.value + [NUL] + [] == r.value + [NUL];
    var d := pre + Encode(r);
    assert |pre| + |r.key| + 1 == |d| - 13 - |r.value|;
  }

  /** Up to two bytes of a torn first record are never repaired. */
  predicate Junk(junk: seq<Byte>) {
    |junk| <= 2 && COMMIT !in junk
  }

  lemma {:induction false} DecodeLogStep(pre: seq<Byte>, r: Record)
    requires Valid(r)
    ensures DecodeLog(pre + Encode(r)) == DecodeLog(pre) + [r]
  {
    hide Encode, DecodeLast;
    DecodeLastEncode(pre, r);
    Slices(pre, r);
  }

  lemma {:induction false} NoRecords(junk: seq<Byte>)
    requires Junk(junk)
    ensures junk + EncodeLog([]) == junk && DecodeLog(junk) == []
  {
  }

  lemma {:induction false} LastRecord(junk: seq<Byte>, log: seq<Record>)
    requires log != []
    ensures var n := |log| - 1;
      junk + EncodeLog(log) == (junk + EncodeLog(log[..n])) + Encode(log[n])
  {
    hide Encode;
    var n := |log| - 1;
    Associative(junk, EncodeLog(log[..n]), Encode(log[n]));
  }

  /** Walking back from the end of any concatenation of records returns exactly
      those records. */
  lemma {:induction false} DecodeEncode(junk: seq<Byte>, log: seq<Record>)
    requires Junk(junk) && ValidLog(log)
    ensures DecodeLog(junk + EncodeLog(log)) == log
  {
    hide Encode, DecodeLast, DecodeLog, EncodeLog;
    if log == [] {
      NoRecords(junk);
    } else {
      var n := |log| - 1;
      var pre := EncodeLog(log[..n]);
      DecodeEncode(junk, log[..n]);
      DecodeLogStep(junk + pre, log[n]);
      LastRecord(junk, log);
      assert log[..n] + [log[n]] == log;
    }
  }

  /** A file without a torn record. */
  ghost predicate Laid(d: seq<Byte>, junk: seq<Byte>, log: seq<Record>) {
    Junk(junk) && ValidLog(log) && d == junk + EncodeLog(log)
  }

  ghost predicate Clean(d: seq<Byte>) {
    exists junk, log :: Laid(d, junk, log)
  }

  /** The bytes of a clean file determine its records. */
  lemma {:induction false} CleanLog(d: seq<Byte>) returns (junk: seq<Byte>)
    requires Clean(d)
    ensures Laid(d, junk, DecodeLog(d))
  {
    var log;
    junk, log :| Laid(d, junk, log);
    DecodeEncode(junk, log);
  }

  lemma {:induction false} CleanTail(d: seq<Byte>, junk: seq<Byte>, log: seq<Record>)
    requires Laid(d, junk, log)
    ensures log == [] ==> d == junk
    ensures log != [] ==> |d| >= |junk| + 16 && d[|d| - 2] == COMMIT && d[|d| - 1] == NUL
  {
    hide Encode;
    if log == [] {
      assert EncodeLog(log) == [];
    } else {
      hide EncodeLog;
      var n := |log| - 1;
      LastRecord(junk, log);
      EndsInCommit(junk + EncodeLog(log[..n]), log[n]);
    }
  }

  lemma {:induction false} EndsInCommit(pre: seq<Byte>, r: Record)
    requires Valid(r)
    ensures var d := pre + Encode(r); |d| >= |pre| + 16 && d[|d| - 2] == COMMIT && d[|d| - 1] == NUL
  {
    hide Encode;
    Slices(pre, r);
  }

  // ---- lookup ----

  /** The answer of a walk over `log`: the newest record of the key, or the
      oldest record whatever its key. */
  function Lookup(log: seq<Record>, key: CString): Option<CString> {
    if log == [] then None else
    var r := log[|log| - 1];
    if |log| == 1 || r.key == key then Some(r.value) else Lookup(log[..|log| - 1], key)
  }

  ghost predicate NewestAt(log: seq<Record>, key: CString, i: nat) {
    i < |log| && log[i].key == key && forall j :: i < j < |log| ==> log[j].key != key
  }

  lemma {:induction false} LookupNewest(log: seq<Record>, key: CString, i: nat)
    requires NewestAt(log, key, i)
    ensures Lookup(log, key) == Some(log[i].value)
  {
    var n := |log| - 1;
    if i < n {
      assert log[n].key != key;
      LookupNewest(log[..n], key, i);
    }
  }

  lemma {:induction false} LookupAbsent(log: seq<Record>, key: CString)
    requires forall r :: r in log ==> r.key != key
    ensures Lookup(log, key) == if log == [] then None else Some(log[0].value)
  {
    if |log| > 1 {
      var n := |log| - 1;
      assert log[n] in log;
      assert forall r :: r in log[..n] ==> r in log;
      LookupAbsent(log[..n], key);
    }
  }

  /** The documented answer for an absent key, no value, is given exactly on the
      empty log. */
  lemma {:induction false} AbsentKeyGetsNothingIffEmpty(log: seq<Record>, key: CString)
    requires forall r :: r in log ==> r.key != key
    ensures Lookup(log, key) == None <==> log == []
  {
    LookupAbsent(log, key);
  }

  lemma {:induction false} AbsentKeyCounterexample()
    ensures var log := [Record([97], [98])];
      Lookup(log, [99]) == Some([98]) && forall r :: r in log ==> r.key != [99]
  {
    assert |[Record([97], [98])]| == 1;
  }

  // ---- recovery ----

  /** The last commit mark at or below i, or 0; offset 0 is never examined. */
  function LastCommit(d: seq<Byte>, i: nat): (j: nat)
    requires i < |d|
    ensures j <= i
    ensures j > 0 ==> d[j] == COMMIT
    ensures forall k :: j < k <= i ==> d[k] != COMMIT
  {
    if i == 0 then 0 else if d[i] == COMMIT then i else LastCommit(d, i - 1)
  }

  /** The file after `crash_handle`. */
  function Repaired(d: seq<Byte>): seq<Byte> {
    if |d| <= 1 then d else
    var j := LastCommit(d, |d| - 1);
    if j == 0 then [] else d[..j + 1] + [NUL]
  }

  predicate NeedsRepair(d: seq<Byte>) {
    |d| >= 3 && d[|d| - 2] != COMMIT
  }

  /** The file after `crash_check`. */
  function Recovered(d: seq<Byte>): seq<Byte> {
    if NeedsRepair(d) then Repaired(d) else d
  }

  /** The file if the machine stops between the write and the truncation. */
  function HalfRepaired(d: seq<Byte>): seq<Byte>
    requires NeedsRepair(d)
  {
    var j := LastCommit(d, |d| - 1);
    if j == 0 then d
    else if j + 1 == |d| then d + [NUL]
    else d[j + 1 := NUL]
  }

  lemma {:induction false} LastCommitUnique(d: seq<Byte>, i: nat, j: nat)
    requires i < |d| && j <= i
    requires j > 0 ==> d[j] == COMMIT
    requires forall k :: j < k <= i ==> d[k] != COMMIT
    ensures LastCommit(d, i) == j
  {
    var l := LastCommit(d, i);
    if l < j { assert false; }
  }

  /** What recovery leaves: a short file or one that ends in a commit mark and its terminator
      is untouched; else all after the last mark past offset zero goes, or everything. The
      write before the truncation only puts the terminator after that mark. */
  lemma {:induction false} RecoveredIs(d: seq<Byte>, j: nat)
    requires j == 0 || (j < |d| && d[j] == COMMIT)
    requires forall k :: j < k < |d| ==> d[k] != COMMIT
    ensures Recovered(d) ==
      if |d| < 3 || d[|d| - 2] == COMMIT then d else if j == 0 then [] else d[..j + 1] + [NUL]
    ensures |d| >= 3 && d[|d| - 2] != COMMIT ==>
      HalfRepaired(d) == (if j == 0 then d else d[..j + 1] + [NUL] + (if j + 2 <= |d| then d[j + 2..] else []))
  {
    if d != [] { LastCommitUnique(d, |d| - 1, j); }
  }

  /** Recovery is idempotent, also across a crash inside itself. */
  lemma {:induction false} RecoveryIdempotent(d: seq<Byte>)
    ensures Recovered(Recovered(d)) == Recovered(d)
    ensures NeedsRepair(d) ==> Recovered(HalfRepaired(d)) == Recovered(d)
  {
    RecoveredIsStable(d);
    if NeedsRepair(d) { HalfIsEnough(d); }
    hide Recovered, HalfRepaired;
  }

  lemma {:induction false} RecoveredIsStable(d: seq<Byte>)
    ensures Recovered(Recovered(d)) == Recovered(d)
  {
    hide LastCommit;
  }

  lemma {:induction false} HalfIsEnough(d: seq<Byte>)
    requires NeedsRepair(d)
    ensures Recovered(HalfRepaired(d)) == Recovered(d)
  {
    var j := LastCommit(d, |d| - 1);
    var h := HalfRepaired(d);
    if j > 0 {
      if |h| - 2 == j {
        assert h == d[..j + 1] + [NUL];
      } else {
        LastCommitUnique(h, |h| - 1, j);
        assert h[..j + 1] == d[..j + 1];
      }
    }
  }

  /** A clean file is left alone. */
  lemma {:induction false} CleanIsStable(d: seq<Byte>)
    requires Clean(d)
    ensures Recovered(d) == d
  {
    var junk := CleanLog(d);
    CleanTail(d, junk, DecodeLog(d));
  }

  /** The bytes recovery falls back to when the append `tail` is not committed. */
  function Fallback(d: seq<Byte>, tail: seq<Byte>): seq<Byte> {
    if DecodeLog(d) != [] then d else if |d + tail| >= 3 then [] else d + tail
  }

  ghost predicate MarkSeen(d: seq<Byte>, tail: seq<Byte>) {
    exists i :: 0 <= i < |tail| && tail[i] == COMMIT && |d| + i > 0
  }

  lemma {:induction false} UnmarkedTail(d: seq<Byte>, tail: seq<Byte>)
    requires |d| >= 3 && d[|d| - 2] == COMMIT && d[|d| - 1] == NUL
    requires tail != [] && !MarkSeen(d, tail)
    ensures Recovered(d + tail) == d
  {
    var t := d + tail;
    var n := |t|;
    assert forall k :: |d| <= k < n ==> t[k] == tail[k - |d|];
    assert t[n - 2] != COMMIT by { if n - 2 < |d| { assert t[n - 2] == d[|d| - 1]; } }
    LastCommitUnique(t, n - 1, |d| - 2);
    assert t[..|d| - 1] + [NUL] == d;
  }

  lemma {:induction false} UnmarkedFirst(d: seq<Byte>, tail: seq<Byte>)
    requires |d| <= 2 && COMMIT !in d && !MarkSeen(d, tail) && |d + tail| >= 3
    ensures Recovered(d + tail) == []
  {
    var t := d + tail;
    assert forall k :: 0 < k < |t| ==> t[k] != COMMIT by {
      forall k | 0 < k < |t| ensures t[k] != COMMIT {
        if k < |d| { assert t[k] in d; } else { assert t[k] == tail[k - |d|]; }
      }
    }
    LastCommitUnique(t, |t| - 1, 0);
  }

  lemma {:induction false} MarkedTail(d: seq<Byte>, tail: seq<Byte>)
    requires MarkSeen(d, tail) && |d + tail| >= 3
    ensures |Recovered(d + tail)| > |d| && Recovered(d + tail) != []
  {
    var i :| 0 <= i < |tail| && tail[i] == COMMIT && |d| + i > 0;
    var t := d + tail;
    assert t[|d| + i] == COMMIT;
    assert LastCommit(t, |t| - 1) >= |d| + i;
  }

  /** Recovery of a torn append gives back the old log exactly when no commit
      byte was written past offset zero; a log without records may keep two
      junk bytes. */
  lemma {:induction false} TornAppendIff(d: seq<Byte>, tail: seq<Byte>)
    requires Clean(d) && tail != []
    ensures Recovered(d + tail) == Fallback(d, tail) <==>
      !MarkSeen(d, tail) || (DecodeLog(d) == [] && |d + tail| <= 2)
  {
    var junk := CleanLog(d);
    var log := DecodeLog(d);
    CleanTail(d, junk, log);
    if |d + tail| > 2 {
      if MarkSeen(d, tail) {
        MarkedTail(d, tail);
      } else if log != [] {
        UnmarkedTail(d, tail);
      } else {
        UnmarkedFirst(d, tail);
      }
    }
  }

  /** A commit byte without its terminator is completed. */
  lemma {:induction false} MissingTerminator(u: seq<Byte>)
    requires u != [] && u[|u| - 1] == NUL
    ensures |u| >= 2 ==> Recovered(u + [COMMIT]) == u + [COMMIT] + [NUL]
  {
    var t := u + [COMMIT];
    LastCommitUnique(t, |t| - 1, |t| - 1);
  }

  lemma {:induction false} Associative(a: seq<Byte>, b: seq<Byte>, c: seq<Byte>)
    ensures (a + b) + c == a + (b + c)
  {
  }

  lemma {:induction false} EncodeSplit(d: seq<Byte>, r: Record)
    ensures d + Body(r.key, r.value) + [COMMIT] + [NUL] == d + Encode(r)
  {
    var b := Body(r.key, r.value);
    Associative(d, b, [COMMIT] + [NUL]);
    Associative(d + b, [COMMIT], [NUL]);
  }

  lemma {:induction false} LaidAppend(d: seq<Byte>, junk: seq<Byte>, log: seq<Record>, r: Record)
    requires Laid(d, junk, log) && Valid(r)
    ensures Laid(d + Encode(r), junk, log + [r])
  {
    EncodeLogAppend(log, r);
    Associative(junk, EncodeLog(log), Encode(r));
  }

  lemma {:induction false} LaidDecodes(d: seq<Byte>, junk: seq<Byte>, log: seq<Record>)
    requires Laid(d, junk, log)
    ensures Clean(d) && DecodeLog(d) == log
  {
    DecodeEncode(junk, log);
  }

  lemma {:induction false} AppendIsClean(d: seq<Byte>, r: Record)
    requires Clean(d) && Valid(r)
    ensures Clean(d + Encode(r)) && DecodeLog(d + Encode(r)) == DecodeLog(d) + [r]
  {
    var junk := CleanLog(d);
    LaidAppend(d, junk, DecodeLog(d), r);
    LaidDecodes(d + Encode(r), junk, DecodeLog(d) + [r]);
  }

  lemma {:induction false} BodyEnds(key: CString, value: CString)
    requires value != []
    ensures var b := Body(key, value); |b| >= 2 && b[|b| - 1] == NUL
  {
    FormatWidth(|value|);
  }

  /** The append is kept whole as soon as its commit byte is written. */
  lemma {:induction false} CommittedAppend(d: seq<Byte>, r: Record)
    requires Clean(d) && Valid(r)
    ensures Clean(d + Encode(r)) && DecodeLog(d + Encode(r)) == DecodeLog(d) + [r]
    ensures Recovered(d + Encode(r)) == d + Encode(r)
    ensures Recovered(d + Body(r.key, r.value) + [COMMIT]) == d + Encode(r)
  {
    AppendIsClean(d, r);
    CleanIsStable(d + Encode(r));
    BodyEnds(r.key, r.value);
    var u := d + Body(r.key, r.value);
    MissingTerminator(u);
    assert u[|u| - 1] == NUL;
    EncodeSplit(d, r);
  }
}
