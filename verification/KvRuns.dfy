/** Durability over whole runs: any sequence of puts, gets, reopens and crashes,
    at any byte of an append and inside recovery. */
module KvRuns {
  import opened Options
  import opened Bytes
  import opened KvLog
  import opened Kvdb

  datatype Event =
    | Put(key: CString, value: CString)
    | Get(key: CString)
    | Reopen
    | TornPut(key: CString, value: CString, written: nat)  // crash after that many bytes of the append
    | TornRepair                                           // crash between recovery's write and its truncation

  type Disk = seq<Byte>
  type Model = map<CString, CString>

  function Min(a: nat, b: nat): nat {
    if a < b then a else b
  }

  /** The bytes a put that may stop early leaves behind its clean file. */
  function Tail(c: Disk, e: Event): seq<Byte>
    requires e.Put? || e.TornPut?
  {
    var all := Appended(c, e.key, e.value);
    if e.Put? then all else all[..Min(e.written, |all|)]
  }

  function Next(d: Disk, e: Event): Disk {
    match e
    case Put(_, _) => Recovered(d) + Tail(Recovered(d), e)
    case TornPut(_, _, _) => Recovered(d) + Tail(Recovered(d), e)
    case Get(_) => Recovered(d)
    case Reopen => Recovered(d)
    case TornRepair => if NeedsRepair(d) then HalfRepaired(d) else d
  }

  /** A put is committed when it was not needed or its commit byte was written. */
  predicate Committed(c: Disk, e: Event)
    requires e.Put? || e.TornPut?
  {
    || GetResult(c, e.key) == Some(e.value)
    || (!WriteFails(c, e.key, e.value) && |Tail(c, e)| > |Body(e.key, e.value)|)
  }

  function NextModel(d: Disk, m: Model, e: Event): Model {
    if (e.Put? || e.TornPut?) && Committed(Recovered(d), e) then m[e.key := e.value] else m
  }

  /** What a caller can check: sizes that fit the buffers, and no commit byte in
      the part of a put that reaches the disk without being committed. */
  predicate Legal(d: Disk, e: Event) {
    if e.Put? || e.TornPut? then
      Fits(e.key, e.value) && (Committed(Recovered(d), e) || COMMIT !in Tail(Recovered(d), e))
    else
      true
  }

  predicate LegalRun(d: Disk, es: seq<Event>)
    decreases es
  {
    es == [] || (Legal(d, es[0]) && LegalRun(Next(d, es[0]), es[1..]))
  }

  function Run(d: Disk, es: seq<Event>): Disk
    decreases es
  {
    if es == [] then d else Run(Next(d, es[0]), es[1..])
  }

  function RunModel(d: Disk, m: Model, es: seq<Event>): Model
    decreases es
  {
    if es == [] then m else RunModel(Next(d, es[0]), NextModel(d, m, es[0]), es[1..])
  }

  /** No put is appended at 2^31 bytes or beyond, so the file stays below this. */
  const LIMIT := TWO31 + 0x2_0000

  /** The relation between the clean file and the map of committed puts. The map
      agrees with the answers of the walk, fall-through to the oldest record
      included. */
  ghost predicate Agrees(log: seq<Record>, m: Model) {
    && (m == map[] <==> log == [])
    && (forall k :: k in m ==> Lookup(log, k) == Some(m[k]))
    && (forall i :: 0 <= i < |log| ==> log[i].key in m)
  }

  ghost predicate Holds(d: Disk, m: Model) {
    && Clean(Recovered(d)) && |Recovered(d)| <= LIMIT
    && Agrees(DecodeLog(Recovered(d)), m)
  }

  lemma {:induction false} AgreesAfterPut(log: seq<Record>, m: Model, key: CString, value: CString)
    requires Agrees(log, m)
    ensures Agrees(log + [Record(key, value)], m[key := value])
  {
    var r := Record(key, value);
    var log' := log + [r];
    assert log'[..|log|] == log;
    assert key in m[key := value];
  }

  /** A put dropped because the walk already answers its value, possibly with
      the oldest record of another key, still agrees. */
  lemma {:induction false} AgreesAfterDroppedPut(log: seq<Record>, m: Model, key: CString, value: CString)
    requires Agrees(log, m) && Lookup(log, key) == Some(value)
    ensures Agrees(log, m[key := value])
  {
    assert key in m[key := value];
  }

  /** An uncommitted tail leaves the records as they were. */
  lemma {:induction false} UncommittedTail(c: Disk, tail: seq<Byte>)
    requires Clean(c) && |c| <= LIMIT && COMMIT !in tail
    ensures Clean(Recovered(c + tail)) && |Recovered(c + tail)| <= LIMIT
    ensures DecodeLog(Recovered(c + tail)) == DecodeLog(c)
  {
    hide Recovered, EncodeLog, DecodeLog;
    if tail == [] {
      assert c + tail == c;
      CleanIsStable(c);
    } else {
      TornAppendIff(c, tail);
      JunkIsClean(c, tail);
    }
  }

  lemma {:induction false} JunkIsClean(c: Disk, tail: seq<Byte>)
    requires Clean(c) && COMMIT !in tail
    ensures Clean(Fallback(c, tail)) && DecodeLog(Fallback(c, tail)) == DecodeLog(c)
    ensures |Fallback(c, tail)| <= if |c| >= 2 then |c| else 2
  {
    if DecodeLog(c) == [] {
      var junk := CleanLog(c);
      CleanTail(c, junk, []);
      assert Laid([], [], []);
      if |c + tail| <= 2 {
        NoRecords(c + tail);
        assert Laid(c + tail, c + tail, []);
      }
    }
  }

  lemma {:induction false} CommittedStep(c: Disk, m: Model, key: CString, value: CString, tail: seq<Byte>)
    requires Clean(c) && |c| <= LIMIT && Agrees(DecodeLog(c), m) && Fits(key, value)
    requires !WriteFails(c, key, value)
    requires tail == Encode(Record(key, value)) || tail == Body(key, value) + [COMMIT]
    ensures Holds(c + tail, m[key := value])
  {
    hide Recovered, Encode, Body, DecodeLog, Clean, Agrees;
    var r := Record(key, value);
    CommittedAppend(c, r);
    Associative(c, Body(key, value), [COMMIT]);
    AgreesAfterPut(DecodeLog(c), m, key, value);
    EncodeShape(r);
  }

  /** A put, complete or torn. */
  lemma {:induction false} PutStep(c: Disk, m: Model, e: Event)
    requires e.Put? || e.TornPut?
    requires Clean(c) && Recovered(c) == c && |c| <= LIMIT && Agrees(DecodeLog(c), m) && Legal(c, e)
    ensures Holds(c + Tail(c, e), if Committed(c, e) then m[e.key := e.value] else m)
  {
    hide Recovered, Encode, Body, DecodeLog, Clean, Agrees;
    var tail := Tail(c, e);
    if GetResult(c, e.key) == Some(e.value) {
      assert c + tail == c;
      AgreesAfterDroppedPut(DecodeLog(c), m, e.key, e.value);
    } else if Committed(c, e) {
      TailShape(c, e);
      CommittedStep(c, m, e.key, e.value, tail);
    } else {
      UncommittedTail(c, tail);
    }
  }

  lemma {:induction false} TailShape(c: Disk, e: Event)
    requires e.Put? || e.TornPut?
    requires GetResult(c, e.key) != Some(e.value) && Committed(c, e)
    ensures Tail(c, e) == Encode(Record(e.key, e.value)) || Tail(c, e) == Body(e.key, e.value) + [COMMIT]
  {
    hide Body, GetResult, WriteFails;
    var b := Body(e.key, e.value);
    var all := Encode(Record(e.key, e.value));
    assert all == b + [COMMIT, NUL];
    assert all[..|b| + 1] == b + [COMMIT];
    assert all[..|all|] == all;
  }

  lemma {:induction false} Step(d: Disk, m: Model, e: Event)
    requires Holds(d, m) && Legal(d, e)
    ensures Holds(Next(d, e), NextModel(d, m, e))
  {
    hide Recovered, HalfRepaired, DecodeLog, Clean, Agrees, Tail, Committed;
    RecoveryIdempotent(d);
    if e.Put? || e.TornPut? {
      PutStep(Recovered(d), m, e);
    }
  }

  lemma {:induction false} RunHolds(d: Disk, m: Model, es: seq<Event>)
    requires Holds(d, m) && LegalRun(d, es)
    ensures Holds(Run(d, es), RunModel(d, m, es))
    decreases es
  {
    hide Holds, Next, NextModel, Legal;
    if es != [] {
      Step(d, m, es[0]);
      RunHolds(Next(d, es[0]), NextModel(d, m, es[0]), es[1..]);
    }
  }

  lemma {:induction false} EmptyFileHolds()
    ensures Holds([], map[])
  {
    assert Laid([], [], []);
    LaidDecodes([], [], []);
  }

  /** The file size up to which a get can be answered. */
  predicate Answerable(c: Disk) {
    |c| - 7 < TWO31
  }

  lemma {:induction false} CommittedAnswer(d: Disk, m: Model, key: CString)
    requires Holds(d, m) && key in m
    ensures GetResult(Recovered(d), key) == Some(m[key]) <==> Answerable(Recovered(d))
  {
    hide Recovered, DecodeLog, Clean;
    RecordsLong(Recovered(d));
  }

  lemma {:induction false} OtherAnswer(d: Disk, m: Model, key: CString)
    requires Holds(d, m) && key !in m
    ensures GetResult(Recovered(d), key) == None <==> m == map[] || !Answerable(Recovered(d))
  {
    hide Recovered, DecodeLog, Clean, Lookup;
    var log := DecodeLog(Recovered(d));
    assert Agrees(log, m);
    AbsentKeyGetsNothingIffEmpty(log, key);
    if log != [] {
      RecordsLong(Recovered(d));
    }
  }

  /** After any run a get of any committed key answers its last committed value,
      exactly while the file is small enough for the first seek of the walk. */
  lemma {:induction false} Durable(es: seq<Event>, key: CString)
    requires LegalRun([], es)
    requires key in RunModel([], map[], es)
    ensures var c := Recovered(Run([], es));
      GetResult(c, key) == Some(RunModel([], map[], es)[key]) <==> Answerable(c)
  {
    hide Recovered, Holds, Run, RunModel, LegalRun, GetResult;
    EmptyFileHolds();
    RunHolds([], map[], es);
    CommittedAnswer(Run([], es), RunModel([], map[], es), key);
  }

  lemma {:induction false} RecordsLong(c: Disk)
    requires Clean(c) && DecodeLog(c) != []
    ensures |c| >= 16
  {
    var junk := CleanLog(c);
    CleanTail(c, junk, DecodeLog(c));
  }

  /** A key that no put committed gets the documented null answer exactly when
      nothing at all was committed, or the file is too long for any answer: otherwise
      the oldest record answers. */
  lemma {:induction false} NeverPut(es: seq<Event>, key: CString)
    requires LegalRun([], es) && key !in RunModel([], map[], es)
    ensures var c := Recovered(Run([], es));
      GetResult(c, key) == None <==> RunModel([], map[], es) == map[] || !Answerable(c)
  {
    hide Recovered, Holds, Run, RunModel, LegalRun, GetResult, Answerable;
    EmptyFileHolds();
    RunHolds([], map[], es);
    OtherAnswer(Run([], es), RunModel([], map[], es), key);
  }

  lemma {:induction false} RunMore(d: Disk, m: Model, es: seq<Event>, e: Event)
    ensures Run(d, es + [e]) == Next(Run(d, es), e)
    ensures RunModel(d, m, es + [e]) == NextModel(Run(d, es), RunModel(d, m, es), e)
    ensures LegalRun(d, es + [e]) <==> LegalRun(d, es) && Legal(Run(d, es), e)
    decreases es
  {
    hide Next, NextModel, Legal;
    if es == [] {
      assert [] + [e] == [e] && [e][1..] == [];
    } else {
      assert (es + [e])[1..] == es[1..] + [e];
      RunMore(Next(d, es[0]), NextModel(d, m, es[0]), es[1..], e);
    }
  }

  lemma {:induction false} ReturnIsCommitted(c: Disk, key: CString, value: CString)
    ensures PutReturn(c, key, value) == 0 <==> Committed(c, Put(key, value))
  {
    hide Body, GetResult, WriteFails;
    assert |Encode(Record(key, value))| > |Body(key, value)|;
  }

  /** After any run, which puts succeed: those the file already answers with their value, and
      those of two non-empty strings while the recovered file is below 2^31 bytes. */
  lemma {:induction false} PutSucceedsIff(es: seq<Event>, key: CString, value: CString)
    requires LegalRun([], es) && Fits(key, value)
    ensures var c := Recovered(Run([], es)); var put := PutReturn(c, key, value);
      && (put == 0 || put == -1)
      && (put == 0 <==>
        GetResult(c, key) == Some(value) || (key != [] && value != [] && |c| < 0x8000_0000))
  {
    hide Recovered, Holds, Run, RunModel, LegalRun, GetResult;
    EmptyFileHolds();
    RunHolds([], map[], es);
    HoldsClean(Run([], es), RunModel([], map[], es));
    PutReturnIs(Recovered(Run([], es)), key, value);
  }

  /** A put that is not committed changes no answer. */
  lemma {:induction false} UncommittedAnswer(d: Disk, m: Model, key: CString, value: CString)
    requires Holds(d, m) && Legal(d, Put(key, value)) && !Committed(Recovered(d), Put(key, value))
    ensures GetResult(Recovered(Next(d, Put(key, value))), key) == GetResult(Recovered(d), key)
  {
    hide Recovered, Holds, DecodeLog, Clean, Lookup, EncodeLog, Body, Encode, Agrees;
    var c := Recovered(d);
    var tail := Tail(c, Put(key, value));
    var e := Recovered(c + tail);
    assert Clean(c) && |c| <= LIMIT by { HoldsClean(d, m); }
    UncommittedTail(c, tail);
    EmptyIsShort(c);
    EmptyIsShort(e);
    if DecodeLog(c) != [] { UncommittedUndone(c, tail); }
  }

  lemma {:induction false} HoldsClean(d: Disk, m: Model)
    requires Holds(d, m)
    ensures Clean(Recovered(d)) && |Recovered(d)| <= LIMIT
  {
  }

  lemma {:induction false} EmptyIsShort(c: Disk)
    requires Clean(c)
    ensures DecodeLog(c) == [] ==> |c| <= 2
  {
    hide EncodeLog, DecodeLog;
    var junk := CleanLog(c);
    if DecodeLog(c) == [] { CleanTail(c, junk, []); }
  }

  lemma {:induction false} UncommittedUndone(c: Disk, tail: seq<Byte>)
    requires Clean(c) && DecodeLog(c) != [] && COMMIT !in tail
    ensures Recovered(c + tail) == c
  {
    hide Recovered, EncodeLog, DecodeLog;
    var junk := CleanLog(c);
    CleanTail(c, junk, DecodeLog(c));
    if tail == [] {
      assert c + tail == c;
      CleanIsStable(c);
    } else {
      UnmarkedTail(c, tail);
    }
  }

  /** After any run, a put returns 0 if and only if a get straight after it answers the
      value put, files too long for any answer apart. */
  lemma {:induction false} PutThenGet(es: seq<Event>, key: CString, value: CString)
    requires LegalRun([], es + [Put(key, value)])
    ensures var put := PutReturn(Recovered(Run([], es)), key, value);
      var c := Recovered(Run([], es + [Put(key, value)]));
      GetResult(c, key) == Some(value) <==> put == 0 && Answerable(c)
  {
    hide Recovered, Holds, Run, RunModel, LegalRun, GetResult, Answerable, Committed, Next, Legal;
    var d, m, e := Run([], es), RunModel([], map[], es), Put(key, value);
    EmptyFileHolds();
    RunMore([], map[], es, e);
    RunHolds([], map[], es);
    Step(d, m, e);
    ReturnIsCommitted(Recovered(d), key, value);
    if Committed(Recovered(d), e) {
      CommittedAnswer(Next(d, e), m[key := value], key);
    } else {
      UncommittedAnswer(d, m, key, value);
      assert GetResult(Recovered(d), key) != Some(value) by { CommittedIfAnswered(Recovered(d), e); }
    }
  }

  lemma CommittedIfAnswered(c: Disk, e: Event)
    requires e.Put? || e.TornPut?
    ensures GetResult(c, e.key) == Some(e.value) ==> Committed(c, e)
  {
  }

  /** The documented answer missed: one put of "a", then a get of "c". */
  lemma {:induction false} AbsentKeyAnswered()
    ensures var es := [Put([97], [98])]; LegalRun([], es)
    ensures var es := [Put([97], [98])];
      GetResult(Recovered(Run([], es)), [99]) == Some([98]) && [99] !in RunModel([], map[], es)
  {
    hide Recovered, Encode, DecodeLog, Clean, Body;
    var e: Event := Put([97], [98]);
    var r := Record([97], [98]);
    EmptyClean();
    CommittedAppend([], r);
    assert [] + Encode(r) == Encode(r);
    EncodeShape(r);
    LongerThanBody(r);
    assert Next([], e) == Encode(r);
    assert [e][1..] == [];
    assert [] + [r] == [r];
  }

  lemma {:induction false} EmptyClean()
    ensures Clean([]) && DecodeLog([]) == [] && Recovered([]) == []
  {
    EmptyFileHolds();
    CleanIsStable([]);
    LaidDecodes([], [], []);
  }

  lemma {:induction false} LongerThanBody(r: Record)
    ensures |Encode(r)| > |Body(r.key, r.value)|
  {
  }

  /** Why a torn put must not contain a commit byte: the first put, of a key
      with that byte, stopped after four bytes, leaves bytes recovery keeps. */
  lemma {:induction false} CommitByteInTornKey()
    ensures var torn: Disk := [97, COMMIT, 98, 99];
      torn <= Body(torn, [99]) && Recovered(torn) == [97, COMMIT, NUL]
  {
    hide Format;
    var torn: Disk := [97, COMMIT, 98, 99];
    LastCommitUnique(torn, 3, 1);
    assert torn[..2] + [NUL] == [97, COMMIT, NUL];
    assert Body(torn, [99])[..4] == torn;
  }
}
