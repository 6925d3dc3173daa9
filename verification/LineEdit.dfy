/** The line discipline of a terminal as functions: keystrokes edit lines, reads take
    finished lines in order. */
module LineEdit {
  import opened Bytes

  const NEWLINE: Byte := 10
  const BACKSPACE: Byte := 8

  /** The unread finished lines, each with its newline, and the line being typed. */
  datatype Text = Text(lines: seq<seq<Byte>>, partial: seq<Byte>)

  function Key(t: Text, ch: Byte): Text {
    if ch == NEWLINE then Text(t.lines + [t.partial + [NEWLINE]], [])
    else if ch == BACKSPACE then t.(partial := Back(t.partial))
    else t.(partial := t.partial + [ch])
  }

  function Back(s: seq<Byte>): seq<Byte> {
    if s == [] then [] else s[..|s| - 1]
  }

  /** All lines typed by a stream of keystrokes. */
  function Typed(keys: seq<Byte>): Text {
    if keys == [] then Text([], []) else Key(Typed(keys[..|keys| - 1]), keys[|keys| - 1])
  }

  // ---- what a line is, keystroke segment by keystroke segment ----

  /** What is left of the keystrokes of one line when every backspace has taken out
      the character before it. */
  function Edited(keys: seq<Byte>): seq<Byte> {
    if keys == [] then []
    else
      var before := Edited(keys[..|keys| - 1]);
      if keys[|keys| - 1] == BACKSPACE then Back(before) else before + [keys[|keys| - 1]]
  }

  /** The segments ended by a newline, and the open one at the end. */
  function Segments(keys: seq<Byte>): (seq<seq<Byte>>, seq<Byte>) {
    if keys == [] then ([], [])
    else
      var (done, open) := Segments(keys[..|keys| - 1]);
      var ch := keys[|keys| - 1];
      if ch == NEWLINE then (done + [open], []) else (done, open + [ch])
  }

  /** The segments with their newlines put back make the stream. */
  function Joined(done: seq<seq<Byte>>): seq<Byte> {
    if done == [] then [] else Joined(done[..|done| - 1]) + done[|done| - 1] + [NEWLINE]
  }

  lemma {:induction false} SegmentsMakeStream(keys: seq<Byte>)
    ensures var (done, open) := Segments(keys);
      && keys == Joined(done) + open && NEWLINE !in open
      && (forall i :: 0 <= i < |done| ==> NEWLINE !in done[i])
  {
    if keys != [] {
      hide Joined;
      var before, ch := keys[..|keys| - 1], keys[|keys| - 1];
      SegmentsMakeStream(before);
      SegmentsMore(before, ch);
      hide Segments;
      assert keys == before + [ch];
      var (done, open) := Segments(before);
      OneMore(done, open, ch);
    }
  }

  lemma {:induction false} SegmentsMore(before: seq<Byte>, ch: Byte)
    ensures var (done, open) := Segments(before);
      Segments(before + [ch]) == if ch == NEWLINE then (done + [open], []) else (done, open + [ch])
  {
    assert (before + [ch])[..|before|] == before;
  }

  lemma {:induction false} OneMore(done: seq<seq<Byte>>, open: seq<Byte>, ch: Byte)
    ensures ch == NEWLINE ==> Joined(done + [open]) + [] == (Joined(done) + open) + [ch]
    ensures Joined(done) + (open + [ch]) == (Joined(done) + open) + [ch]
  {
    JoinedMore(done, open);
  }

  lemma {:induction false} JoinedMore(done: seq<seq<Byte>>, l: seq<Byte>)
    ensures Joined(done + [l]) == Joined(done) + l + [NEWLINE]
  {
    assert (done + [l])[..|done|] == done;
  }

  /** The k-th line is the k-th segment edited on its own: no backspace reaches a
      finished line. */
  lemma {:induction false} LinesAreEditedSegments(keys: seq<Byte>)
    ensures var (done, open) := Segments(keys); var t := Typed(keys);
      && t.partial == Edited(open) && |t.lines| == |done|
      && (forall i :: 0 <= i < |done| ==> t.lines[i] == Edited(done[i]) + [NEWLINE])
  {
    if keys != [] {
      LinesAreEditedSegments(keys[..|keys| - 1]);
      var (done, open) := Segments(keys[..|keys| - 1]);
      var ch := keys[|keys| - 1];
      assert (open + [ch])[..|open|] == open;
    }
  }

  /** What editing is: text without backspaces is kept, a backspace takes out the character
      before it, and does nothing where none is left. */
  lemma {:induction false} Editing(keys: seq<Byte>, ch: Byte)
    ensures BACKSPACE !in keys ==> Edited(keys) == keys
    ensures ch != BACKSPACE ==> Edited(keys + [ch]) == Edited(keys) + [ch]
    ensures ch != BACKSPACE ==> Edited(keys + [ch] + [BACKSPACE]) == Edited(keys)
    ensures Edited(keys) == [] ==> Edited(keys + [BACKSPACE]) == []
  {
    assert (keys + [ch])[..|keys|] == keys;
    assert (keys + [ch] + [BACKSPACE])[..|keys| + 1] == keys + [ch];
    assert (keys + [BACKSPACE])[..|keys|] == keys;
    NothingEdited(keys);
  }

  lemma {:induction false} NothingEdited(keys: seq<Byte>)
    ensures BACKSPACE !in keys ==> Edited(keys) == keys
  {
    if keys != [] {
      NothingEdited(keys[..|keys| - 1]);
      assert keys == keys[..|keys| - 1] + [keys[|keys| - 1]];
    }
  }

  // ---- runs: keystrokes and reads interleaved ----

  /** A reader first waits for a finished line, then takes it; other steps may come
      between. */
  datatype Step = Press(ch: Byte) | Admit | Take

  datatype State = State(text: Text, cooked: nat, admitted: nat)

  const START := State(Text([], []), 0, 0)

  predicate Enabled(s: State, e: Step) {
    match e
    case Press(ch) => ch != 0
    case Admit => s.cooked > 0
    case Take => s.admitted > 0
  }

  function Next(s: State, e: Step): State {
    match e
    case Press(ch) => State(Key(s.text, ch), if ch == NEWLINE then s.cooked + 1 else s.cooked, s.admitted)
    case Admit => if s.cooked > 0 then s.(cooked := s.cooked - 1, admitted := s.admitted + 1) else s
    case Take =>
      if s.admitted > 0 && s.text.lines != []
      then s.(text := s.text.(lines := s.text.lines[1..]), admitted := s.admitted - 1) else s
  }

  function After(es: seq<Step>): State {
    if es == [] then START else Next(After(es[..|es| - 1]), es[|es| - 1])
  }

  predicate Legal(es: seq<Step>) {
    es != [] ==> Legal(es[..|es| - 1]) && Enabled(After(es[..|es| - 1]), es[|es| - 1])
  }

  function Pressed(e: Step): seq<Byte> {
    if e.Press? then [e.ch] else []
  }

  function Took(s: State, e: Step): seq<seq<Byte>> {
    if e.Take? && s.text.lines != [] then [s.text.lines[0]] else []
  }

  /** The keystrokes of a run, and the lines its reads took. */
  function Keys(es: seq<Step>): seq<Byte> {
    if es == [] then [] else Keys(es[..|es| - 1]) + Pressed(es[|es| - 1])
  }

  function Reads(es: seq<Step>): seq<seq<Byte>> {
    if es == [] then [] else Reads(es[..|es| - 1]) + Took(After(es[..|es| - 1]), es[|es| - 1])
  }

  /** The finished lines are those read and then those queued, and the queue holds
      one for each unit of the semaphore and each admitted reader. */
  ghost predicate Accounted(s: State, taken: seq<seq<Byte>>, keys: seq<Byte>) {
    && taken + s.text.lines == Typed(keys).lines && s.text.partial == Typed(keys).partial
    && |s.text.lines| == s.cooked + s.admitted
  }

  lemma {:induction false} StepAccounted(s: State, taken: seq<seq<Byte>>, keys: seq<Byte>, e: Step)
    requires Accounted(s, taken, keys) && Enabled(s, e)
    ensures Accounted(Next(s, e), taken + Took(s, e), keys + Pressed(e))
  {
    match e
    case Press(ch) =>
      assert (keys + [ch])[..|keys|] == keys;
      assert taken + [] == taken;
      if ch == NEWLINE {
        var more := [s.text.partial + [NEWLINE]];
        assert taken + (s.text.lines + more) == (taken + s.text.lines) + more;
      }
    case Admit =>
      assert keys + [] == keys && taken + [] == taken;
    case Take =>
      assert keys + [] == keys;
      assert taken + s.text.lines == (taken + [s.text.lines[0]]) + s.text.lines[1..];
  }

  lemma {:induction false} RunAccounted(es: seq<Step>)
    requires Legal(es)
    ensures Accounted(After(es), Reads(es), Keys(es))
  {
    hide Accounted, Next, Took, Pressed, Enabled;
    if es != [] {
      RunAccounted(es[..|es| - 1]);
      StepAccounted(After(es[..|es| - 1]), Reads(es[..|es| - 1]), Keys(es[..|es| - 1]), es[|es| - 1]);
    } else {
      StartAccounted();
    }
  }

  lemma StartAccounted()
    ensures Accounted(START, [], [])
  {
  }

  /** The k-th read takes exactly the k-th line typed, and a reader let in always
      finds a finished line. */
  lemma ReadsInOrder(es: seq<Step>, k: nat)
    requires Legal(es)
    ensures k < |Reads(es)| ==> k < |Typed(Keys(es)).lines| && Reads(es)[k] == Typed(Keys(es)).lines[k]
    ensures After(es).admitted > 0 ==> After(es).text.lines != []
  {
    hide Reads, Typed, After, Legal;
    RunAccounted(es);
  }

  function Admits(es: seq<Step>): nat {
    if es == [] then 0 else Admits(es[..|es| - 1]) + if es[|es| - 1] == Admit then 1 else 0
  }

  function Takes(es: seq<Step>): nat {
    if es == [] then 0 else Takes(es[..|es| - 1]) + if es[|es| - 1] == Take then 1 else 0
  }

  lemma {:induction false} StepCounted(s: State, e: Step)
    requires Enabled(s, e) && (s.admitted > 0 ==> s.text.lines != [])
    ensures Next(s, e).cooked + (if e == Admit then 1 else 0) == s.cooked + multiset(Pressed(e))[NEWLINE]
    ensures Next(s, e).admitted + |Took(s, e)| == s.admitted + (if e == Admit then 1 else 0)
    ensures |Took(s, e)| == if e == Take then 1 else 0
  {
    hide Key;
  }

  /** The semaphore of finished lines counts: a newline adds a unit, a reader let in takes one,
      and each such reader takes one line. */
  lemma {:induction false} LinesCounted(es: seq<Step>)
    requires Legal(es)
    ensures After(es).cooked + Admits(es) == multiset(Keys(es))[NEWLINE]
    ensures After(es).admitted + |Reads(es)| == Admits(es)
    ensures |Reads(es)| == Takes(es)
  {
    hide Next, Enabled, Pressed, Took;
    if es != [] {
      var before, e := es[..|es| - 1], es[|es| - 1];
      LinesCounted(before);
      ReadsInOrder(before, 0);
      StepCounted(After(before), e);
    }
  }
}
