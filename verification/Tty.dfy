/** The terminal's input queue: a ring of bytes edited in place. */
module Tty {
  import opened Bytes
  import opened LineEdit

  const TTY_COOK_BUF_SZ := 1024

  /** Ring positions: k places after i. */
  function At(i: nat, k: nat): nat {
    if i + k < TTY_COOK_BUF_SZ then i + k else i + k - TTY_COOK_BUF_SZ
  }

  /** What the queue holds: each finished line with a terminating zero, then the open
      line. */
  function Queued(lines: seq<seq<Byte>>, partial: seq<Byte>): seq<Byte> {
    if lines == [] then partial else lines[0] + [0] + Queued(lines[1..], partial)
  }

  /** Lines end with their only newline and hold no zero; the open line has neither. */
  ghost predicate TextOk(t: Text) {
    && (forall i :: 0 <= i < |t.lines| ==> LineOk(t.lines[i]))
    && 0 !in t.partial && NEWLINE !in t.partial
  }

  ghost predicate LineOk(l: seq<Byte>) {
    l != [] && l[|l| - 1] == NEWLINE && 0 !in l && NEWLINE !in l[..|l| - 1]
  }

  class Tty {
    const buf: array<Byte>
    var front: nat
    var rear: nat
    var cooked: nat                // value of the semaphore of finished lines
    ghost var admitted: nat        // readers past the semaphore that have not read yet
    ghost var data: seq<Byte>      // unread bytes
    ghost var text: Text

    /** The bytes from front up to rear are data, and a zero follows. */
    ghost predicate Ring()
      reads `front, `rear, `data, buf
    {
      && buf.Length == TTY_COOK_BUF_SZ && front < TTY_COOK_BUF_SZ && rear < TTY_COOK_BUF_SZ
      && |data| < TTY_COOK_BUF_SZ && rear == At(front, |data|) && buf[rear] == 0
      && (forall k :: 0 <= k < |data| ==> buf[At(front, k)] == data[k])
    }

    /** The byte before front is zero too: it stops the backspace. */
    ghost predicate Stopped()
      requires buf.Length == TTY_COOK_BUF_SZ && front < TTY_COOK_BUF_SZ
      reads `front, buf
    {
      buf[At(front, TTY_COOK_BUF_SZ - 1)] == 0
    }

    ghost predicate Valid()
      reads this, buf
    {
      && Ring() && Stopped() && TextOk(text)
      && data == Queued(text.lines, text.partial)
      && |text.lines| == cooked + admitted
    }

    ghost function View(): State
      reads this
    {
      State(text, cooked, admitted)
    }

    constructor ()
      ensures Valid() && View() == START
    {
      buf := new Byte[TTY_COOK_BUF_SZ](_ => 0);
      front, rear, cooked, admitted := 0, 0, 0, 0;
      data, text := [], Text([], []);
    }

    /** `tty_enqueue`; not ok where it panics. */
    method Enqueue(ch: Byte) returns (ok: bool)
      requires Ring() && Stopped()
      modifies this`rear, this`data, buf
      ensures ok == (|old(data)| + 1 < TTY_COOK_BUF_SZ)
      ensures ok ==> Ring() && Stopped() && data == old(data) + [ch]
    {
      buf[rear] := ch;
      rear := rear + 1;
      if rear == TTY_COOK_BUF_SZ {
        rear := 0;
      }
      if rear == front {
        return false;
      }
      buf[rear] := 0;
      data := data + [ch];
      ok := true;
    }

    /** `tty_pop_back`: 1 when there is nothing of the open line to take back. */
    method PopBack() returns (ret: int)
      requires Ring() && Stopped()
      modifies this`rear, this`data, buf
      ensures Ring() && Stopped()
      ensures old(data) != [] && old(data)[|old(data)| - 1] != 0 ==> ret == 0 && data == old(data)[..|old(data)| - 1]
      ensures old(data) == [] || old(data)[|old(data)| - 1] == 0 ==> ret == 1 && data == old(data)
    {
      if front != TTY_COOK_BUF_SZ {
        var pos := rear;
        if pos == 0 {
          pos := TTY_COOK_BUF_SZ;
        }
        assert data != [] ==> pos - 1 == At(front, |data| - 1);
        assert data == [] ==> pos - 1 == At(front, TTY_COOK_BUF_SZ - 1);
        if buf[pos - 1] != 0 {
          rear := pos - 1;
          buf[rear] := 0;
          data := data[..|data| - 1];
          return 0;
        }
      }
      return 1;
    }

    /** `tty_cook` on a keystroke: 1 when a backspace has nothing to take back. Not ok
        where the full queue panics. A zero is queued like any other byte: it ends a line
        that no unit of the semaphore announces. */
    method Cook(ch: Byte) returns (ok: bool, ret: int)
      requires Valid()
      modifies this`rear, this`data, this`cooked, this`text, buf
      ensures ok == (ch == BACKSPACE || |old(data)| + (if ch == NEWLINE then 2 else 1) < TTY_COOK_BUF_SZ)
      ensures ok && ch != 0 ==> Valid() && View() == Next(old(View()), Press(ch))
      ensures ok && ch == 0 ==> Ring() && Stopped() && data == old(data) + [0] && View() == old(View())
      ensures ok ==> ret == if ch == BACKSPACE && old(text.partial) == [] then 1 else 0
    {
      hide Queued, TextOk, Ring, Stopped;
      QueuedStop(text);
      if ch != 0 {
        KeyQueued(text, ch);
        KeyOk(text, ch);
      }
      ret := 0;
      if ch == NEWLINE {
        ok := Enqueue(ch);
        if !ok {
          return;
        }
        ok := Enqueue(0);
        if !ok {
          return;
        }
        cooked := cooked + 1;
      } else if ch == BACKSPACE {
        ret := PopBack();
        ok := true;
      } else {
        ok := Enqueue(ch);
        if !ok {
          return;
        }
      }
      if ch != 0 {
        text := Key(text, ch);
      }
    }

    /** The first wait of `tty_read`, passing the semaphore of finished lines. */
    method WaitCooked()
      requires Valid() && cooked > 0
      modifies this`cooked, this`admitted
      ensures Valid() && View() == Next(old(View()), Admit)
    {
      cooked := cooked - 1;
      admitted := admitted + 1;
    }

    /** The loop of `tty_read`. */
    method TakeLine(out: array<Byte>, count: nat, ghost line: seq<Byte>, ghost rest: seq<Byte>) returns (nread: nat)
      requires Ring() && out != buf && count <= out.Length && data == line + [0] + rest && 0 !in line
      modifies this`front, this`data, out
      ensures Ring() && Stopped() && nread == |line| && data == rest
      ensures forall k :: 0 <= k < out.Length ==> out[k] == if k < count && k < nread then line[k] else old(out[k])
    {
      nread := 0;
      while true
        invariant Ring() && nread <= |line| && data == line[nread..] + [0] + rest
        invariant forall k :: 0 <= k < out.Length ==> out[k] == if k < count && k < nread then line[k] else old(out[k])
        decreases |line| - nread
      {
        var ch := buf[front];
        assert ch == data[0] by { assert At(front, 0) == front; }
        if nread < count && ch != 0 {
          out[nread] := buf[front];
        }
        Advance();
        if ch == 0 {
          break;
        }
        nread := nread + 1;
      }
    }

    /** Move front past one byte. */
    method Advance()
      requires Ring() && data != []
      modifies this`front, this`data
      ensures Ring() && data == old(data)[1..]
      ensures old(data)[0] == 0 ==> Stopped()
    {
      assert buf[front] == data[0] by { assert At(front, 0) == front; }
      front := front + 1;
      if front == TTY_COOK_BUF_SZ {
        front := 0;
      }
      data := data[1..];
    }

    /** The rest of `tty_read`, by a reader let in: take the oldest finished line, copy
        what fits, and return the length of the line. */
    method Read(out: array<Byte>, count: nat) returns (nread: nat)
      requires Valid() && admitted > 0 && out != buf && count <= out.Length
      modifies this`front, this`data, this`text, this`admitted, out
      ensures Valid() && old(text.lines) != [] && View() == Next(old(View()), Take)
      ensures nread == |old(text.lines)[0]|
      ensures forall k :: 0 <= k < out.Length ==>
        out[k] == if k < count && k < nread then old(text.lines)[0][k] else old(out[k])
    {
      hide Queued, TextOk;
      QueuedFirst(text);
      nread := TakeLine(out, count, text.lines[0], Queued(text.lines[1..], text.partial));
      text := text.(lines := text.lines[1..]);
      admitted := admitted - 1;
    }
  }

  /** The last byte queued is that of the open line, or the zero of the last line. */
  lemma {:induction false} QueuedEnd(lines: seq<seq<Byte>>, partial: seq<Byte>)
    ensures var q := Queued(lines, partial);
      && (partial != [] ==>
            q != [] && q[|q| - 1] == partial[|partial| - 1] && q[..|q| - 1] == Queued(lines, Back(partial)))
      && (partial == [] && lines != [] ==> q != [] && q[|q| - 1] == 0)
      && (partial == [] && lines == [] ==> q == [])
  {
    if lines != [] {
      QueuedEnd(lines[1..], partial);
    }
  }

  lemma {:induction false} QueuedMore(lines: seq<seq<Byte>>, partial: seq<Byte>, more: seq<Byte>)
    ensures Queued(lines, partial) + more == Queued(lines, partial + more)
  {
    if lines != [] {
      QueuedMore(lines[1..], partial, more);
    }
  }

  lemma {:induction false} QueuedLine(lines: seq<seq<Byte>>, l: seq<Byte>)
    ensures Queued(lines, l + [0]) == Queued(lines + [l], [])
  {
    if lines != [] {
      QueuedLine(lines[1..], l);
      assert (lines + [l])[1..] == lines[1..] + [l];
    } else {
      assert Queued([], []) == [];
    }
  }

  /** What a keystroke does to the queued bytes. */
  lemma {:induction false} KeyQueued(t: Text, ch: Byte)
    requires ch != 0
    ensures var u := Key(t, ch); var q := Queued(t.lines, t.partial); var q' := Queued(u.lines, u.partial);
      && (ch == NEWLINE ==> q' == q + [ch] + [0])
      && (ch == BACKSPACE && t.partial == [] ==> q' == q)
      && (ch == BACKSPACE && t.partial != [] ==> q != [] && q' == q[..|q| - 1])
      && (ch != NEWLINE && ch != BACKSPACE ==> q' == q + [ch])
  {
    QueuedEnd(t.lines, t.partial);
    QueuedMore(t.lines, t.partial, [ch]);
    QueuedMore(t.lines, t.partial + [NEWLINE], [0]);
    QueuedLine(t.lines, t.partial + [NEWLINE]);
    hide Queued;
  }

  /** After a queued zero the bytes are no lines any more, whatever text one takes. */
  lemma {:induction false} ZeroKeyMisfits(t: Text, u: Text)
    requires TextOk(t) && TextOk(u)
    ensures Queued(u.lines, u.partial) != Queued(t.lines, t.partial) + [0]
  {
    QueuedEnd(t.lines, t.partial);
    QueuedEnd(u.lines, u.partial);
    if u.lines != [] { LastLineEnds(u.lines); }
    hide Queued, LineOk;
  }

  /** Before the zero of the last line there is its newline. */
  lemma {:induction false} LastLineEnds(lines: seq<seq<Byte>>)
    requires lines != [] && forall i :: 0 <= i < |lines| ==> LineOk(lines[i])
    ensures var q := Queued(lines, []); |q| >= 2 && q[|q| - 2] == NEWLINE && q[|q| - 1] == 0
  {
    assert LineOk(lines[0]);
    if |lines| > 1 {
      LastLineEnds(lines[1..]);
    } else {
      assert Queued(lines[1..], []) == [];
    }
  }

  lemma {:induction false} KeyOk(t: Text, ch: Byte)
    requires TextOk(t) && ch != 0
    ensures TextOk(Key(t, ch))
  {
    if ch == NEWLINE {
      var l := t.partial + [NEWLINE];
      assert l[..|l| - 1] == t.partial;
      assert LineOk(l);
    }
    hide LineOk;
  }

  /** At the end of the queued bytes: the last byte of the open line, or a zero. */
  lemma {:induction false} QueuedStop(t: Text)
    requires TextOk(t)
    ensures var q := Queued(t.lines, t.partial);
      q != [] && q[|q| - 1] != 0 <==> t.partial != []
  {
    QueuedEnd(t.lines, t.partial);
    hide Queued, LineOk;
  }

  /** At the front: the oldest line up to its zero. */
  lemma {:induction false} QueuedFirst(t: Text)
    requires TextOk(t) && t.lines != []
    ensures Queued(t.lines, t.partial) == t.lines[0] + [0] + Queued(t.lines[1..], t.partial)
    ensures 0 !in t.lines[0] && TextOk(t.(lines := t.lines[1..]))
  {
    assert LineOk(t.lines[0]);
    hide LineOk;
  }
}
