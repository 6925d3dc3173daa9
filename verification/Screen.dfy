/** The terminal's screen: a fixed array of cells that shows the last rows of an
    endless tape of output. */
module Screen {
  import opened Bytes
  import LineEdit

  const CR: Byte := 13
  const LF: Byte := 10
  const BS: Byte := 8

  /** All rows ever shown, one after the other, and the cursor. */
  datatype Tape = Tape(cells: seq<Byte>, pos: nat)

  /** A fresh row when the cursor has left the last one. */
  function Grown(t: Tape, columns: nat): Tape {
    if t.pos == |t.cells| then t.(cells := t.cells + Zeros(columns)) else t
  }

  /** One output character; of the tape only the last `size` cells can be erased. */
  function Put(t: Tape, ch: Byte, columns: nat, size: nat): Tape
    requires columns > 0
  {
    if ch == CR then t.(pos := t.pos - t.pos % columns)
    else if ch == BS then
      if t.pos + size > |t.cells| && 0 < t.pos <= |t.cells| then Tape(t.cells[t.pos - 1 := 0], t.pos - 1) else t
    else if ch == LF then Grown(t.(pos := t.pos - t.pos % columns + columns), columns)
    else if t.pos < |t.cells| then Grown(Tape(t.cells[t.pos := ch], t.pos + 1), columns) else t
  }

  function Feed(t: Tape, out: seq<Byte>, columns: nat, size: nat): Tape
    requires columns > 0
  {
    if out == [] then t else Put(Feed(t, out[..|out| - 1], columns, size), out[|out| - 1], columns, size)
  }

  ghost predicate TapeOk(t: Tape, columns: nat, size: nat) {
    && columns > 0 && |t.cells| % columns == 0 && size % columns == 0
    && size <= |t.cells| && |t.cells| - size <= t.pos < |t.cells|
  }

  // ---- rows ----

  lemma {:induction false} RowShift(a: nat, b: nat, c: nat)
    requires c > 0 && b % c == 0
    ensures (a + b) % c == a % c
  {
    var q := b / c;
    assert a + b == (a / c + q) * c + a % c;
    ModUnique(a + b, a / c + q, a % c, c);
  }

  lemma {:induction false} ModUnique(n: int, q: int, r: int, c: int)
    requires 0 <= r < c && n == q * c + r
    ensures n % c == r && n / c == q
  {
    var d := n / c - q;
    assert n == (n / c) * c + n % c;
    assert d * c == (n / c) * c - q * c;
    Sign(d, c);
  }

  lemma {:induction false} Sign(d: int, c: int)
    requires c > 0
    ensures d > 0 ==> d * c >= c
    ensures d < 0 ==> d * c + c <= 0
  {
  }

  /** A row that starts before a row boundary ends at it or before. */
  lemma {:induction false} RowFits(a: nat, n: nat, c: nat)
    requires c > 0 && a < n && n % c == 0
    ensures a - a % c + c <= n && (a - a % c) % c == 0
  {
    var k, m := a / c, n / c;
    assert a == k * c + a % c && n == m * c;
    assert m <= k ==> m * c <= k * c;
    assert (k + 1) * c <= m * c;
    ModUnique(a - a % c, k, 0, c);
  }

  lemma {:induction false} PutKeeps(t: Tape, ch: Byte, columns: nat, size: nat)
    requires TapeOk(t, columns, size) && columns <= size
    ensures TapeOk(Put(t, ch, columns, size), columns, size)
  {
    RowFits(t.pos, |t.cells|, columns);
    RowShift(|t.cells|, columns, columns);
    var top := |t.cells| - size;
    TopRow(t, columns, size);
  }

  /** The cursor's row starts in the window. */
  lemma {:induction false} TopRow(t: Tape, columns: nat, size: nat)
    requires TapeOk(t, columns, size)
    ensures (|t.cells| - size) % columns == 0
    ensures var cur := t.pos - (|t.cells| - size); t.pos % columns == cur % columns
    ensures t.pos - t.pos % columns >= |t.cells| - size
  {
    var top := |t.cells| - size;
    RowDifference(|t.cells|, size, columns);
    RowShift(t.pos - top, top, columns);
    RowAfter(t.pos, top, columns);
  }

  lemma {:induction false} RowDifference(n: nat, s: nat, c: nat)
    requires c > 0 && n % c == 0 && s % c == 0 && s <= n
    ensures (n - s) % c == 0
  {
    var m, k := n / c, s / c;
    assert n - s == (m - k) * c;
    ModUnique(n - s, m - k, 0, c);
  }

  /** A row boundary at a cell or before is at the start of its row or before. */
  lemma {:induction false} RowAfter(a: nat, n: nat, c: nat)
    requires c > 0 && n % c == 0 && n <= a
    ensures a - a % c >= n
  {
    var k, m := a / c, n / c;
    assert a == k * c + a % c && n == m * c;
    Sign(k - m, c);
    assert (k - m) * c == k * c - m * c;
  }

  // ---- the window: the last rows of the tape ----

  function Window(t: Tape, size: nat): seq<Byte>
    requires size <= |t.cells|
  {
    t.cells[|t.cells| - size..]
  }

  lemma {:induction false} WindowSet(t: Tape, p: nat, ch: Byte, pos: nat, size: nat)
    requires size <= |t.cells| && |t.cells| - size <= p < |t.cells|
    ensures Window(Tape(t.cells[p := ch], pos), size) == Window(t, size)[p - (|t.cells| - size) := ch]
  {
  }

  lemma {:induction false} WindowGrown(t: Tape, columns: nat, size: nat)
    requires columns <= size <= |t.cells| == t.pos
    ensures |Grown(t, columns).cells| == |t.cells| + columns
    ensures Window(Grown(t, columns), size) == Window(t, size)[columns..] + Zeros(columns)
  {
  }

  ghost predicate Rectangle(lines: nat, columns: nat, size: nat) {
    size == columns * lines && columns > 0 && size % columns == 0
  }

  /** The row of a cell: where it starts, and that it lies in the rectangle. */
  function RowStart(k: nat, columns: nat): nat
    requires columns > 0
  {
    k - k % columns
  }

  lemma {:induction false} RowInside(k: nat, lines: nat, columns: nat, size: nat)
    requires Rectangle(lines, columns, size) && k < size
    ensures RowStart(k, columns) <= k < RowStart(k, columns) + columns <= size
  {
    RowFits(k, size, columns);
  }

  /** The cursor as an offset into the window. */
  function Cursor(t: Tape, size: nat): int {
    t.pos - (|t.cells| - size)
  }

  /** What each character does to the window and the cursor. */
  lemma {:induction false} PutWindow(t: Tape, ch: Byte, columns: nat, size: nat)
    requires TapeOk(t, columns, size) && columns <= size
    ensures var u := Put(t, ch, columns, size); var x := Cursor(t, size); var w := Window(t, size);
      && TapeOk(u, columns, size) && 0 <= x < size == |w|
      && 0 <= RowStart(x, columns) <= x && RowStart(x, columns) + columns <= size
      && (ch == CR ==> Cursor(u, size) == RowStart(x, columns) && Window(u, size) == w)
      && (ch == BS ==>
            if x > 0 then Cursor(u, size) == x - 1 && Window(u, size) == w[x - 1 := 0]
            else Cursor(u, size) == 0 && Window(u, size) == w)
      && (ch == LF ==> Moved(RowStart(x, columns) + columns, w, Cursor(u, size), Window(u, size), columns, size))
      && (ch != CR && ch != BS && ch != LF ==>
            Moved(x + 1, w[x := ch], Cursor(u, size), Window(u, size), columns, size))
  {
    hide Put, Window, Cursor, RowStart, Moved, TapeOk, Grown;
    PutKeeps(t, ch, columns, size);
    CursorRow(t, columns, size);
    if ch == CR {
      PutReturn(t, columns, size);
    } else if ch == BS {
      PutErase(t, columns, size);
    } else if ch == LF {
      PutNewline(t, columns, size);
    } else {
      PutPlain(t, ch, columns, size);
    }
  }

  lemma {:induction false} PutReturn(t: Tape, columns: nat, size: nat)
    requires TapeOk(t, columns, size) && columns <= size
    ensures var u := Put(t, CR, columns, size);
      && size <= |u.cells| && Cursor(t, size) >= 0
      && Cursor(u, size) == RowStart(Cursor(t, size), columns) && Window(u, size) == Window(t, size)
  {
    CursorRow(t, columns, size);
  }

  lemma {:induction false} PutErase(t: Tape, columns: nat, size: nat)
    requires TapeOk(t, columns, size) && columns <= size
    ensures var u := Put(t, BS, columns, size); var x := Cursor(t, size); var w := Window(t, size);
      && size <= |u.cells| && 0 <= x < |w|
      && (if x > 0 then Cursor(u, size) == x - 1 && Window(u, size) == w[x - 1 := 0]
          else Cursor(u, size) == 0 && Window(u, size) == w)
  {
    hide Grown;
    if Cursor(t, size) > 0 { WindowSet(t, t.pos - 1, 0, t.pos - 1, size); }
  }

  lemma {:induction false} CursorRow(t: Tape, columns: nat, size: nat)
    requires TapeOk(t, columns, size) && columns <= size
    ensures var x := Cursor(t, size);
      && 0 <= x < size == |Window(t, size)|
      && 0 <= RowStart(x, columns) <= x && RowStart(x, columns) + columns <= size
      && RowStart(x, columns) == RowStart(t.pos, columns) - (|t.cells| - size) && RowStart(t.pos, columns) >= 0
  {
    TopRow(t, columns, size);
    RowFits(Cursor(t, size), size, columns);
  }

  lemma {:induction false} PutNewline(t: Tape, columns: nat, size: nat)
    requires TapeOk(t, columns, size) && columns <= size
    ensures var u := Put(t, LF, columns, size); var x := Cursor(t, size); var w := Window(t, size);
      && size <= |u.cells| && x >= 0 && |w| == size
      && Moved(RowStart(x, columns) + columns, w, Cursor(u, size), Window(u, size), columns, size)
  {
    CursorRow(t, columns, size);
    var s := t.(pos := RowStart(t.pos, columns) + columns);
    GrownMoved(s, columns, size);
    hide Grown, Moved;
  }

  lemma {:induction false} PutPlain(t: Tape, ch: Byte, columns: nat, size: nat)
    requires TapeOk(t, columns, size) && columns <= size && ch != CR && ch != BS && ch != LF
    ensures var u := Put(t, ch, columns, size); var x := Cursor(t, size); var w := Window(t, size);
      && size <= |u.cells| && 0 <= x < |w| == size
      && Moved(x + 1, w[x := ch], Cursor(u, size), Window(u, size), columns, size)
  {
    WindowSet(t, t.pos, ch, t.pos + 1, size);
    GrownMoved(Tape(t.cells[t.pos := ch], t.pos + 1), columns, size);
    hide Grown, Moved;
  }

  /** Scrolled by a row when the cursor went off the end, else as it was. */
  ghost predicate Moved(x: int, w: seq<Byte>, y: int, z: seq<Byte>, columns: nat, size: nat)
    requires columns <= |w|
  {
    if x == size then y == size - columns && z == w[columns..] + Zeros(columns) else y == x && z == w
  }

  lemma {:induction false} GrownMoved(t: Tape, columns: nat, size: nat)
    requires columns <= size <= |t.cells|
    ensures var u := Grown(t, columns);
      && size <= |u.cells| && Moved(Cursor(t, size), Window(t, size), Cursor(u, size), Window(u, size), columns, size)
  {
    if t.pos == |t.cells| { WindowGrown(t, columns, size); }
  }

  // ---- whole streams ----

  function Start(size: nat): Tape {
    Tape(Zeros(size), 0)
  }

  lemma {:induction false} PutHistory(t: Tape, ch: Byte, columns: nat, size: nat)
    requires TapeOk(t, columns, size) && columns <= size
    ensures var u := Put(t, ch, columns, size); var top := |t.cells| - size;
      |u.cells| >= |t.cells| && u.cells[..top] == t.cells[..top]
  {
  }

  /** What has scrolled off never changes again, and the tape only grows. */
  lemma {:induction false} HistoryKept(t: Tape, out: seq<Byte>, columns: nat, size: nat)
    requires TapeOk(t, columns, size) && columns <= size
    ensures var u := Feed(t, out, columns, size); var top := |t.cells| - size;
      TapeOk(u, columns, size) && |u.cells| >= |t.cells| && u.cells[..top] == t.cells[..top]
  {
    if out != [] {
      var before := out[..|out| - 1];
      HistoryKept(t, before, columns, size);
      var u := Feed(t, before, columns, size);
      PutKeeps(u, out[|out| - 1], columns, size);
      PutHistory(u, out[|out| - 1], columns, size);
      var top := |t.cells| - size;
      var w := Feed(t, out, columns, size);
      hide Put, Feed;
      assert w.cells[..top] == w.cells[..|u.cells| - size][..top];
      assert u.cells[..top] == u.cells[..|u.cells| - size][..top];
    }
  }

  predicate Plain(ch: Byte) {
    ch != CR && ch != LF && ch != BS
  }

  /** Text without control characters lies on the tape as it was written, blank after
      it, so the screen shows its last rows. */
  lemma {:induction false} PlainText(out: seq<Byte>, columns: nat, size: nat)
    requires columns > 0 && size % columns == 0 && columns <= size
    requires forall i :: 0 <= i < |out| ==> Plain(out[i])
    ensures var u := Feed(Start(size), out, columns, size);
      && TapeOk(u, columns, size) && u.pos == |out| && u.cells[..|out|] == out
      && (forall k :: |out| <= k < |u.cells| ==> u.cells[k] == 0)
      && (|u.cells| == size || |u.cells| - columns <= |out|)
  {
    var u := Feed(Start(size), out, columns, size);
    if out != [] {
      var before, ch := out[..|out| - 1], out[|out| - 1];
      PlainText(before, columns, size);
      var t := Feed(Start(size), before, columns, size);
      PutKeeps(t, ch, columns, size);
      assert Plain(ch);
      assert u.cells[..|out|] == t.cells[..|out| - 1] + [ch];
    }
  }

  // ---- the echo of an edited line ----

  /** The keystrokes of a line that `tty_cook` accepts and that are echoed. */
  function Echoed(keys: seq<Byte>): seq<Byte> {
    if keys == [] then []
    else
      var before, ch := keys[..|keys| - 1], keys[|keys| - 1];
      Echoed(before) + if ch == BS && LineEdit.Edited(before) == [] then [] else [ch]
  }

  lemma {:induction false} FeedMore(t: Tape, out: seq<Byte>, ch: Byte, columns: nat, size: nat)
    requires columns > 0
    ensures Feed(t, out + [ch], columns, size) == Put(Feed(t, out, columns, size), ch, columns, size)
  {
    assert (out + [ch])[..|out|] == out;
  }

  /** While it is typed on blank cells that do not reach the end of the screen, the
      echo shows the line as edited. */
  lemma {:induction false} EchoShowsLine(t: Tape, keys: seq<Byte>, columns: nat, size: nat)
    requires TapeOk(t, columns, size) && columns <= size
    requires t.pos + |keys| < |t.cells| && forall k :: t.pos <= k < |t.cells| ==> t.cells[k] == 0
    requires forall i :: 0 <= i < |keys| ==> keys[i] == BS || Plain(keys[i])
    ensures var u := Feed(t, Echoed(keys), columns, size); var l := LineEdit.Edited(keys);
      && |l| <= |keys| && u.pos == t.pos + |l| && |u.cells| == |t.cells|
      && u.cells == t.cells[..t.pos] + l + t.cells[u.pos..]
  {
    if keys != [] {
      var before, ch := keys[..|keys| - 1], keys[|keys| - 1];
      EchoShowsLine(t, before, columns, size);
      FeedMore(t, Echoed(before), ch, columns, size);
      assert Echoed(before) + [] == Echoed(before);
      var l := LineEdit.Edited(before);
      var u := Feed(t, Echoed(before), columns, size);
      hide Feed, Echoed;
      hide LineEdit.Edited;
      assert keys[|keys| - 1] == BS || Plain(ch);
      EchoStep(t, u, l, ch, columns, size);
    }
  }

  lemma {:induction false} EchoStep(t: Tape, u: Tape, l: seq<Byte>, ch: Byte, columns: nat, size: nat)
    requires TapeOk(t, columns, size) && t.pos + |l| + 1 < |t.cells| && (ch == BS || Plain(ch))
    requires forall k :: t.pos <= k < |t.cells| ==> t.cells[k] == 0
    requires u.pos == t.pos + |l| && u.cells == t.cells[..t.pos] + l + t.cells[u.pos..]
    ensures var w := if ch == BS && l == [] then u else Put(u, ch, columns, size);
      var m := if ch == BS then LineEdit.Back(l) else l + [ch];
      w.pos == t.pos + |m| && w.cells == t.cells[..t.pos] + m + t.cells[w.pos..]
  {
  }

  class Screen {
    const lines: nat
    const columns: nat
    const size: nat
    const buf: array<Byte>
    const dirty: array<bool>
    var cursor: nat
    ghost var tape: Tape

    ghost predicate Shape() {
      && lines >= 1 && columns >= 1 && Rectangle(lines, columns, size) && columns <= size && size >= 2
      && buf.Length == size && dirty.Length == size
    }

    ghost predicate AllDirty()
      reads dirty
    {
      forall k :: 0 <= k < dirty.Length ==> dirty[k]
    }

    /** The array shows the end of the tape, and the cursor is in it. */
    ghost predicate Valid()
      reads this, buf, dirty
    {
      && Shape() && AllDirty() && TapeOk(tape, columns, size)
      && buf[..] == Window(tape, size) && cursor == Cursor(tape, size)
    }

    /** The screen part of `tty_init`; a display has at least two cells. */
    constructor (lines: nat, columns: nat)
      requires lines >= 1 && columns >= 1 && lines * columns >= 2
      ensures Valid() && this.lines == lines && this.columns == columns
      ensures tape == Tape(Zeros(lines * columns), 0)
    {
      this.lines, this.columns := lines, columns;
      size := columns * lines;
      buf := new Byte[columns * lines](_ => 0);
      dirty := new bool[columns * lines](_ => true);
      cursor := 0;
      tape := Tape(Zeros(columns * lines), 0);
      new;
      ModUnique(size, lines, 0, columns);
    }

    /** `tty_upd_scrollup`, with the cursor at the end. */
    method UpdScrollup()
      requires Shape() && cursor == size
      modifies this`cursor, buf, dirty
      ensures cursor == size - columns && buf[..] == old(buf[..])[columns..] + Zeros(columns)
    {
      var moveSz := columns * (lines - 1);
      forall k | 0 <= k < moveSz {
        buf[k] := buf[k + columns];
      }
      forall k | 0 <= k < moveSz {
        dirty[k] := dirty[k + columns];
      }
      cursor := cursor - columns;
      var i := 0;
      while i < columns
        invariant i <= columns
        invariant forall k :: 0 <= k < moveSz ==> buf[k] == old(buf[k + columns])
        invariant forall k :: cursor <= k < cursor + i ==> buf[k] == 0
        modifies buf
      {
        buf[cursor + i] := 0;
        i := i + 1;
      }
    }

    method UpdCr()
      requires Shape() && cursor < size
      modifies this`cursor
      ensures cursor == RowStart(old(cursor), columns)
    {
      var x := cursor % columns;
      cursor := cursor - x;
    }

    method UpdLf()
      modifies this`cursor
      ensures cursor == old(cursor) + columns
    {
      cursor := cursor + columns;
    }

    method UpdBacksp()
      requires Shape() && cursor < size
      modifies this`cursor, buf
      ensures old(cursor) == 0 ==> cursor == 0 && buf[..] == old(buf[..])
      ensures old(cursor) > 0 ==> cursor == old(cursor) - 1 && buf[..] == old(buf[..])[cursor := 0]
    {
      if cursor > 0 {
        cursor := cursor - 1;
        buf[cursor] := 0;
      }
    }

    method UpdPutc(ch: Byte)
      requires Shape() && cursor < size
      modifies this`cursor, buf
      ensures cursor == old(cursor) + 1 && buf[..] == old(buf[..])[old(cursor) := ch]
    {
      buf[cursor] := ch;
      cursor := cursor + 1;
    }

    method Mark(k: nat)
      requires Shape() && k < size
      modifies dirty
      ensures old(AllDirty()) ==> AllDirty()
      ensures dirty[k] && forall j :: 0 <= j < dirty.Length && j != k ==> dirty[j] == old(dirty[j])
    {
      dirty[k] := true;
    }

    /** `tty_mark_line`: every cell of the row of cell k. */
    method MarkLine(k: nat)
      requires Shape() && k < size
      modifies dirty
      ensures old(AllDirty()) ==> AllDirty()
      ensures forall j :: RowStart(k, columns) <= j < RowStart(k, columns) + columns && j < size ==> dirty[j]
    {
      RowInside(k, lines, columns, size);
      var x := k % columns;
      assert k - x == RowStart(k, columns);
      hide Rectangle, RowStart;
      var i := 0;
      while i < columns
        invariant i <= columns
        invariant old(AllDirty()) ==> AllDirty()
        invariant forall j :: k - x <= j < k - x + i ==> dirty[j]
      {
        Mark(k - x + i);
        i := i + 1;
      }
    }

    method MarkAll()
      requires Shape()
      modifies dirty
      ensures AllDirty()
    {
      var i := 0;
      while i < size
        invariant i <= size
        invariant forall j :: 0 <= j < i ==> dirty[j]
      {
        Mark(i);
        i := i + 1;
      }
    }

    /** The branch of `tty_putc` for a newline. */
    method NewLine()
      requires Shape() && AllDirty() && cursor < size && RowStart(cursor, columns) + columns <= size
      modifies this`cursor, buf, dirty
      ensures AllDirty() && cursor < size
      ensures Moved(RowStart(old(cursor), columns) + columns, old(buf[..]), cursor, buf[..], columns, size)
    {
      hide Rectangle, AllDirty;
      UpdCr();
      UpdLf();
      if cursor == size {
        UpdScrollup();
        MarkAll();
      } else {
        MarkLine(cursor - columns);
        MarkLine(cursor);
      }
    }

    /** The branch of `tty_putc` for a character that is not a control. */
    method PutChar(ch: Byte)
      requires Shape() && AllDirty() && cursor < size
      modifies this`cursor, buf, dirty
      ensures AllDirty() && cursor < size
      ensures Moved(old(cursor) + 1, old(buf[..])[old(cursor) := ch], cursor, buf[..], columns, size)
    {
      hide Rectangle, AllDirty;
      UpdPutc(ch);
      if cursor == size {
        UpdScrollup();
        MarkAll();
      } else {
        Mark(cursor - 1);
        Mark(cursor);
      }
    }

    /** `tty_putc`. */
    method Putc(ch: Byte)
      requires Valid()
      modifies this`cursor, this`tape, buf, dirty
      ensures Valid() && tape == Put(old(tape), ch, columns, size)
    {
      hide Rectangle, Window, TapeOk, AllDirty, Put, Zeros, RowStart, Cursor;
      PutWindow(tape, ch, columns, size);
      if ch == CR {
        UpdCr();
        MarkLine(cursor);
      } else if ch == BS {
        UpdBacksp();
        Mark(cursor);
        Mark(cursor + 1);
      } else if ch == LF {
        NewLine();
      } else {
        PutChar(ch);
      }
      tape := Put(tape, ch, columns, size);
    }

    /** `tty_write`, before the rendering. */
    method Write(out: seq<Byte>)
      requires Valid()
      modifies this`cursor, this`tape, buf, dirty
      ensures Valid() && tape == Feed(old(tape), out, columns, size)
    {
      var i := 0;
      while i < |out|
        invariant i <= |out| && Valid() && tape == Feed(old(tape), out[..i], columns, size)
      {
        assert out[..i + 1][..i] == out[..i];
        Putc(out[i]);
        i := i + 1;
      }
      assert out[..i] == out;
    }
  }
}
