/** The open file the database works on: bytes and a position, with the POSIX
    calls it uses. Calls that the source cannot see fail here only for a
    negative target offset. */
module OsFiles {
  import opened Bytes

  datatype Whence = SeekCur | SeekEnd

  function Padded(d: seq<Byte>, n: nat): seq<Byte> {
    if n <= |d| then d else d + seq(n - |d|, _ => NUL)
  }

  /** The bytes after writing `buf` at offset `at`. */
  function Overwrite(d: seq<Byte>, at: nat, buf: seq<Byte>): seq<Byte> {
    var p := Padded(d, at);
    p[..at] + buf + (if at + |buf| <= |p| then p[at + |buf|..] else [])
  }

  /** What `read(fd, buf, n)` delivers; a negative count converts to a huge one. */
  function Readable(d: seq<Byte>, at: nat, n: int): seq<Byte> {
    if at >= |d| then []
    else if n < 0 || at + n > |d| then d[at..]
    else d[at..at + n]
  }

  /** A write changes the bytes under it and no others; a gap before it fills with zeroes. */
  lemma OverwriteIs(d: seq<Byte>, at: nat, buf: seq<Byte>)
    requires buf != []
    ensures var r := Overwrite(d, at, buf);
      && |r| == (if at + |buf| > |d| then at + |buf| else |d|)
      && forall k :: 0 <= k < |r| ==>
        r[k] == if at <= k < at + |buf| then buf[k - at] else if k < |d| then d[k] else 0
  {
    var p := Padded(d, at);
    assert forall k :: 0 <= k < |p| ==> p[k] == if k < |d| then d[k] else 0;
  }

  /** A read delivers the bytes from its offset on, as many as asked for and present. */
  lemma ReadableIs(d: seq<Byte>, at: nat, n: int)
    ensures var r := Readable(d, at, n);
      && |r| == (if at >= |d| then 0 else if 0 <= n < |d| - at then n else |d| - at)
      && forall k :: 0 <= k < |r| ==> r[k] == d[at + k]
  {
  }

  class OsFile {
    var data: seq<Byte>
    var pos: nat

    constructor ()
      ensures data == [] && pos == 0
    {
      data, pos := [], 0;
    }

    method Lseek(off: int, whence: Whence) returns (r: int)
      modifies this`pos
      ensures var target := (if whence == SeekCur then old(pos) else |data|) + off;
        if target < 0 then r == -1 && pos == old(pos) else r == target && pos == target
    {
      var target := (if whence == SeekCur then pos else |data|) + off;
      if target < 0 {
        return -1;
      }
      pos := target;
      r := target;
    }

    method Read(n: int) returns (bytes: seq<Byte>)
      modifies this`pos
      ensures bytes == Readable(data, old(pos), n)
      ensures pos == old(pos) + |bytes|
    {
      bytes := Readable(data, pos, n);
      pos := pos + |bytes|;
    }

    method Write(buf: seq<Byte>) returns (r: int)
      modifies this
      ensures r == |buf|
      ensures pos == old(pos) + |buf|
      ensures buf != [] ==> data == Overwrite(old(data), old(pos), buf)
      ensures buf == [] ==> data == old(data)
    {
      if buf != [] {
        data := Overwrite(data, pos, buf);
      }
      pos := pos + |buf|;
      r := |buf|;
    }

    method Ftruncate(n: nat)
      modifies this`data
      ensures data == Padded(old(data), n)[..n]
    {
      data := Padded(data, n)[..n];
    }
  }
}
