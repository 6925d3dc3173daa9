/** Bytes, C strings, and the two conversions the log format relies on: the
    bare-period hexadecimal format and its scanner. */
module Bytes {
  import opened Options

  type Byte = x: int | 0 <= x < 256

  const NUL: Byte := 0
  const COMMIT: Byte := 3
  const SPACE: Byte := 32

  /** A C string without its terminator. */
  type CString = s: seq<Byte> | NUL !in s

  const TWO31 := 0x8000_0000
  const TWO32 := 0x1_0000_0000

  function Zeros(n: nat): (s: seq<Byte>)
    ensures |s| == n && forall k :: 0 <= k < n ==> s[k] == 0
  {
    if n == 0 then [] else Zeros(n - 1) + [0]
  }

  /** The value an `off_t` gets when it is stored in a 32-bit `int`. */
  function ToInt32(n: int): int {
    var m := n % TWO32;
    if m < TWO31 then m else m - TWO32
  }

  /** What `strcmp` sees of a buffer: everything before the first NUL. */
  function CStr(buf: seq<Byte>): CString {
    if buf == [] || buf[0] == NUL then [] else [buf[0]] + CStr(buf[1..])
  }

  lemma {:induction false} CStrOfTerminated(t: CString, rest: seq<Byte>)
    ensures CStr(t + [NUL] + rest) == t
  {
    if t != [] {
      assert (t + [NUL] + rest)[1..] == t[1..] + [NUL] + rest;
      CStrOfTerminated(t[1..], rest);
    }
  }

  function Digit(d: nat): Byte
    requires d < 16
  {
    if d < 10 then 48 + d else 87 + d
  }

  predicate IsHex(b: Byte) {
    48 <= b <= 57 || 65 <= b <= 70 || 97 <= b <= 102
  }

  function DigitValue(b: Byte): nat
    requires IsHex(b)
  {
    if b <= 57 then b - 48 else if b <= 70 then b - 55 else b - 87
  }

  predicate IsWhite(b: Byte) {
    b == SPACE || 9 <= b <= 13
  }

  /** Lower-case hexadecimal digits of n; no digit at all for zero. */
  function HexDigits(n: nat): seq<Byte> {
    if n == 0 then [] else HexDigits(n / 16) + [Digit(n % 16)]
  }

  function Spaces(n: nat): seq<Byte> {
    seq(n, _ => SPACE)
  }

  /** `sprintf("%4.x", n)`: precision zero, so zero prints as four blanks
      (section 7.21.6.1 of ISO C11). */
  function Format(n: nat): seq<Byte> {
    var ds := HexDigits(n);
    Spaces(if |ds| < 4 then 4 - |ds| else 0) + ds
  }

  function SkipWhite(s: seq<Byte>): seq<Byte> {
    if s != [] && IsWhite(s[0]) then SkipWhite(s[1..]) else s
  }

  function Value(s: seq<Byte>, acc: nat): nat {
    if s == [] || !IsHex(s[0]) then acc else Value(s[1..], 16 * acc + DigitValue(s[0]))
  }

  /** `sscanf(s, "%x", &n)`: blanks are skipped, no digit means no conversion. */
  function Scan(s: seq<Byte>): Option<nat> {
    var t := SkipWhite(s);
    if t == [] || !IsHex(t[0]) then None else Some(Value(t, 0))
  }

  lemma {:induction false} ValueOfDigits(n: nat, rest: seq<Byte>)
    ensures Value(HexDigits(n) + rest, 0) == Value(rest, n)
  {
    if n == 0 {
      assert HexDigits(n) + rest == rest;
    } else {
      var d := Digit(n % 16);
      assert HexDigits(n) + rest == HexDigits(n / 16) + ([d] + rest);
      ValueOfDigits(n / 16, [d] + rest);
      assert ([d] + rest)[1..] == rest;
    }
  }

  lemma {:induction false} HexDigitsShape(n: nat)
    ensures n > 0 ==> HexDigits(n) != [] && IsHex(HexDigits(n)[0])
    ensures forall b :: b in HexDigits(n) ==> IsHex(b)
  {
    if n > 0 { HexDigitsShape(n / 16); }
  }

  /** Sixteen-bit lengths fit the four columns; longer ones do not. */
  lemma FormatWidth(n: nat)
    ensures |Format(n)| >= 4
    ensures |Format(n)| == 4 <==> n < 0x1_0000
    ensures COMMIT !in Format(n) && NUL !in Format(n)
  {
    HexDigitsShape(n);
    var a := n / 16;
    var b := a / 16;
    var c := b / 16;
    assert n < 0x1_0000 <==> c < 16;
    assert |HexDigits(c)| <= 1 <==> c < 16 by { HexDigitsShape(c / 16); }
    assert |HexDigits(b)| == if b == 0 then 0 else |HexDigits(c)| + 1;
    assert |HexDigits(a)| == if a == 0 then 0 else |HexDigits(b)| + 1;
    assert |HexDigits(n)| == if n == 0 then 0 else |HexDigits(a)| + 1;
  }

  /** The four columns of a sixteen-bit length with hexadecimal digits a, b, c and d: lower
      case, blanks before the first digit, and blanks alone for zero. */
  lemma {:induction false} FormatColumns(a: nat, b: nat, c: nat, d: nat)
    requires a < 16 && b < 16 && c < 16 && d < 16
    ensures var hex := "0123456789abcdef";
      Format(4096 * a + 256 * b + 16 * c + d) == [
        if a == 0 then 32 else hex[a] as int,
        if a == b == 0 then 32 else hex[b] as int,
        if a == b == c == 0 then 32 else hex[c] as int,
        if a == b == c == d == 0 then 32 else hex[d] as int]
  {
    hide Format, HexDigits, Digit;
    DigitIs(a);
    DigitIs(b);
    DigitIs(c);
    DigitIs(d);
    FourDigits(a, b, c, d);
    Columns(4096 * a + 256 * b + 16 * c + d);
  }

  lemma DigitIs(d: nat)
    requires d < 16
    ensures Digit(d) == "0123456789abcdef"[d] as int
  {
  }

  lemma {:induction false} FourDigits(a: nat, b: nat, c: nat, d: nat)
    requires a < 16 && b < 16 && c < 16 && d < 16
    ensures HexDigits(4096 * a + 256 * b + 16 * c + d) ==
      if a > 0 then [Digit(a), Digit(b), Digit(c), Digit(d)]
      else if b > 0 then [Digit(b), Digit(c), Digit(d)]
      else if c > 0 then [Digit(c), Digit(d)]
      else if d > 0 then [Digit(d)] else []
  {
    hide HexDigits, Digit;
    NoDigit();
    NextDigit(0, a);
    NextDigit(a, b);
    NextDigit(16 * a + b, c);
    NextDigit(256 * a + 16 * b + c, d);
  }

  lemma NoDigit()
    ensures HexDigits(0) == []
  {
  }

  lemma {:induction false} NextDigit(m: nat, d: nat)
    requires d < 16
    ensures HexDigits(16 * m + d) == if m == d == 0 then [] else HexDigits(m) + [Digit(d)]
  {
    assert (16 * m + d) / 16 == m && (16 * m + d) % 16 == d;
  }

  lemma {:induction false} Columns(n: nat)
    requires |HexDigits(n)| <= 4
    ensures Format(n) == Spaces(4 - |HexDigits(n)|) + HexDigits(n)
  {
    hide HexDigits;
  }

  lemma {:induction false} SkipSpaces(k: nat, t: seq<Byte>)
    requires t == [] || !IsWhite(t[0])
    ensures SkipWhite(Spaces(k) + t) == t
  {
    if k == 0 {
      assert Spaces(k) + t == t;
    } else {
      assert (Spaces(k) + t)[1..] == Spaces(k - 1) + t;
      SkipSpaces(k - 1, t);
    }
  }

  /** The scanner undoes the format for every length from one up, whatever
      non-hexadecimal text follows. */
  lemma ScanFormat(n: nat, rest: seq<Byte>)
    requires n > 0
    requires rest == [] || !IsHex(rest[0])
    ensures Scan(Format(n) + rest) == Some(n)
  {
    HexDigitsShape(n);
    var ds := HexDigits(n);
    var k := if |ds| < 4 then 4 - |ds| else 0;
    assert Format(n) + rest == Spaces(k) + (ds + rest);
    assert (ds + rest)[0] == ds[0];
    SkipSpaces(k, ds + rest);
    ValueOfDigits(n, rest);
  }
}
