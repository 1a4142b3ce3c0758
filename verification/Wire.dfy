/**
 * Frames of the messages between peers. A frame is a sequence of bytes, and a char stands
 * for one byte; numbers are copied from memory, little end first.
 */
module Wire {
  import opened CStrings

  type Bytes = string

  const INT_SIZE: nat := 4
  const DOUBLE_SIZE: nat := 8
  const STAMP_SIZE: nat := 8
  /** The timestamp that stands for no timestamp. */
  const INT64_MIN: int := -0x8000_0000_0000_0000

  predicate IsInt32(n: int) {
    -0x8000_0000 <= n < 0x8000_0000
  }

  predicate IsInt64(n: int) {
    INT64_MIN <= n < 0x8000_0000_0000_0000
  }

  function Span(size: nat): nat {
    if size == 0 then 1 else 256 * Span(size - 1)
  }

  function LittleEndian(n: nat, size: nat): (b: Bytes)
    ensures |b| == size
  {
    if size == 0 then [] else [(n % 256) as char] + LittleEndian(n / 256, size - 1)
  }

  function FromLittleEndian(b: Bytes): nat {
    if b == [] then 0 else b[0] as nat % 256 + 256 * FromLittleEndian(b[1..])
  }

  lemma {:induction false} LittleEndianRoundTrip(n: nat, size: nat)
    requires n < Span(size)
    ensures FromLittleEndian(LittleEndian(n, size)) == n
  {
    if size > 0 {
      LittleEndianRoundTrip(n / 256, size - 1);
      assert LittleEndian(n, size)[1..] == LittleEndian(n / 256, size - 1);
    }
  }

  lemma {:induction false} LittleEndianBound(b: Bytes)
    ensures FromLittleEndian(b) < Span(|b|)
  {
    if b != [] {
      LittleEndianBound(b[1..]);
    }
  }

  /** The memory of a two's complement number. */
  function IntBytes(n: int, size: nat): (b: Bytes)
    requires 0 - Span(size) <= 2 * n < Span(size)
    ensures |b| == size
  {
    LittleEndian(if n < 0 then n + Span(size) else n, size)
  }

  function ReadInt(b: Bytes): int {
    var n := FromLittleEndian(b);
    if 2 * n < Span(|b|) then n else n - Span(|b|)
  }

  lemma IntRoundTrip(n: int, size: nat)
    requires 0 - Span(size) <= 2 * n < Span(size)
    ensures ReadInt(IntBytes(n, size)) == n
  {
    LittleEndianRoundTrip(if n < 0 then n + Span(size) else n, size);
  }

  lemma Spans()
    ensures Span(4) == 0x1_0000_0000
    ensures Span(8) == 0x1_0000_0000_0000_0000
  {
    assert Span(1) == 256 && Span(2) == 0x1_0000 && Span(3) == 0x100_0000;
    assert Span(4) == 0x1_0000_0000 && Span(5) == 0x100_0000_0000;
    assert Span(6) == 0x1_0000_0000_0000 && Span(7) == 0x100_0000_0000_0000;
  }

  type Int32 = n: int | IsInt32(n)

  /** `*(int *) value` */
  function IntAt(mem: Bytes): Int32
    requires INT_SIZE <= |mem|
  {
    Spans();
    LittleEndianBound(mem[..INT_SIZE]);
    ReadInt(mem[..INT_SIZE])
  }

  function Int32Bytes(n: int): (b: Bytes)
    requires IsInt32(n)
    ensures |b| == INT_SIZE
  {
    Spans();
    IntBytes(n, INT_SIZE)
  }

  function Int64Bytes(n: int): (b: Bytes)
    requires IsInt64(n)
    ensures |b| == STAMP_SIZE
  {
    Spans();
    IntBytes(n, STAMP_SIZE)
  }

  lemma Int32RoundTrip(n: int)
    requires IsInt32(n)
    ensures ReadInt(Int32Bytes(n)) == n
  {
    Spans();
    IntRoundTrip(n, INT_SIZE);
  }

  /** The four bytes, lowest first, of the number or of its two's complement. */
  lemma Int32Memory(n: int)
    requires IsInt32(n)
    ensures var m, b := if n < 0 then n + 0x1_0000_0000 else n, Int32Bytes(n);
            && b[0] as int == m % 256 && b[1] as int == m / 256 % 256
            && b[2] as int == m / 256 / 256 % 256 && b[3] as int == m / 256 / 256 / 256 % 256
  {
    Spans();
    var m := if n < 0 then n + 0x1_0000_0000 else n;
    var a, b, c := LittleEndian(m / 256, 3), LittleEndian(m / 256 / 256, 2), LittleEndian(m / 256 / 256 / 256, 1);
    assert Int32Bytes(n) == [(m % 256) as char] + a;
    assert a == [(m / 256 % 256) as char] + b && b == [(m / 256 / 256 % 256) as char] + c;
  }

  lemma Int64RoundTrip(n: int)
    requires IsInt64(n)
    ensures ReadInt(Int64Bytes(n)) == n
  {
    Spans();
    IntRoundTrip(n, STAMP_SIZE);
  }

  /** The C string at the start of some bytes. */
  function CString(b: Bytes): (s: string)
    ensures NUL !in s && |s| <= |b| && b[..|s|] == s
    ensures |s| < |b| ==> b[|s|] == NUL
  {
    if b == [] || b[0] == NUL then [] else [b[0]] + CString(b[1..])
  }

  lemma {:induction false} CStringOf(s: string, rest: Bytes)
    requires NUL !in s && (rest == [] || rest[0] == NUL)
    ensures CString(s + rest) == s
  {
    if s != [] {
      assert (s + rest)[1..] == s[1..] + rest;
      CStringOf(s[1..], rest);
    }
  }

  lemma CStringAll(s: string)
    requires NUL !in s
    ensures CString(s) == s
  {
    CStringOf(s, []);
    assert s + [] == s;
  }

  /** A double is known by the 8 bytes of its memory. */
  type Double = b: Bytes | |b| == DOUBLE_SIZE witness LittleEndian(0, DOUBLE_SIZE)

  /** `*(double *) value` */
  function DoubleAt(mem: Bytes): Double
    requires DOUBLE_SIZE <= |mem|
  {
    mem[..DOUBLE_SIZE]
  }

  /** What printf and atof work on: a text without NUL. */
  type Text = s: string | NUL !in s
}
