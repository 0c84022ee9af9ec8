/** Bytes, 32-bit integers in both byte orders, and Python slicing. */
module Bytes {
  type Byte = b: int | 0 <= b < 256

  const TWO_31 := 0x8000_0000
  const TWO_32 := 0x1_0000_0000

  /** Four bytes of an unsigned 32-bit integer, least significant first. */
  function Le32(n: nat): (bytes: seq<Byte>)
    requires n < TWO_32
    ensures |bytes| == 4
  {
    [n % 256, n / 256 % 256, n / 65536 % 256, n / 16777216]
  }

  function Be32(n: nat): (bytes: seq<Byte>)
    requires n < TWO_32
    ensures |bytes| == 4
  {
    [n / 16777216, n / 65536 % 256, n / 256 % 256, n % 256]
  }

  function Unsigned(b0: Byte, b1: Byte, b2: Byte, b3: Byte): (n: nat)
    ensures n < TWO_32
  {
    b0 + 256 * b1 + 65536 * b2 + 16777216 * b3
  }

  function Signed(n: nat): int
    requires n < TWO_32
  {
    if n < TWO_31 then n else n - TWO_32
  }

  function U32At(data: seq<Byte>, at: nat): (n: nat)
    requires at + 4 <= |data|
    ensures n < TWO_32
  {
    Unsigned(data[at], data[at + 1], data[at + 2], data[at + 3])
  }

  function I32At(data: seq<Byte>, at: nat): int
    requires at + 4 <= |data|
  {
    Signed(U32At(data, at))
  }

  function BigI32At(data: seq<Byte>, at: nat): int
    requires at + 4 <= |data|
  {
    Signed(Unsigned(data[at + 3], data[at + 2], data[at + 1], data[at]))
  }

  lemma Le32RoundTrip(n: nat)
    requires n < TWO_32
    ensures var b := Le32(n); Unsigned(b[0], b[1], b[2], b[3]) == n
  {
    Digits(n);
  }

  lemma Be32RoundTrip(n: nat)
    requires n < TWO_32
    ensures var b := Be32(n); Unsigned(b[3], b[2], b[1], b[0]) == n
  {
    Digits(n);
  }

  /** The first byte is the least significant one, and the others are those of what is left of the number. */
  lemma LeastFirst(n: nat)
    requires n < TWO_32
    ensures Le32(n)[0] == n % 256 && Le32(n)[1..] == Le32(n / 256)[..3] && Le32(n / 256)[3] == 0
  { }

  lemma MostFirst(n: nat)
    requires n < TWO_32
    ensures forall k :: 0 <= k < 4 ==> Be32(n)[k] == Le32(n)[3 - k]
  { }

  /** An integer in two's complement. */
  function Complement(i: int): (n: nat)
    requires -TWO_31 <= i < TWO_31
    ensures n < TWO_32
  {
    if i < 0 then i + 0x1_0000_0000 else i
  }

  /** Signed integers, negative ones too, are read as they were written. */
  lemma SignedReadsBack(data: seq<Byte>, at: nat, i: int)
    requires -TWO_31 <= i < TWO_31
    ensures HasAt(data, at, Le32(Complement(i))) ==> I32At(data, at) == i
    ensures HasAt(data, at, Be32(Complement(i))) ==> BigI32At(data, at) == i
  {
    var n := Complement(i);
    Le32RoundTrip(n);
    Be32RoundTrip(n);
    if at + 4 <= |data| {
      var field := data[at..at + 4];
      assert data[at] == field[0] && data[at + 1] == field[1] && data[at + 2] == field[2] && data[at + 3] == field[3];
    }
  }

  lemma Digits(n: nat)
    ensures n == n % 256 + 256 * (n / 256 % 256) + 65536 * (n / 65536 % 256) + 16777216 * (n / 16777216)
  {
    var a, b := n / 256, n / 65536;
    assert n == 256 * a + n % 256;
    assert a / 256 == b;
    assert a == 256 * b + a % 256;
    assert b / 256 == n / 16777216;
    assert b == 256 * (n / 16777216) + b % 256;
  }

  /** `bytes` stand at position `at` of the data. */
  ghost predicate HasAt(data: seq<Byte>, at: nat, bytes: seq<Byte>) {
    at + |bytes| <= |data| && data[at..at + |bytes|] == bytes
  }

  lemma HasMiddle(before: seq<Byte>, bytes: seq<Byte>, after: seq<Byte>)
    ensures HasAt(before + bytes + after, |before|, bytes)
  { }

  lemma HasFirst(bytes: seq<Byte>, after: seq<Byte>)
    ensures HasAt(bytes + after, 0, bytes)
  { }

  lemma HasLast(before: seq<Byte>, bytes: seq<Byte>)
    ensures HasAt(before + bytes, |before|, bytes)
  { }

  lemma HasInside(data: seq<Byte>, at: nat, bytes: seq<Byte>, from: nat, inner: seq<Byte>)
    requires HasAt(data, at, bytes) && HasAt(bytes, from, inner)
    ensures HasAt(data, at + from, inner)
  {
    forall k | 0 <= k < |inner| ensures data[at + from + k] == inner[k] {
      assert bytes[from..from + |inner|][k] == bytes[from + k];
      assert data[at..at + |bytes|][from + k] == data[at + from + k];
    }
  }

  /** Where the three parts of a concatenation stand. */
  lemma Layout(a: seq<Byte>, b: seq<Byte>, c: seq<Byte>)
    ensures HasAt(a + b + c, 0, a) && HasAt(a + b + c, |a|, b) && HasAt(a + b + c, |a| + |b|, c)
  { }

  lemma HasBoth(data: seq<Byte>, at: nat, a: seq<Byte>, b: seq<Byte>)
    requires HasAt(data, at, a + b)
    ensures HasAt(data, at, a) && HasAt(data, at + |a|, b)
  {
    HasFirst(a, b);
    HasLast(a, b);
    HasInside(data, at, a + b, 0, a);
    HasInside(data, at, a + b, |a|, b);
  }

  lemma ReadLe32(data: seq<Byte>, at: nat, n: nat)
    requires n < TWO_32 && HasAt(data, at, Le32(n))
    ensures U32At(data, at) == n
  {
    var field := data[at..at + 4];
    assert data[at] == field[0] && data[at + 1] == field[1] && data[at + 2] == field[2] && data[at + 3] == field[3];
    Le32RoundTrip(n);
  }

  lemma ReadBe32(data: seq<Byte>, at: nat, n: nat)
    requires n < TWO_31 && HasAt(data, at, Be32(n))
    ensures BigI32At(data, at) == n
  {
    var field := data[at..at + 4];
    assert data[at] == field[0] && data[at + 1] == field[1] && data[at + 2] == field[2] && data[at + 3] == field[3];
    Be32RoundTrip(n);
  }

  /** A slice bound: negative ones count from the end, and both are kept within the data. */
  function Bound(i: int, n: nat): (bound: nat)
    ensures bound <= n
  {
    if i < 0 then (if i + n < 0 then 0 else i + n) else if i > n then n else i
  }

  function Slice(data: seq<Byte>, from: int, to: int): seq<Byte> {
    var lo, hi := Bound(from, |data|), Bound(to, |data|);
    if lo <= hi then data[lo..hi] else []
  }
}
