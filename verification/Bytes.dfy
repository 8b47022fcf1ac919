/** Byte strings and the fixed-width integers stored in them. */
module Bytes {
  type Byte = b: int | 0 <= b < 256

  const U16: int := 0x1_0000
  const U32: int := 0x1_0000_0000

  function Zeros(n: nat): (r: seq<Byte>)
    ensures |r| == n && forall i :: 0 <= i < n ==> r[i] == 0
  {
    seq(n, _ => 0)
  }

  /** Python's `s[lo:hi]` for non-negative bounds: both ends are clamped to the length. */
  function Slice<T>(s: seq<T>, lo: nat, hi: nat): (r: seq<T>)
    ensures hi <= |s| && lo <= hi ==> r == s[lo..hi]
    ensures |r| <= |s|
  {
    var h := if hi <= |s| then hi else |s|;
    if lo <= h then s[lo..h] else []
  }

  /** `int.from_bytes(s, "little")`. */
  function Little(s: seq<Byte>): nat {
    if s == [] then 0 else (s[0] as int) + 256 * Little(s[1..])
  }

  /** `int.from_bytes(s, "big")`. */
  function Big(s: seq<Byte>): nat {
    if s == [] then 0 else 256 * Big(s[..|s| - 1]) + s[|s| - 1]
  }

  function Le16(buf: seq<Byte>, off: nat): nat {
    Little(Slice(buf, off, off + 2))
  }

  function Le32(buf: seq<Byte>, off: nat): nat {
    Little(Slice(buf, off, off + 4))
  }

  function Be32(buf: seq<Byte>, off: nat): nat {
    Big(Slice(buf, off, off + 4))
  }

  function PutLe16(v: nat): (r: seq<Byte>)
    requires v < U16
    ensures |r| == 2
  {
    [v % 256, v / 256]
  }

  function PutLe32(v: nat): (r: seq<Byte>)
    requires v < U32
    ensures |r| == 4
  {
    [v % 256, v / 256 % 256, v / 0x1_0000 % 256, v / 0x100_0000]
  }

  function PutBe32(v: nat): (r: seq<Byte>)
    requires v < U32
    ensures |r| == 4
  {
    [v / 0x100_0000, v / 0x1_0000 % 256, v / 256 % 256, v % 256]
  }

  /** Overwrite part of a buffer in place. */
  function Patch<T>(buf: seq<T>, off: nat, s: seq<T>): (r: seq<T>)
    requires off + |s| <= |buf|
    ensures |r| == |buf|
    ensures forall i :: 0 <= i < |buf| ==> r[i] == if off <= i < off + |s| then s[i - off] else buf[i]
  {
    buf[..off] + s + buf[off + |s|..]
  }

  lemma SubSlice<T>(s: seq<T>, lo: nat, hi: nat, a: nat, b: nat)
    requires a <= b && lo + b <= hi <= |s|
    ensures s[lo..hi][a..b] == s[lo + a..lo + b]
  {
    var x, y := s[lo..hi][a..b], s[lo + a..lo + b];
    assert |x| == |y| && forall i :: 0 <= i < |x| ==> x[i] == s[lo..hi][a + i] == y[i];
  }

  lemma LittleOfTwo(s: seq<Byte>)
    requires |s| == 2
    ensures Little(s) == (s[0] as int) + 256 * (s[1] as int)
  {
    assert s[1..] == [s[1]] && Little(s[1..]) == s[1];
  }

  lemma LittleOfFour(s: seq<Byte>)
    requires |s| == 4
    ensures Little(s) == (s[0] as int) + 256 * (s[1] as int) + 0x1_0000 * (s[2] as int) + 0x100_0000 * (s[3] as int)
  {
    assert s[1..][1..] == s[2..] && s[2..][1..] == s[3..];
    assert Little(s[3..]) == s[3];
    assert Little(s[2..]) == (s[2] as int) + 256 * (s[3] as int);
    assert Little(s[1..]) == (s[1] as int) + 256 * Little(s[2..]);
  }

  lemma BigOfFour(s: seq<Byte>)
    requires |s| == 4
    ensures Big(s) == 0x100_0000 * (s[0] as int) + 0x1_0000 * (s[1] as int) + 256 * (s[2] as int) + (s[3] as int)
  {
    assert s[..3][..2] == s[..2] && s[..2][..1] == s[..1] && s[..1] == [s[0]];
    assert Big(s[..1]) == s[0];
    assert Big(s[..2]) == 256 * (s[0] as int) + (s[1] as int);
    assert Big(s[..3]) == 256 * Big(s[..2]) + (s[2] as int);
  }

  lemma LittleRoundTrip16(v: nat)
    requires v < U16
    ensures Little(PutLe16(v)) == v
  {
    LittleOfTwo(PutLe16(v));
  }

  lemma LittleRoundTrip32(v: nat)
    requires v < U32
    ensures Little(PutLe32(v)) == v
  {
    LittleOfFour(PutLe32(v));
    Digits(v);
  }

  lemma BigRoundTrip32(v: nat)
    requires v < U32
    ensures Big(PutBe32(v)) == v
  {
    BigOfFour(PutBe32(v));
    Digits(v);
  }

  lemma Digits(v: nat)
    requires v < U32
    ensures v == v % 256 + 256 * (v / 256 % 256) + 0x1_0000 * (v / 0x1_0000 % 256) + 0x100_0000 * (v / 0x100_0000)
  {
    assert v / 0x1_0000 == v / 256 / 256 && v / 0x100_0000 == v / 256 / 256 / 256;
  }

  lemma OneDigit(q: nat, r: Byte)
    ensures (256 * q + r) / 256 == q && (256 * q + r) % 256 == r
  {
  }

  lemma DivideTwice(v: nat)
    ensures v / 0x1_0000 == v / 256 / 256 && v / 0x100_0000 == v / 256 / 256 / 256
  {
  }

  lemma FourDigits(x: nat, y: nat, z: nat, a: Byte, b: Byte, c: Byte, d: Byte)
    requires x == 256 * a + b && y == 256 * x + c && z == 256 * y + d
    ensures z < U32 && PutBe32(z) == [a, b, c, d]
  {
    OneDigit(a, b);
    OneDigit(x, c);
    OneDigit(y, d);
    DivideTwice(z);
  }

  lemma BigStep(s: seq<Byte>, n: nat)
    requires 0 < n <= |s|
    ensures Big(s[..n]) == 256 * Big(s[..n - 1]) + s[n - 1]
  {
    assert s[..n][..n - 1] == s[..n - 1];
  }

  /** Storing a word read from a buffer puts the same four bytes back. */
  lemma BigBytesUnique(s: seq<Byte>)
    requires |s| == 4
    ensures Big(s) < U32 && PutBe32(Big(s)) == s
  {
    hide Big, PutBe32;
    assert s[..4] == s;
    BigStep(s, 1);
    BigStep(s, 2);
    BigStep(s, 3);
    BigStep(s, 4);
    BigNothing();
    assert s[..0] == [];
    FourDigits(Big(s[..2]), Big(s[..3]), Big(s), s[0], s[1], s[2], s[3]);
  }

  lemma BigNothing()
    ensures Big([]) == 0
  {
  }

  /** Reading a word just stored; reading a word elsewhere is unaffected. */
  lemma Be32AfterPatch(buf: seq<Byte>, off: nat, v: nat, at: nat)
    requires v < U32 && off + 4 <= |buf| && at + 4 <= |buf|
    ensures Be32(Patch(buf, off, PutBe32(v)), off) == v
    ensures at + 4 <= off || off + 4 <= at ==> Be32(Patch(buf, off, PutBe32(v)), at) == Be32(buf, at)
  {
    var r := Patch(buf, off, PutBe32(v));
    assert r[off..off + 4] == PutBe32(v);
    BigRoundTrip32(v);
    if at + 4 <= off || off + 4 <= at {
      assert r[at..at + 4] == buf[at..at + 4];
    }
  }
}
