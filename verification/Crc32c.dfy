/** CRC32C as e2fsprogs and the kernel use it: reflected Castagnoli polynomial, no final xor. */
module Crc32c {
  import opened Basics
  import opened Bytes

  const POLY: bv32 := 0x82F63B78

  // ---- the bit-at-a-time definition ----------------------------------------

  /** One division step on the register. */
  function Shift(c: bv32): bv32 {
    (c >> 1) ^ (if c & 1 == 1 then POLY else 0)
  }

  function ShiftN(c: bv32, n: nat): bv32
    decreases n
  {
    if n == 0 then c else ShiftN(Shift(c), n - 1)
  }

  function BitWord(bit: bool): bv32 {
    if bit then 1 else 0
  }

  /** One message bit enters at the low end of the register. */
  function Step(c: bv32, bit: bool): bv32 {
    Shift(Mix(c, BitWord(bit)))
  }

  function Mix(c: bv32, w: bv32): bv32 {
    w ^ c
  }

  /** The register after feeding a bit stream, least significant bit of each byte first. */
  function FeedBits(c: bv32, bits: seq<bool>): bv32
    decreases |bits|
  {
    if bits == [] then c else FeedBits(Step(c, bits[0]), bits[1..])
  }

  /** The low n bits of a number, least significant first. */
  function BitsOf(v: nat, n: nat): (bits: seq<bool>)
    ensures |bits| == n
    decreases n
  {
    if n == 0 then [] else [v % 2 == 1] + BitsOf(v / 2, n - 1)
  }

  function ValueOf(bits: seq<bool>): (v: nat)
    ensures v < Pow2(|bits|)
  {
    if bits == [] then 0 else (if bits[0] then 1 else 0) + 2 * ValueOf(bits[1..])
  }

  function ByteBits(b: Byte): (bits: seq<bool>)
    ensures |bits| == 8
  {
    BitsOf(b, 8)
  }

  function Bits(data: seq<Byte>): (bits: seq<bool>)
    ensures |bits| == 8 * |data|
  {
    if data == [] then [] else ByteBits(data[0]) + Bits(data[1..])
  }

  /** The checksum: divide the message's bit stream, starting from the seed. */
  function Crc(seed: bv32, data: seq<Byte>): bv32 {
    FeedBits(seed, Bits(data))
  }

  // ---- one byte at a time ---------------------------------------------------

  /** A byte in the low end of a word. */
  function Word(b: Byte): bv32 {
    WindowWord(ByteBits(b))
  }

  /** A window's bits as a word, first bit lowest. */
  function WindowWord(bits: seq<bool>): bv32 {
    if bits == [] then 0 else Push(bits[0], WindowWord(bits[1..]))
  }

  function Push(bit: bool, w: bv32): bv32 {
    BitWord(bit) ^ (w << 1)
  }

  /** The low n bits of a word. */
  function WordBits(c: bv32, n: nat): (bits: seq<bool>)
    ensures |bits| == n
    decreases n
  {
    if n == 0 then [] else [LowBit(c)] + WordBits(Half(c), n - 1)
  }

  predicate LowBit(c: bv32) {
    c & 1 == 1
  }

  function Half(c: bv32): bv32 {
    c >> 1
  }

  /** The low byte of a word. */
  function LowByte(c: bv32): Byte {
    assert Pow2(8) == 256;
    ValueOf(WordBits(c, 8))
  }

  function Shift8(c: bv32): bv32 {
    Shift(Shift(Shift(Shift(Shift(Shift(Shift(Shift(c))))))))
  }

  lemma {:induction false} BitsOfValue(bits: seq<bool>)
    ensures BitsOf(ValueOf(bits), |bits|) == bits
  {
    if bits != [] {
      BitsOfValue(bits[1..]);
      assert bits == [bits[0]] + bits[1..];
    }
  }

  lemma {:induction false} ValueOfBits(v: nat, n: nat)
    requires v < Pow2(n)
    ensures ValueOf(BitsOf(v, n)) == v
    decreases n
  {
    if n > 0 {
      ValueOfBits(v / 2, n - 1);
      assert BitsOf(v, n)[1..] == BitsOf(v / 2, n - 1);
    }
  }

  lemma {:induction false} WindowOfWord(c: bv32, n: nat)
    ensures WindowWord(WordBits(c, n)) == c & Mask(n)
    decreases n
  {
    hide Push, Half, LowBit;
    if n == 0 {
      AndZero(c);
    } else {
      WindowOfWord(Half(c), n - 1);
      assert WordBits(c, n)[1..] == WordBits(Half(c), n - 1);
      PushMasked(c, Mask(n - 1));
    }
  }

  lemma AndZero(c: bv32)
    ensures c & 0 == 0
  {}

  lemma PushMasked(c: bv32, m: bv32)
    ensures Push(LowBit(c), Half(c) & m) == c & ((m << 1) | 1)
  {}

  lemma LowByteWord(c: bv32)
    ensures Word(LowByte(c)) == c & 0xFF
  {
    BitsOfValue(WordBits(c, 8));
    hide WindowWord, WordBits;
    WindowOfWord(c, 8);
    Mask8();
  }

  lemma Mask8()
    ensures Mask(8) == 0xFF
  {
    assert Mask(4) == 0xF;
  }

  lemma XorRules(a: bv32, b: bv32, p: bv32)
    ensures (a ^ p) ^ b == (a ^ b) ^ p
    ensures a ^ (b ^ p) == (a ^ b) ^ p
    ensures (a ^ p) ^ (b ^ p) == a ^ b
    ensures a ^ 0 == a && p ^ p == 0
  {}

  lemma LowBitXor(a: bv32, b: bv32)
    ensures (a ^ b) & 1 == (a & 1) ^ (b & 1)
    ensures a & 1 == 0 || a & 1 == 1
  {}

  lemma HalfXor(a: bv32, b: bv32)
    ensures (a ^ b) >> 1 == (a >> 1) ^ (b >> 1)
  {}

  lemma ShiftLinear(a: bv32, b: bv32)
    ensures Shift(Mix(a, b)) == Mix(Shift(a), Shift(b))
  {
    hide Shift;
    ShiftXor(b, a);
  }

  lemma ShiftXor(a: bv32, b: bv32)
    ensures Shift(a ^ b) == Shift(a) ^ Shift(b)
  {
    LowBitXor(a, b);
    LowBitXor(b, a);
    HalfXor(a, b);
    XorRules(a >> 1, b >> 1, POLY);
    XorRules(a >> 1, b >> 1, 0);
  }

  lemma ShiftInjective(a: bv32, b: bv32)
    requires Shift(a) == Shift(b)
    ensures a == b
  {}

  lemma {:induction false} ShiftNInjective(a: bv32, b: bv32, n: nat)
    requires ShiftN(a, n) == ShiftN(b, n)
    ensures a == b
    decreases n
  {
    if n > 0 {
      ShiftNInjective(Shift(a), Shift(b), n - 1);
      ShiftInjective(a, b);
    }
  }

  lemma {:induction false} FeedConcat(c: bv32, x: seq<bool>, y: seq<bool>)
    ensures FeedBits(c, x + y) == FeedBits(FeedBits(c, x), y)
    decreases |x|
  {
    if x == [] {
      assert x + y == y;
    } else {
      assert (x + y)[1..] == x[1..] + y;
      FeedConcat(Step(c, x[0]), x[1..], y);
    }
  }

  lemma StepInjective(a: bv32, b: bv32, bit: bool)
    requires Step(a, bit) == Step(b, bit)
    ensures a == b
  {
    hide Shift, BitWord, Mix;
    ShiftInjective(Mix(a, BitWord(bit)), Mix(b, BitWord(bit)));
    MixCancel(BitWord(bit), a, b);
  }

  lemma MixCancel(w: bv32, p: bv32, q: bv32)
    requires Mix(p, w) == Mix(q, w) || Mix(w, p) == Mix(w, q)
    ensures p == q
  {}

  /** Equal final registers over the same remaining stream mean equal registers before it. */
  lemma {:induction false} FeedInjective(a: bv32, b: bv32, bits: seq<bool>)
    requires FeedBits(a, bits) == FeedBits(b, bits)
    ensures a == b
    decreases |bits|
  {
    hide Step;
    if bits != [] {
      FeedInjective(Step(a, bits[0]), Step(b, bits[0]), bits[1..]);
      StepInjective(a, b, bits[0]);
    }
  }

  // ---- windows of at most 32 bits ------------------------------------------

  function Mask(n: nat): bv32 {
    if n == 0 then 0 else (Mask(n - 1) << 1) | 1
  }

  predicate Within(w: bv32, mask: bv32) {
    w & !mask == 0
  }

  lemma MaskStep(m: bv32, w: bv32, bit: bool)
    requires Within(w, m)
    ensures Within(Push(bit, w), (m << 1) | 1)
  {
    if bit { MaskStepOne(m, w); } else { MaskStepZero(m, w); }
  }

  lemma MaskStepOne(m: bv32, w: bv32)
    requires w & !m == 0
    ensures (1 ^ (w << 1)) & !((m << 1) | 1) == 0
  {}

  lemma MaskStepZero(m: bv32, w: bv32)
    requires w & !m == 0
    ensures (0 ^ (w << 1)) & !((m << 1) | 1) == 0
  {}

  lemma Mask31()
    ensures Mask(31) == 0x7FFFFFFF
  {
    assert Mask(4) == 0xF;
    assert Mask(8) == 0xFF;
    assert Mask(12) == 0xFFF;
    assert Mask(16) == 0xFFFF;
    assert Mask(20) == 0xFFFFF;
    assert Mask(24) == 0xFFFFFF;
    assert Mask(28) == 0xFFFFFFF;
  }

  lemma {:induction false} MaskGrows(n: nat)
    ensures Within(Mask(n), Mask(n + 1))
  {
    if n > 0 {
      MaskGrows(n - 1);
      MaskStep(Mask(n), Mask(n - 1), true);
      assert Push(true, Mask(n - 1)) == (Mask(n - 1) << 1) | 1;
    }
  }

  predicate TopClear(w: bv32) {
    w & 0x80000000 == 0
  }

  lemma SubsetTop(a: bv32, b: bv32)
    requires Within(a, b) && TopClear(b)
    ensures TopClear(a)
  {}

  lemma {:induction false} MaskBelow31(n: nat)
    requires n <= 31
    ensures TopClear(Mask(n))
    decreases 31 - n
  {
    if n == 31 {
      Mask31();
    } else {
      MaskBelow31(n + 1);
      MaskGrows(n);
      SubsetTop(Mask(n), Mask(n + 1));
    }
  }

  lemma {:induction false} WindowFits(bits: seq<bool>)
    ensures Within(WindowWord(bits), Mask(|bits|))
  {
    hide Push, Within;
    if bits == [] {
      assert Within(0, 0) by { WithinZero(); }
    } else {
      WindowFits(bits[1..]);
      MaskStep(Mask(|bits| - 1), WindowWord(bits[1..]), bits[0]);
    }
  }

  lemma WithinZero()
    ensures Within(0, 0)
  {}

  lemma StepWindow(c: bv32, bit: bool, w: bv32)
    requires TopClear(w)
    ensures Shift(Mix(c, Push(bit, w))) == Mix(Step(c, bit), w)
  {
    hide Shift, BitWord, Mix, TopClear, Push, Double;
    MixPush(c, bit, w);
    ShiftLinear(Mix(c, BitWord(bit)), Double(w));
    ShiftDouble(w);
  }

  function Double(w: bv32): bv32 {
    w << 1
  }

  lemma MixPush(c: bv32, bit: bool, w: bv32)
    ensures Mix(c, Push(bit, w)) == Mix(Mix(c, BitWord(bit)), Double(w))
  {
    hide BitWord, Double;
    XorSwap(BitWord(bit), w << 1, c);
    assert Double(w) == w << 1 by { DoubleIs(w); }
  }

  lemma DoubleIs(w: bv32)
    ensures Double(w) == w << 1
  {}

  lemma XorSwap(a: bv32, b: bv32, c: bv32)
    ensures (a ^ b) ^ c == b ^ (a ^ c)
  {}

  lemma ShiftDouble(w: bv32)
    requires TopClear(w)
    ensures Shift(Double(w)) == w
  {}

  lemma MixZero(c: bv32)
    ensures Mix(c, 0) == c
  {}

  /** Feeding up to 32 bits is one xor into the register followed by plain shifts. */
  lemma {:induction false} FeedWindow(c: bv32, bits: seq<bool>)
    requires |bits| <= 32
    ensures FeedBits(c, bits) == ShiftN(Mix(c, WindowWord(bits)), |bits|)
    decreases |bits|
  {
    hide Step, Shift, Mix, Push, Within, TopClear;
    if bits == [] {
      MixZero(c);
    } else {
      var w := WindowWord(bits[1..]);
      FeedWindow(Step(c, bits[0]), bits[1..]);
      WindowFits(bits[1..]);
      MaskBelow31(|bits| - 1);
      SubsetTop(w, Mask(|bits| - 1));
      StepWindow(c, bits[0], w);
    }
  }

  lemma PushDiffers(x: bool, y: bool, p: bv32, q: bv32)
    requires x != y
    ensures Push(x, p) != Push(y, q)
  {
    assert Push(x, p) & 1 == BitWord(x);
    assert Push(y, q) & 1 == BitWord(y);
  }

  /** Two windows of at most 32 bits that differ in their first bit never merge. */
  lemma WindowsDiverge(c: bv32, u: seq<bool>, v: seq<bool>)
    requires 0 < |u| == |v| <= 32 && u[0] != v[0]
    ensures FeedBits(c, u) != FeedBits(c, v)
  {
    hide Step, Shift, Push, Mix;
    FeedWindow(c, u);
    FeedWindow(c, v);
    var p, q := WindowWord(u), WindowWord(v);
    PushDiffers(u[0], v[0], WindowWord(u[1..]), WindowWord(v[1..]));
    if FeedBits(c, u) == FeedBits(c, v) {
      ShiftNInjective(Mix(c, p), Mix(c, q), |u|);
      MixCancel(c, p, q);
    }
  }

  // ---- messages ---------------------------------------------------------------

  lemma {:induction false} BitsConcat(a: seq<Byte>, b: seq<Byte>)
    ensures Bits(a + b) == Bits(a) + Bits(b)
  {
    if a == [] {
      assert a + b == b;
    } else {
      assert (a + b)[1..] == a[1..] + b;
      BitsConcat(a[1..], b);
    }
  }

  lemma ByteBitsInjective(a: Byte, b: Byte)
    requires ByteBits(a) == ByteBits(b)
    ensures a == b
  {
    assert Pow2(8) == 256;
    ValueOfBits(a, 8);
    ValueOfBits(b, 8);
  }

  lemma {:induction false} BitsInjective(a: seq<Byte>, b: seq<Byte>)
    requires |a| == |b| && Bits(a) == Bits(b)
    ensures a == b
  {
    if a != [] {
      assert ByteBits(a[0]) == Bits(a)[..8] == Bits(b)[..8] == ByteBits(b[0]);
      assert Bits(a[1..]) == Bits(a)[8..] == Bits(b)[8..] == Bits(b[1..]);
      ByteBitsInjective(a[0], b[0]);
      BitsInjective(a[1..], b[1..]);
      assert a == [a[0]] + a[1..] && b == [b[0]] + b[1..];
    }
  }

  /** Checksums compose: continuing from a prefix's checksum is checksumming the whole. */
  lemma CrcConcat(seed: bv32, a: seq<Byte>, b: seq<Byte>)
    ensures Crc(seed, a + b) == Crc(Crc(seed, a), b)
  {
    BitsConcat(a, b);
    FeedConcat(seed, Bits(a), Bits(b));
  }

  ghost predicate DifferWithin(x: seq<bool>, y: seq<bool>, from: nat, count: nat) {
    |x| == |y| && forall i :: 0 <= i < |x| && !(from <= i < from + count) ==> x[i] == y[i]
  }

  lemma {:induction false} FirstDifference(x: seq<bool>, y: seq<bool>) returns (j: nat)
    requires |x| == |y| && x != y
    ensures j < |x| && x[j] != y[j] && x[..j] == y[..j]
  {
    if x[0] != y[0] {
      j := 0;
    } else {
      assert x == [x[0]] + x[1..] && y == [y[0]] + y[1..];
      j := FirstDifference(x[1..], y[1..]);
      assert x[..j + 1] == [x[0]] + x[1..][..j] && y[..j + 1] == [y[0]] + y[1..][..j];
      j := j + 1;
    }
  }

  /** A burst cuts both streams into a common prefix, two short windows that differ at once,
      and a common rest. */
  lemma CutBurst(x: seq<bool>, y: seq<bool>, from: nat)
      returns (p: seq<bool>, u: seq<bool>, v: seq<bool>, t: seq<bool>)
    requires x != y && DifferWithin(x, y, from, 32)
    ensures x == p + (u + t) && y == p + (v + t)
    ensures 0 < |u| == |v| <= 32 && u[0] != v[0]
  {
    var j := FirstDifference(x, y);
    var e := if from + 32 < |x| then from + 32 else |x|;
    p, u, v, t := x[..j], x[j..e], y[j..e], x[e..];
    assert t == y[e..];
    assert x == x[..j] + (x[j..e] + x[e..]);
    assert y == y[..j] + (y[j..e] + y[e..]);
  }

  lemma BurstBits(c: bv32, p: seq<bool>, u: seq<bool>, v: seq<bool>, t: seq<bool>)
    requires 0 < |u| == |v| <= 32 && u[0] != v[0]
    ensures FeedBits(c, p + (u + t)) != FeedBits(c, p + (v + t))
  {
    FeedConcat(c, p, u + t);
    FeedConcat(c, p, v + t);
    var d := FeedBits(c, p);
    FeedConcat(d, u, t);
    FeedConcat(d, v, t);
    hide FeedBits;
    WindowsDiverge(d, u, v);
    if FeedBits(c, p + (u + t)) == FeedBits(c, p + (v + t)) {
      FeedInjective(FeedBits(d, u), FeedBits(d, v), t);
    }
  }

  /** CRC32C detects every error burst of up to 32 bits, whatever the seed and the alignment:
      two different messages of the same length whose bit streams agree outside some window of
      32 consecutive bits never share a checksum. */
  lemma BurstDetected(seed: bv32, a: seq<Byte>, b: seq<Byte>, from: nat)
    requires |a| == |b| && a != b
    requires DifferWithin(Bits(a), Bits(b), from, 32)
    ensures Crc(seed, a) != Crc(seed, b)
  {
    hide FeedBits, Bits, DifferWithin;
    if Bits(a) == Bits(b) { BitsInjective(a, b); }
    var p, u, v, t := CutBurst(Bits(a), Bits(b), from);
    BurstBits(seed, p, u, v, t);
  }

  // ---- the table-driven loop ---------------------------------------------------

  /** Eight bit steps of one byte. */
  lemma FeedByte(c: bv32, b: Byte)
    ensures FeedBits(c, ByteBits(b)) == Shift8(Mix(c, Word(b)))
  {
    hide Step, Shift, Mix, WindowWord, ByteBits, Shift8;
    FeedWindow(c, ByteBits(b));
    EightShifts(Mix(c, Word(b)));
  }

  lemma EightShifts(d: bv32)
    ensures ShiftN(d, 8) == Shift8(d)
  {
    hide Shift;
    assert ShiftN(d, 8) == ShiftN(Shift(Shift(Shift(Shift(d)))), 4);
  }

  lemma Shift8Linear(a: bv32, b: bv32)
    ensures Shift8(Mix(a, b)) == Mix(Shift8(a), Shift8(b))
  {
    hide Shift, Mix;
    ShiftLinear(a, b);
    var a1, b1 := Shift(a), Shift(b);
    ShiftLinear(a1, b1);
    var a2, b2 := Shift(a1), Shift(b1);
    ShiftLinear(a2, b2);
    var a3, b3 := Shift(a2), Shift(b2);
    ShiftLinear(a3, b3);
    var a4, b4 := Shift(a3), Shift(b3);
    ShiftLinear(a4, b4);
    var a5, b5 := Shift(a4), Shift(b4);
    ShiftLinear(a5, b5);
    var a6, b6 := Shift(a5), Shift(b5);
    ShiftLinear(a6, b6);
    ShiftLinear(Shift(a6), Shift(b6));
  }

  predicate Even(h: bv32) {
    h & 1 == 0
  }

  lemma ShiftEven(h: bv32)
    requires Even(h)
    ensures Shift(h) == Half(h)
  {}

  lemma HalveEight(h: bv32)
    requires h & 0xFF == 0
    ensures Even(h) && Even(Half(h)) && Even(Half(Half(h))) && Even(Half(Half(Half(h))))
    ensures var k := Half(Half(Half(Half(h))));
      Even(k) && Even(Half(k)) && Even(Half(Half(k))) && Even(Half(Half(Half(k))))
      && Half(Half(Half(Half(k)))) == Down8(h)
  {}

  lemma Shift8High(h: bv32)
    requires h & 0xFF == 0
    ensures Shift8(h) == Down8(h)
  {
    hide Shift, Half, Even, Down8;
    HalveEight(h);
    ShiftEven(h); ShiftEven(Half(h)); ShiftEven(Half(Half(h))); ShiftEven(Half(Half(Half(h))));
    var k := Half(Half(Half(Half(h))));
    ShiftEven(k); ShiftEven(Half(k)); ShiftEven(Half(Half(k))); ShiftEven(Half(Half(Half(k))));
  }

  function LowPart(x: bv32): bv32 {
    x & 0xFF
  }

  function HighPart(x: bv32): bv32 {
    x & 0xFFFFFF00
  }

  function Down8(x: bv32): bv32 {
    x >> 8
  }

  lemma SplitBytes(x: bv32)
    ensures Mix(LowPart(x), HighPart(x)) == x
    ensures HighPart(x) & 0xFF == 0 && Down8(HighPart(x)) == Down8(x)
  {}

  lemma Shift8Split(x: bv32)
    ensures Shift8(x) == Mix(Shift8(LowPart(x)), Down8(x))
  {
    hide Shift8, Mix, LowPart, HighPart, Down8;
    SplitBytes(x);
    Shift8Linear(LowPart(x), HighPart(x));
    Shift8High(HighPart(x));
  }

  /** The table entry of a byte value: eight plain shifts. */
  function Entry(b: Byte): bv32 {
    Shift8(Word(b))
  }

  ghost predicate IsTable(table: seq<bv32>) {
    |table| == 256 && forall i: Byte :: table[i] == Entry(i)
  }

  /** The loop body: index by the low byte, shift the rest down. */
  function Lookup(table: seq<bv32>, crc: bv32, b: Byte): bv32
    requires |table| == 256
  {
    table[LowByte(Mix(crc, Word(b)))] ^ Down8(crc)
  }

  lemma LookupStep(table: seq<bv32>, crc: bv32, b: Byte)
    requires IsTable(table)
    ensures Lookup(table, crc, b) == Crc(crc, [b])
  {
    hide Entry, Word, LowByte, FeedBits, ByteBits;
    TableStep(crc, b);
    SingleByte(crc, b);
  }

  /** One table step equals the eight bit steps of the byte. */
  lemma TableStep(crc: bv32, b: Byte)
    ensures Entry(LowByte(Mix(crc, Word(b)))) ^ Down8(crc) == FeedBits(crc, ByteBits(b))
  {
    FeedByte(crc, b);
    hide Shift8, LowByte, Word, FeedBits, ByteBits, Mix, Down8;
    var x := Mix(crc, Word(b));
    LowByteWord(x);
    Shift8Split(x);
    DownMix(crc, b);
    MixIs(Entry(LowByte(x)), Down8(crc));
  }

  lemma MixIs(a: bv32, b: bv32)
    ensures Mix(a, b) == a ^ b
  {}

  lemma DownMix(crc: bv32, b: Byte)
    ensures Down8(Mix(crc, Word(b))) == Down8(crc)
  {
    hide Mix, WindowWord, Within, Down8;
    WindowFits(ByteBits(b));
    Mask8();
    XorSmall(crc, Word(b));
  }

  lemma XorSmall(c: bv32, w: bv32)
    requires Within(w, 0xFF)
    ensures Down8(Mix(c, w)) == Down8(c)
  {}

  /** The checksum with its table kept between calls, as the function attribute keeps it. */
  class Checksummer {
    var table: seq<bv32>  // empty until the first call

    ghost predicate Valid()
      reads this
    {
      table == [] || IsTable(table)
    }

    constructor ()
      ensures Valid() && table == []
    {
      table := [];
    }

    method BuildTable()
      modifies this
      ensures IsTable(table)
    {
      hide Shift, Shift8, Word;
      var t := [];
      for i := 0 to 256
        invariant |t| == i
        invariant forall k: Byte :: k < i ==> t[k] == Entry(k)
      {
        var crc := Word(i);
        for k := 0 to 8
          invariant ShiftN(crc, 8 - k) == ShiftN(Word(i), 8)
        {
          crc := Shift(crc);
        }
        EightShifts(Word(i));
        t := t + [crc];
      }
      table := t;
    }

    /** Table-driven, byte by byte; equal to dividing the message bit by bit. */
    method Compute(seed: bv32, data: seq<Byte>) returns (crc: bv32)
      requires Valid()
      modifies this
      ensures IsTable(table) && crc == Crc(seed, data)
    {
      hide Entry, Crc, Lookup;
      if table == [] {
        BuildTable();
      }
      crc := seed;
      EmptyMessage(seed);
      for i := 0 to |data|
        invariant IsTable(table)
        invariant crc == Crc(seed, data[..i])
      {
        LookupStep(table, crc, data[i]);
        CrcConcat(seed, data[..i], [data[i]]);
        assert data[..i] + [data[i]] == data[..i + 1];
        crc := Lookup(table, crc, data[i]);
      }
      assert data[..|data|] == data;
    }
  }

  lemma EmptyMessage(seed: bv32)
    ensures Crc(seed, []) == seed
  {}

  lemma SingleByte(c: bv32, b: Byte)
    ensures Crc(c, [b]) == FeedBits(c, ByteBits(b))
  {
    assert Bits([b]) == ByteBits(b) + Bits([]) == ByteBits(b);
  }

  // ---- the checksum as a stored number ------------------------------------------

  /** The 32-bit number a checksum is stored as. */
  function Stored(crc: bv32): (v: nat)
    ensures v < U32
  {
    Pow32();
    ValueOf(WordBits(crc, 32))
  }

  function Value(seed: bv32, data: seq<Byte>): (v: nat)
    ensures v < U32
  {
    Stored(Crc(seed, data))
  }

  lemma Pow32()
    ensures Pow2(32) == U32
  {
    assert Pow2(8) == 0x100;
    assert Pow2(16) == 0x1_0000;
    assert Pow2(24) == 0x100_0000;
  }

  lemma Mask32()
    ensures Mask(32) == 0xFFFFFFFF
  {
    Mask31();
  }

  lemma AndAll(c: bv32)
    ensures c & 0xFFFFFFFF == c
  {}

  /** Different registers are stored as different numbers. */
  lemma StoredInjective(a: bv32, b: bv32)
    requires Stored(a) == Stored(b)
    ensures a == b
  {
    BitsOfValue(WordBits(a, 32));
    BitsOfValue(WordBits(b, 32));
    hide WordBits, WindowWord, Mask;
    WindowOfWord(a, 32);
    WindowOfWord(b, 32);
    Mask32();
    AndAll(a);
    AndAll(b);
  }

  lemma {:induction false} BitsAgree(p: seq<Byte>, x: seq<Byte>, y: seq<Byte>, t: seq<Byte>)
    requires |x| == |y| <= 4
    ensures DifferWithin(Bits(p + x + t), Bits(p + y + t), 8 * |p|, 32)
  {
    BitsConcat(p + x, t);
    BitsConcat(p, x);
    BitsConcat(p + y, t);
    BitsConcat(p, y);
  }

  /** The stored checksum changes whenever up to four consecutive bytes of a message change. */
  lemma FourBytesDetected(seed: bv32, p: seq<Byte>, x: seq<Byte>, y: seq<Byte>, t: seq<Byte>)
    requires |x| == |y| <= 4 && x != y
    ensures Value(seed, p + x + t) != Value(seed, p + y + t)
  {
    hide Stored, Crc, Bits, DifferWithin;
    BitsAgree(p, x, y, t);
    assert (p + x + t)[|p|..|p| + |x|] == x && (p + y + t)[|p|..|p| + |y|] == y;
    BurstDetected(seed, p + x + t, p + y + t, 8 * |p|);
    if Stored(Crc(seed, p + x + t)) == Stored(Crc(seed, p + y + t)) {
      StoredInjective(Crc(seed, p + x + t), Crc(seed, p + y + t));
    }
  }
}
