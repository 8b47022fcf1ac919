/** FNV-1a: the kernel's chunked hash of its init program against the plain fold, and what the hash tells apart. */
module Fnv {
  import opened Basics
  import opened Bytes

  const M := 0x1_0000_0000_0000_0000
  const BASIS := 14695981039346656037
  const PRIME := 1099511628211
  /** The inverse of PRIME modulo M. */
  const INVERSE := 14886173955864302971

  // ---- exclusive or ------------------------------------------------------------------------------

  function Xor(n: nat, a: nat, b: nat): nat {
    if n == 0 then 0 else (a % 2 + b % 2) % 2 + 2 * Xor(n - 1, a / 2, b / 2)
  }

  lemma {:induction false} XorBound(n: nat, a: nat, b: nat)
    ensures Xor(n, a, b) < Pow2(n)
  {
    if n > 0 { XorBound(n - 1, a / 2, b / 2); }
  }

  lemma XorParts(n: nat, a: nat, b: nat)
    requires n > 0
    ensures Xor(n, a, b) % 2 == (a % 2 + b % 2) % 2 && Xor(n, a, b) / 2 == Xor(n - 1, a / 2, b / 2)
  {
  }

  lemma BitBack(x: nat, y: nat)
    requires x < 2 && y < 2
    ensures (x + (x + y) % 2) % 2 == y
  {
  }

  /** The second operand can be recovered. */
  lemma {:induction false} XorBack(n: nat, a: nat, b: nat)
    requires b < Pow2(n)
    ensures Xor(n, a, Xor(n, a, b)) == b
  {
    if n > 0 {
      var x := Xor(n, a, b);
      XorParts(n, a, b);
      XorBack(n - 1, a / 2, b / 2);
      BitBack(a % 2, b % 2);
      assert Xor(n, a, x) == (a % 2 + x % 2) % 2 + 2 * Xor(n - 1, a / 2, x / 2);
    }
  }

  lemma {:induction false} XorComm(n: nat, a: nat, b: nat)
    ensures Xor(n, a, b) == Xor(n, b, a)
  {
    if n > 0 { XorComm(n - 1, a / 2, b / 2); }
  }

  function XorByte(a: Byte, b: Byte): (r: Byte) {
    XorBound(8, a, b);
    assert Pow2(8) == 256;
    Xor(8, a, b)
  }

  /** Either operand is determined by the other and the result. */
  lemma XorByteInjective(a: Byte, b: Byte, c: Byte)
    ensures XorByte(a, b) == XorByte(a, c) ==> b == c
    ensures XorByte(b, a) == XorByte(c, a) ==> b == c
  {
    assert Pow2(8) == 256;
    XorBack(8, a, b);
    XorBack(8, a, c);
    XorComm(8, a, b);
    XorComm(8, a, c);
  }

  // ---- one step --------------------------------------------------------------------------------------

  function Low(h: nat): Byte {
    h % 256
  }

  function Mixed(h: nat, b: Byte): nat {
    h - h % 256 + XorByte(Low(h), b)
  }

  function Times(x: nat, k: nat): (r: nat)
    ensures r < M
  {
    (x * k) % M
  }

  function Step(h: nat, b: Byte): (r: nat)
    ensures r < M
  {
    Times(Mixed(h, b), PRIME)
  }

  lemma MixedBound(h: nat, b: Byte)
    requires h < M
    ensures Mixed(h, b) < M
  {
  }

  /** Nothing of the state or the byte is lost by the exclusive or. */
  lemma MixedInjective(h: nat, b: Byte, i: nat, c: Byte)
    requires Mixed(h, b) == Mixed(i, c)
    ensures h == i ==> b == c
    ensures b == c ==> h == i
  {
    XorByteInjective(Low(h), b, c);
    XorByteInjective(b, Low(h), Low(i));
    var x, y := XorByte(Low(h), b), XorByte(Low(i), c);
    Divide(h / 256, x, i / 256, y);
  }

  lemma Divide(p: nat, x: Byte, q: nat, y: Byte)
    requires p * 256 + x == q * 256 + y
    ensures p == q && x == y
  {
  }

  lemma ModProduct(x: nat, a: nat, b: nat)
    ensures Times(Times(x, a), b) == Times(x, a * b)
  {
    var q, r := x * a / M, x * a % M;
    assert x * a == q * M + r;
    assert x * (a * b) == (q * M + r) * b == r * b + (q * b) * M;
    ModPlus(r * b, q * b);
  }

  lemma ModPlus(a: nat, q: nat)
    ensures (a + q * M) % M == a % M
  {
    if q != 0 { ModPlus(a, q - 1); }
  }

  /** Multiplying by the prime can be undone modulo 2^64. */
  lemma TimesInverse(x: nat)
    requires x < M
    ensures Times(Times(x, PRIME), INVERSE) == x
  {
    ModProduct(x, PRIME, INVERSE);
    var k := PRIME * INVERSE / M;
    assert PRIME * INVERSE == k * M + 1;
    assert x * (PRIME * INVERSE) == x + (x * k) * M;
    ModPlus(x, x * k);
  }

  /** A step tells apart states that meet the same byte and bytes that meet the same state. */
  lemma StepInjective(h: nat, b: Byte, i: nat, c: Byte)
    requires h < M && i < M && Step(h, b) == Step(i, c)
    ensures h == i ==> b == c
    ensures b == c ==> h == i
  {
    hide Times, Mixed;
    MixedBound(h, b);
    MixedBound(i, c);
    TimesInverse(Mixed(h, b));
    TimesInverse(Mixed(i, c));
    MixedInjective(h, b, i, c);
  }

  // ---- the hash -----------------------------------------------------------------------------------------

  function HashFrom(h: nat, data: seq<Byte>): (r: nat)
    requires h < M
    ensures r < M
    decreases |data|
  {
    if data == [] then h else Step(HashFrom(h, data[..|data| - 1]), data[|data| - 1])
  }

  function Hash(data: seq<Byte>): (r: nat)
    ensures r < M
  {
    HashFrom(BASIS, data)
  }

  lemma {:induction false} HashConcat(h: nat, a: seq<Byte>, b: seq<Byte>)
    requires h < M
    ensures HashFrom(h, a + b) == HashFrom(HashFrom(h, a), b)
    decreases |b|
  {
    hide Step;
    if b == [] {
      assert a + b == a;
    } else {
      var n := |b| - 1;
      assert (a + b)[..|a + b| - 1] == a + b[..n];
      HashConcat(h, a, b[..n]);
    }
  }

  lemma {:induction false} StatesStayApart(h: nat, i: nat, data: seq<Byte>)
    requires h < M && i < M && h != i
    ensures HashFrom(h, data) != HashFrom(i, data)
    decreases |data|
  {
    hide Step;
    if data != [] {
      var n := |data| - 1;
      StatesStayApart(h, i, data[..n]);
      if HashFrom(h, data) == HashFrom(i, data) {
        StepInjective(HashFrom(h, data[..n]), data[n], HashFrom(i, data[..n]), data[n]);
      }
    }
  }

  /** Two inputs that differ in exactly one byte never hash alike, wherever the byte is. */
  lemma OneByteDiffers(pre: seq<Byte>, b: Byte, c: Byte, post: seq<Byte>)
    requires b != c
    ensures Hash(pre + [b] + post) != Hash(pre + [c] + post)
  {
    hide Step;
    var h := Hash(pre);
    HashConcat(BASIS, pre + [b], post);
    HashConcat(BASIS, pre + [c], post);
    OneMore(pre, b);
    OneMore(pre, c);
    if Step(h, b) == Step(h, c) {
      StepInjective(h, b, h, c);
    }
    StatesStayApart(Step(h, b), Step(h, c), post);
  }

  lemma OneMore(pre: seq<Byte>, b: Byte)
    ensures Hash(pre + [b]) == Step(Hash(pre), b)
  {
    assert (pre + [b])[..|pre + [b]| - 1] == pre;
  }

  method Fnv1a(data: seq<Byte>) returns (value: nat)
    ensures value == Hash(data)
  {
    hide Step;
    value := BASIS;
    for i := 0 to |data|
      invariant value == Hash(data[..i])
    {
      OneMore(data[..i], data[i]);
      assert data[..i] + [data[i]] == data[..i + 1];
      value := Step(value, data[i]);
    }
    assert data[..|data|] == data;
  }

  // ---- the chunked hash of the init program ------------------------------------------------------------

  const CHUNK := 1024

  function Want(size: nat, off: nat): (w: nat)
    requires off < size
    ensures 0 < w <= CHUNK && off + w <= size
  {
    if size - off > CHUNK then CHUNK else size - off
  }

  /** A positional read returns at most what was asked for, out of the file, or an error. */
  ghost predicate Honest(data: seq<Byte>, got: (nat, nat) -> int) {
    forall off: nat, want: nat :: got(off, want) <= want && (got(off, want) > 0 ==> off + got(off, want) <= |data|)
  }

  /** How many bytes have been delivered, in order, when the reads that start at `off` stop. */
  function Delivered(size: nat, got: (nat, nat) -> int, off: nat): nat
    decreases size - off
  {
    if off >= size then size
    else
      var want := Want(size, off);
      var n := got(off, want);
      if n <= 0 then off else if n != want then off + n else Delivered(size, got, off + CHUNK)
  }

  /** Every chunk is delivered in full exactly when the whole of the reported size is. */
  lemma {:induction false} DeliveredAll(size: nat, got: (nat, nat) -> int, off: nat)
    requires off <= size && forall o: nat, want: nat :: got(o, want) <= want
    requires off % CHUNK == 0
    ensures Delivered(size, got, off) == size
      <==> forall o: nat :: off <= o < size && o % CHUNK == 0 ==> FullAt(size, got, o)
    decreases size - off
  {
    if off < size {
      if off + CHUNK <= size {
        DeliveredAll(size, got, off + CHUNK);
      }
      forall o: nat | off <= o < size && o % CHUNK == 0
        ensures o == off || off + CHUNK <= o
      {
      }
      if FullAt(size, got, off) {
      } else {
        assert Delivered(size, got, off) != size;
      }
    }
  }

  predicate FullAt(size: nat, got: (nat, nat) -> int, off: nat) {
    off < size ==> got(off, Want(size, off)) == Want(size, off)
  }

  /** One chunk: the running hash takes in n more bytes. */
  method HashChunk(data: seq<Byte>, off: nat, n: nat, h0: nat) returns (h: nat)
    requires off + n <= |data| && h0 == Hash(data[..off])
    ensures h == Hash(data[..off + n])
  {
    hide Step;
    h := h0;
    for i := 0 to n
      invariant h == Hash(data[..off + i])
    {
      OneMore(data[..off + i], data[off + i]);
      assert data[..off + i] + [data[off + i]] == data[..off + i + 1];
      h := Step(h, data[off + i]);
    }
  }

  /** The kernel's loop hashes exactly the delivered prefix, whatever size is reported and however reads fall short. */
  method HashInit(data: seq<Byte>, size: nat, got: (nat, nat) -> int) returns (h: nat)
    requires Honest(data, got)
    ensures Delivered(size, got, 0) <= |data| && h == Hash(data[..Delivered(size, got, 0)])
  {
    hide Hash;
    h := BASIS;
    assert h == Hash(data[..0]) by { HashNothing(); }
    var off := 0;
    while off < size
      invariant 0 <= off && Min(off, size) <= |data| && h == Hash(data[..Min(off, size)])
      invariant Delivered(size, got, 0) == Delivered(size, got, off)
    {
      var want := Want(size, off);
      var n := got(off, want);
      if n <= 0 {
        break;
      }
      h := HashChunk(data, off, n, h);
      if n != want {
        break;
      }
      off := off + CHUNK;
    }
  }

  lemma HashNothing()
    ensures Hash([]) == BASIS
  {
  }
}
