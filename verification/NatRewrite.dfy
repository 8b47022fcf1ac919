/** Address and port rewriting of an IPv4 frame, and what it does to the IP, TCP and UDP checksums. */
module NatRewrite {
  import opened Bytes
  import opened InternetChecksum

  /** The parsed view of a frame. */
  datatype Packet = Packet(src: nat, dst: nat, proto: nat, ipOff: nat, l4Off: nat)

  function Field(p: Packet): nat {
    if p.proto == 17 then 6 else 16
  }

  /** An IPv4 header of n bytes, then m bytes of TCP or UDP. */
  predicate Laid(f: seq<Byte>, p: Packet, n: nat, m: nat) {
    && |f| <= 65535 && 20 <= n && n % 2 == 0
    && p.ipOff + n <= p.l4Off && p.l4Off + m <= |f|
    && f[p.ipOff] > 0
    && (p.proto == 6 || p.proto == 17) && Field(p) + 2 <= m
  }

  function Addr(f: seq<Byte>, k: nat): (a: nat)
    requires k + 4 <= |f|
    ensures a < U32 && Halves(a) == Get16(f, k) + Get16(f, k + 2)
  {
    Get16(f, k) * 65536 + Get16(f, k + 2)
  }

  function PutAddr(f: seq<Byte>, k: nat, a: nat): (r: seq<Byte>)
    requires k + 4 <= |f| && a < U32
    ensures |r| == |f|
    ensures forall i :: 0 <= i < |f| && !(k <= i < k + 4) ==> r[i] == f[i]
  {
    Put16(Put16(f, k, a / 65536), k + 2, a % 65536)
  }

  predicate Agrees(f: seq<Byte>, p: Packet)
    requires p.ipOff + 20 <= |f|
  {
    Addr(f, p.ipOff + 12) == p.src && Addr(f, p.ipOff + 16) == p.dst
  }

  // ---- what the two checksums cover ------------------------------------------------------------

  function IpCk(f: seq<Byte>, p: Packet): (v: nat)
    requires p.ipOff + 20 <= |f|
    ensures v < 65536
  {
    Get16(f, p.ipOff + 10)
  }

  function IpSum(f: seq<Byte>, p: Packet, n: nat): nat
    requires p.ipOff + n <= |f|
  {
    Sum(f, p.ipOff, p.ipOff + n)
  }

  /** The stored header checksum is the one computed with its own field read as zero. */
  predicate IpValid(f: seq<Byte>, p: Packet, n: nat, m: nat)
    requires Laid(f, p, n, m)
  {
    IpCk(f, p) == Complement(Sum(Put16(f, p.ipOff + 10, 0), p.ipOff, p.ipOff + n))
  }

  function L4Ck(f: seq<Byte>, p: Packet): (v: nat)
    requires p.l4Off + Field(p) + 2 <= |f|
    ensures v < 65536
  {
    Get16(f, p.l4Off + Field(p))
  }

  /** Addresses, protocol and length. */
  function Pseudo(f: seq<Byte>, p: Packet, m: nat): nat
    requires p.ipOff + 20 <= |f|
  {
    Halves(Addr(f, p.ipOff + 12)) + Halves(Addr(f, p.ipOff + 16)) + p.proto + m
  }

  function L4Sum(f: seq<Byte>, p: Packet, m: nat): nat
    requires p.ipOff + 20 <= |f| && p.l4Off + m <= |f|
  {
    Sum(f, p.l4Off, p.l4Off + m) + Pseudo(f, p, m)
  }

  predicate L4Valid(f: seq<Byte>, p: Packet, n: nat, m: nat)
    requires Laid(f, p, n, m)
  {
    L4Ck(f, p) == Complement(L4Sum(Put16(f, p.l4Off + Field(p), 0), p, m))
  }

  // ---- validity as a congruence -------------------------------------------------------------------

  predicate Balanced(ck: nat, total: nat) {
    ck < ONES && total % ONES == 0
  }

  lemma IpValidIff(f: seq<Byte>, p: Packet, n: nat, m: nat)
    requires Laid(f, p, n, m)
    ensures IpValid(f, p, n, m) <==> Balanced(IpCk(f, p), IpSum(f, p, n))
  {
    var z := Put16(f, p.ipOff + 10, 0);
    SumPut(f, p.ipOff, p.ipOff + n, p.ipOff + 10, 0);
    SumHas(z, p.ipOff, p.ipOff + n, p.ipOff);
    assert Get16(z, p.ipOff) > 0;
    StoredIff(IpCk(f, p), Sum(z, p.ipOff, p.ipOff + n));
  }

  /** Writing outside the addresses leaves the pseudo-header alone. */
  lemma PseudoApart(f: seq<Byte>, p: Packet, m: nat, k: nat, v: nat)
    requires p.ipOff + 20 <= |f| && k + 2 <= |f| && v < 65536
    requires k + 2 <= p.ipOff + 12 || p.ipOff + 20 <= k
    ensures Pseudo(Put16(f, k, v), p, m) == Pseudo(f, p, m)
  {
  }

  lemma L4ValidIff(f: seq<Byte>, p: Packet, n: nat, m: nat)
    requires Laid(f, p, n, m)
    ensures L4Valid(f, p, n, m) <==> Balanced(L4Ck(f, p), L4Sum(f, p, m))
  {
    hide Pseudo;
    var k := p.l4Off + Field(p);
    SumPut(f, p.l4Off, p.l4Off + m, k, 0);
    PseudoApart(f, p, m, k, 0);
    PseudoPositive(f, p, m);
    StoredIff(L4Ck(f, p), L4Sum(Put16(f, k, 0), p, m));
  }

  lemma PseudoPositive(f: seq<Byte>, p: Packet, m: nat)
    requires p.ipOff + 20 <= |f| && p.proto > 0
    ensures Pseudo(f, p, m) > 0
  {
  }

  // ---- writing an address --------------------------------------------------------------------------

  lemma PutAddrSum(f: seq<Byte>, lo: nat, hi: nat, k: nat, a: nat)
    requires lo <= k && k + 4 <= hi <= |f| && (k - lo) % 2 == 0 && a < U32
    ensures Sum(PutAddr(f, k, a), lo, hi) == Sum(f, lo, hi) - Halves(Addr(f, k)) + Halves(a)
  {
    var g := Put16(f, k, a / 65536);
    SumPut(f, lo, hi, k, a / 65536);
    SumPut(g, lo, hi, k + 2, a % 65536);
  }

  lemma PutAddrReads(f: seq<Byte>, k: nat, a: nat)
    requires k + 4 <= |f| && a < U32
    ensures Addr(PutAddr(f, k, a), k) == a
  {
    assert Get16(PutAddr(f, k, a), k) == a / 65536;
  }

  // ---- the rewriter -----------------------------------------------------------------------------------

  function FixIp(f: seq<Byte>, p: Packet, was: nat, after: nat): (r: seq<Byte>)
    requires p.ipOff + 20 <= |f| && was < U32
    ensures |r| == |f|
  {
    Put16(f, p.ipOff + 10, Delta(IpCk(f, p), was, after))
  }

  /** Writes one address, at offset 12 or 16 of the header, and updates the header checksum. */
  function MoveAddr(f: seq<Byte>, p: Packet, at: nat, was: nat, after: nat): (r: seq<Byte>)
    requires p.ipOff + 20 <= |f| && (at == 12 || at == 16) && was < U32 && after < U32
    ensures |r| == |f|
  {
    if after == was then f else FixIp(PutAddr(f, p.ipOff + at, after), p, was, after)
  }

  /** Both header rewrites together. */
  function Moved(f: seq<Byte>, p: Packet, src: nat, dst: nat): (r: seq<Byte>)
    requires p.ipOff + 20 <= |f| && p.src < U32 && p.dst < U32 && src < U32 && dst < U32
    ensures |r| == |f|
  {
    MoveAddr(MoveAddr(f, p, 12, p.src, src), p, 16, p.dst, dst)
  }

  /** Where the TCP or UDP checksum is, or 0 when the frame cannot hold it. */
  function CkOff(f: seq<Byte>, p: Packet): nat {
    if p.proto == 17 then (if |f| >= p.l4Off + 8 then (p.l4Off + 6) % 65536 else 0)
    else if p.proto != 6 || |f| < p.l4Off + 18 then 0
    else
      var words := (f[p.l4Off + 12] as int) / 16;
      if words < 5 || |f| < p.l4Off + words * 4 then 0 else (p.l4Off + 16) % 65536
  }

  /** A checksum of zero is left alone. */
  function FixL4(f: seq<Byte>, p: Packet, src: nat, dst: nat): (r: seq<Byte>)
    requires p.src < U32 && p.dst < U32 && |f| <= 65535
    ensures |r| == |f|
  {
    var k := CkOff(f, p);
    if k == 0 || Get16(f, k) == 0 then f
    else Put16(f, k, Delta(Delta(Get16(f, k), p.src, src), p.dst, dst))
  }

  function SetAddr(f: seq<Byte>, p: Packet, src: nat, dst: nat): (r: seq<Byte>)
    requires p.ipOff + 20 <= |f| <= 65535 && p.src < U32 && p.dst < U32 && src < U32 && dst < U32
    ensures |r| == |f|
  {
    var g := Moved(f, p, src, dst);
    if src == p.src && dst == p.dst then g else FixL4(g, p, src, dst)
  }

  // ---- the header checksum stays valid ----------------------------------------------------------------

  /** Exchanging y for x in a multiple of 65535 leaves one exactly when they are congruent. */
  lemma Exchange(total: nat, y: nat, x: nat)
    requires total % ONES == 0 && y <= total
    ensures (total - y + x) % ONES == 0 <==> x % ONES == y % ONES
  {
    var q := total / ONES;
    var a, b := y / ONES, x / ONES;
    var d := x % ONES - y % ONES;
    assert total - y + x == d + (q - a + b) * ONES;
    ModSmall(d, q - a + b);
  }

  lemma ModSmall(d: int, q: int)
    requires -ONES < d < ONES
    ensures (d + q * ONES) % ONES == 0 <==> d == 0
  {
  }

  /** Bytes the header rewrite may change: the checksum and the addresses. */
  predicate SameOutside(f: seq<Byte>, g: seq<Byte>, lo: nat, hi: nat) {
    |g| == |f| && forall i :: 0 <= i < |f| && !(lo <= i < hi) ==> g[i] == f[i]
  }

  lemma {:induction false} SumSame(f: seq<Byte>, g: seq<Byte>, lo: nat, hi: nat)
    requires |f| == |g| && hi <= |f| && forall i :: lo <= i < hi ==> f[i] == g[i]
    ensures Sum(f, lo, hi) == Sum(g, lo, hi)
    decreases hi - lo
  {
    if lo < hi { SumSame(f, g, lo + 2, hi); }
  }

  lemma MoveAddrFrame(f: seq<Byte>, p: Packet, n: nat, m: nat, at: nat, was: nat, after: nat)
    requires Laid(f, p, n, m) && (at == 12 || at == 16) && was < U32 && after < U32
    requires Addr(f, p.ipOff + at) == was
    ensures var g := MoveAddr(f, p, at, was, after);
      Laid(g, p, n, m) && SameOutside(f, g, p.ipOff + 10, p.ipOff + 20)
      && Addr(g, p.ipOff + at) == after && Addr(g, p.ipOff + 28 - at) == Addr(f, p.ipOff + 28 - at)
  {
    if after != was { PutAddrReads(f, p.ipOff + at, after); }
  }

  /** The rewrite takes the old checksum and address out of the header sum and puts the new ones in. */
  lemma MoveAddrSum(f: seq<Byte>, p: Packet, n: nat, m: nat, at: nat, after: nat)
    requires Laid(f, p, n, m) && (at == 12 || at == 16) && after < U32
    requires after != Addr(f, p.ipOff + at)
    ensures var was := Addr(f, p.ipOff + at); var ck := IpCk(f, p); var g := MoveAddr(f, p, at, was, after);
      IpCk(g, p) == Delta(ck, was, after)
      && IpSum(g, p, n) == IpSum(f, p, n) - (ck + Halves(was)) + (Delta(ck, was, after) + Halves(after))
  {
    hide Delta, Halves;
    var lo, hi := p.ipOff, p.ipOff + n;
    var h := PutAddr(f, p.ipOff + at, after);
    PutAddrSum(f, lo, hi, p.ipOff + at, after);
    SumPut(h, lo, hi, p.ipOff + 10, Delta(IpCk(f, p), Addr(f, p.ipOff + at), after));
    assert IpCk(h, p) == IpCk(f, p);
  }

  lemma MoveAddrIp(f: seq<Byte>, p: Packet, n: nat, m: nat, at: nat, was: nat, after: nat)
    requires Laid(f, p, n, m) && (at == 12 || at == 16) && was < U32 && after < U32
    requires Addr(f, p.ipOff + at) == was && IpValid(f, p, n, m)
    ensures Laid(MoveAddr(f, p, at, was, after), p, n, m) && IpValid(MoveAddr(f, p, at, was, after), p, n, m)
  {
    hide Delta, IpValid, Halves, IpSum, IpCk, Addr, SameOutside;
    MoveAddrFrame(f, p, n, m, at, was, after);
    if after != was {
      var ck := IpCk(f, p);
      IpValidIff(f, p, n, m);
      MoveAddrSum(f, p, n, m, at, after);
      DeltaBalances(ck, was, after);
      HeaderHas(f, p, n, m, at);
      Exchange(IpSum(f, p, n), ck + Halves(was), Delta(ck, was, after) + Halves(after));
      IpValidIff(MoveAddr(f, p, at, was, after), p, n, m);
    }
  }

  /** Writing elsewhere leaves an address alone. */
  lemma AddrApart(f: seq<Byte>, k: nat, at: nat, v: nat)
    requires k + 2 <= |f| && at + 4 <= |f| && v < 65536 && (k + 2 <= at || at + 4 <= k)
    ensures Addr(Put16(f, k, v), at) == Addr(f, at)
  {
  }

  lemma HalvesZero()
    ensures Halves(0) == 0
  {
  }

  /** The header sum holds the checksum and either address. */
  lemma HeaderHas(f: seq<Byte>, p: Packet, n: nat, m: nat, at: nat)
    requires Laid(f, p, n, m) && (at == 12 || at == 16)
    ensures IpCk(f, p) + Halves(Addr(f, p.ipOff + at)) <= IpSum(f, p, n)
  {
    hide Addr, Halves, Sum, Put16, PutAddr;
    var lo, hi := p.ipOff, p.ipOff + n;
    var z := Put16(f, lo + 10, 0);
    SumPut(f, lo, hi, lo + 10, 0);
    PutAddrSum(z, lo, hi, lo + at, 0);
    HalvesZero();
    AddrApart(f, lo + 10, lo + at, 0);
  }

  // ---- the transport checksum stays valid, exactly when -----------------------------------------------

  ghost predicate MovedOk(f: seq<Byte>, g: seq<Byte>, p: Packet, n: nat, m: nat, src: nat, dst: nat) {
    Laid(f, p, n, m) && Laid(g, p, n, m) && SameOutside(f, g, p.ipOff + 10, p.ipOff + 20)
    && Addr(g, p.ipOff + 12) == src && Addr(g, p.ipOff + 16) == dst
  }

  lemma MovedFrame(f: seq<Byte>, p: Packet, n: nat, m: nat, src: nat, dst: nat)
    requires Laid(f, p, n, m) && Agrees(f, p) && src < U32 && dst < U32
    ensures MovedOk(f, Moved(f, p, src, dst), p, n, m, src, dst)
    ensures IpValid(f, p, n, m) ==> IpValid(Moved(f, p, src, dst), p, n, m)
  {
    hide MoveAddr, IpValid, Addr;
    var g := MoveAddr(f, p, 12, p.src, src);
    MoveAddrFrame(f, p, n, m, 12, p.src, src);
    MoveAddrFrame(g, p, n, m, 16, p.dst, dst);
    if IpValid(f, p, n, m) {
      MoveAddrIp(f, p, n, m, 12, p.src, src);
      MoveAddrIp(g, p, n, m, 16, p.dst, dst);
    }
  }

  /** The moved frame differs, to the transport checksum, in the pseudo-header only. */
  lemma MovedL4(f: seq<Byte>, g: seq<Byte>, p: Packet, n: nat, m: nat, src: nat, dst: nat)
    requires MovedOk(f, g, p, n, m, src, dst) && Agrees(f, p)
    ensures L4Ck(g, p) == L4Ck(f, p) && CkOff(g, p) == CkOff(f, p)
    ensures L4Sum(g, p, m) == L4Sum(f, p, m) - (Halves(p.src) + Halves(p.dst)) + (Halves(src) + Halves(dst))
  {
    hide Halves, Addr;
    SumSame(f, g, p.l4Off, p.l4Off + m);
  }

  predicate Congruent(a: nat, b: nat) {
    a % ONES == b % ONES
  }

  lemma DeltaTwice(ck: nat, p: Packet, src: nat, dst: nat)
    requires ck < ONES && p.src < U32 && p.dst < U32
    ensures var ck2 := Delta(Delta(ck, p.src, src), p.dst, dst);
      ck2 < ONES && Congruent(ck2 + (Halves(src) + Halves(dst)), ck + (Halves(p.src) + Halves(p.dst)))
  {
    hide Delta, Halves;
    var ck1 := Delta(ck, p.src, src);
    DeltaBalances(ck, p.src, src);
    DeltaBalances(ck1, p.dst, dst);
    var ck2 := Delta(ck1, p.dst, dst);
    AddBoth(ck2 + Halves(dst), ck1 + Halves(p.dst), Halves(src));
    AddBoth(ck1 + Halves(src), ck + Halves(p.src), Halves(p.dst));
  }

  lemma AddBoth(a: nat, b: nat, c: nat)
    requires a % ONES == b % ONES
    ensures (a + c) % ONES == (b + c) % ONES
  {
    var d, e := a / ONES, b / ONES;
    var r := a % ONES;
    ModMore(r + c, d);
    ModMore(r + c, e);
    assert a + c == (r + c) + d * ONES && b + c == (r + c) + e * ONES;
  }

  /** The TCP header is at least its fixed part long and lies within the frame. */
  predicate HeaderFits(f: seq<Byte>, p: Packet)
    requires p.l4Off + 13 <= |f|
  {
    var bytes := (f[p.l4Off + 12] as int) / 16 * 4;
    20 <= bytes && p.l4Off + bytes <= |f|
  }

  /** Where the rewriter finds the checksum is where it is. */
  lemma CkOffIs(f: seq<Byte>, p: Packet, n: nat, m: nat)
    requires Laid(f, p, n, m)
    ensures CkOff(f, p) != 0 ==> CkOff(f, p) == p.l4Off + Field(p)
    ensures CkOff(f, p) != 0 <==> p.proto == 17 || (p.proto == 6 && HeaderFits(f, p))
  {
  }

  /** Writing the transport checksum field moves its sum and nothing else. */
  lemma PutL4Ck(f: seq<Byte>, p: Packet, n: nat, m: nat, v: nat)
    requires Laid(f, p, n, m) && v < 65536
    ensures var g := Put16(f, p.l4Off + Field(p), v);
      Laid(g, p, n, m) && L4Ck(g, p) == v && L4Sum(g, p, m) == L4Sum(f, p, m) - L4Ck(f, p) + v
      && SameOutside(f, g, p.l4Off + Field(p), p.l4Off + Field(p) + 2)
      && (IpValid(f, p, n, m) ==> IpValid(g, p, n, m))
  {
    hide Pseudo, Balanced;
    var k := p.l4Off + Field(p);
    SumPut(f, p.l4Off, p.l4Off + m, k, v);
    PseudoApart(f, p, m, k, v);
    SumApart(f, p.ipOff, p.ipOff + n, k, v);
    IpValidIff(f, p, n, m);
    IpValidIff(Put16(f, k, v), p, n, m);
  }

  lemma L4Has(f: seq<Byte>, p: Packet, n: nat, m: nat)
    requires Laid(f, p, n, m) && Agrees(f, p)
    ensures L4Ck(f, p) + (Halves(p.src) + Halves(p.dst)) <= L4Sum(f, p, m)
  {
    hide Halves;
    SumHas(f, p.l4Off, p.l4Off + m, p.l4Off + Field(p));
  }

  /** The rewriter updates the transport checksum when it finds one that is not zero. */
  predicate Updates(f: seq<Byte>, p: Packet, n: nat, m: nat)
    requires Laid(f, p, n, m)
  {
    CkOff(f, p) != 0 && L4Ck(f, p) != 0
  }

  /** Given a valid transport checksum and a moved frame, what fixing it achieves. */
  lemma FixedL4(f: seq<Byte>, g: seq<Byte>, p: Packet, n: nat, m: nat, src: nat, dst: nat)
    requires MovedOk(f, g, p, n, m, src, dst) && Agrees(f, p) && L4Valid(f, p, n, m)
    ensures var h := FixL4(g, p, src, dst);
      Laid(h, p, n, m)
      && (L4Valid(h, p, n, m) <==>
            Updates(f, p, n, m) || Congruent(Halves(p.src) + Halves(p.dst), Halves(src) + Halves(dst)))
      && SameOutside(g, h, p.l4Off + Field(p), p.l4Off + Field(p) + 2)
      && (IpValid(g, p, n, m) ==> IpValid(h, p, n, m))
  {
    hide Halves, Delta, L4Valid, IpValid, L4Sum, MovedOk, Addr, CkOff;
    MovedGives(f, g, p, n, m, src, dst);
    var was, after := Halves(p.src) + Halves(p.dst), Halves(src) + Halves(dst);
    var ck, h := L4Ck(f, p), FixL4(g, p, src, dst);
    L4ValidIff(f, p, n, m);
    MovedL4(f, g, p, n, m, src, dst);
    CkOffIs(g, p, n, m);
    L4Has(f, p, n, m);
    if Updates(f, p, n, m) {
      var ck2 := Delta(Delta(ck, p.src, src), p.dst, dst);
      DeltaTwice(ck, p, src, dst);
      PutL4Ck(g, p, n, m, ck2);
      Exchange(L4Sum(f, p, m), ck + was, ck2 + after);
    } else {
      Exchange(L4Sum(f, p, m), was, after);
    }
    L4ValidIff(h, p, n, m);
  }

  lemma MovedGives(f: seq<Byte>, g: seq<Byte>, p: Packet, n: nat, m: nat, src: nat, dst: nat)
    requires MovedOk(f, g, p, n, m, src, dst) && Agrees(f, p)
    ensures Laid(f, p, n, m) && Laid(g, p, n, m) && p.src < U32 && p.dst < U32
  {
  }

  /** Bytes that a rewrite of the addresses never changes. */
  predicate Untouched(p: Packet, i: nat) {
    !(p.ipOff + 10 <= i < p.ipOff + 20) && !(p.l4Off + Field(p) <= i < p.l4Off + Field(p) + 2)
  }

  /** Whatever the transport checksum was, the header part of the rewrite is right and nothing else changes. */
  lemma SetAddrIp(f: seq<Byte>, p: Packet, n: nat, m: nat, src: nat, dst: nat)
    requires Laid(f, p, n, m) && Agrees(f, p) && src < U32 && dst < U32 && IpValid(f, p, n, m)
    ensures var g := SetAddr(f, p, src, dst);
      Laid(g, p, n, m) && Agrees(g, p.(src := src, dst := dst)) && IpValid(g, p, n, m)
      && forall i :: 0 <= i < |f| && Untouched(p, i) ==> g[i] == f[i]
  {
    hide Halves, IpValid, Moved, CkOff, Delta, L4Sum;
    var g := Moved(f, p, src, dst);
    MovedFrame(f, p, n, m, src, dst);
    CkOffIs(g, p, n, m);
    if CkOff(g, p) != 0 && L4Ck(g, p) != 0 {
      PutL4Ck(g, p, n, m, Delta(Delta(L4Ck(g, p), p.src, src), p.dst, dst));
    }
  }

  /**
   * Rewriting the addresses of a valid frame leaves a valid header with the new addresses, changes nothing else but
   * the two checksums, and leaves a valid transport checksum exactly when the old one was found and not zero, or the
   * change does not show modulo 65535.
   */
  lemma SetAddrKeeps(f: seq<Byte>, p: Packet, n: nat, m: nat, src: nat, dst: nat)
    requires Laid(f, p, n, m) && Agrees(f, p) && src < U32 && dst < U32
    requires IpValid(f, p, n, m) && L4Valid(f, p, n, m)
    ensures var g := SetAddr(f, p, src, dst);
      Laid(g, p, n, m) && Agrees(g, p.(src := src, dst := dst)) && IpValid(g, p, n, m)
      && (L4Valid(g, p, n, m) <==>
            Updates(f, p, n, m) || Congruent(Halves(p.src) + Halves(p.dst), Halves(src) + Halves(dst)))
      && forall i :: 0 <= i < |f| && Untouched(p, i) ==> g[i] == f[i]
  {
    hide Halves, L4Valid, IpValid, Moved, FixL4, Updates, Untouched;
    SetAddrIp(f, p, n, m, src, dst);
    var g := Moved(f, p, src, dst);
    MovedFrame(f, p, n, m, src, dst);
    FixedL4(f, g, p, n, m, src, dst);
    if src == p.src && dst == p.dst { SameAddr(f, p, src, dst); }
  }

  lemma SameAddr(f: seq<Byte>, p: Packet, src: nat, dst: nat)
    requires p.ipOff + 20 <= |f| && p.src == src < U32 && p.dst == dst < U32
    ensures Moved(f, p, src, dst) == f
  {
  }

  // ---- undoing a rewrite -----------------------------------------------------------------------------

  lemma SameWord(f: seq<Byte>, g: seq<Byte>, k: nat)
    requires |f| == |g| && k + 2 <= |f| && Get16(f, k) == Get16(g, k)
    ensures f[k] == g[k] && f[k + 1] == g[k + 1]
  {
  }

  lemma SameAddrWords(f: seq<Byte>, g: seq<Byte>, k: nat)
    requires |f| == |g| && k + 4 <= |f| && Addr(f, k) == Addr(g, k)
    ensures forall i :: k <= i < k + 4 ==> f[i] == g[i]
  {
    assert Get16(f, k) == Get16(g, k);
    SameWord(f, g, k);
    SameWord(f, g, k + 2);
  }

  /** The same frame but for the two checksums. */
  predicate Alike(f: seq<Byte>, g: seq<Byte>, p: Packet, n: nat, m: nat) {
    && |f| == |g| && Laid(f, p, n, m) && Laid(g, p, n, m) && Agrees(f, p) && Agrees(g, p)
    && forall i :: 0 <= i < |f| && Untouched(p, i) ==> g[i] == f[i]
  }

  /** Two frames with the same untouched bytes, addresses and checksums are the same frame. */
  lemma SameFrame(f: seq<Byte>, g: seq<Byte>, p: Packet, n: nat, m: nat)
    requires Alike(f, g, p, n, m)
    requires IpCk(f, p) == IpCk(g, p) && L4Ck(f, p) == L4Ck(g, p)
    ensures f == g
  {
    hide Addr, Get16;
    SameAddrWords(f, g, p.ipOff + 12);
    SameAddrWords(f, g, p.ipOff + 16);
    SameWord(f, g, p.ipOff + 10);
    SameWord(f, g, p.l4Off + Field(p));
    forall i | 0 <= i < |f|
      ensures f[i] == g[i]
    {
      if !Untouched(p, i) && !(p.ipOff + 10 <= i < p.ipOff + 20) {
        assert i == p.l4Off + Field(p) || i == p.l4Off + Field(p) + 1;
      }
    }
  }

  /** A valid checksum is a function of everything it covers. */
  lemma SameIpCk(f: seq<Byte>, g: seq<Byte>, p: Packet, n: nat, m: nat)
    requires Alike(f, g, p, n, m) && IpValid(f, p, n, m) && IpValid(g, p, n, m)
    ensures IpCk(f, p) == IpCk(g, p)
  {
    hide Addr, Complement;
    SameAddrWords(f, g, p.ipOff + 12);
    SameAddrWords(f, g, p.ipOff + 16);
    SumSame(Put16(f, p.ipOff + 10, 0), Put16(g, p.ipOff + 10, 0), p.ipOff, p.ipOff + n);
  }

  lemma SameL4Ck(f: seq<Byte>, g: seq<Byte>, p: Packet, n: nat, m: nat)
    requires Alike(f, g, p, n, m) && L4Valid(f, p, n, m) && L4Valid(g, p, n, m)
    ensures L4Ck(f, p) == L4Ck(g, p)
  {
    hide Addr, Complement, Halves;
    var k := p.l4Off + Field(p);
    SumSame(Put16(f, k, 0), Put16(g, k, 0), p.l4Off, p.l4Off + m);
    PseudoApart(f, p, m, k, 0);
    PseudoApart(g, p, m, k, 0);
  }

  /** Rewriting leaves the transport checksum alone unless it updates it. */
  lemma NoUpdate(f: seq<Byte>, p: Packet, n: nat, m: nat, src: nat, dst: nat)
    requires Laid(f, p, n, m) && Agrees(f, p) && src < U32 && dst < U32
    requires !Updates(f, p, n, m)
    ensures var g := SetAddr(f, p, src, dst); Laid(g, p, n, m) && L4Ck(g, p) == L4Ck(f, p) && CkOff(g, p) == CkOff(f, p)
  {
    hide Moved;
    var g := Moved(f, p, src, dst);
    MovedFrame(f, p, n, m, src, dst);
    MovedL4(f, g, p, n, m, src, dst);
    CkOffIs(g, p, n, m);
  }

  /** Validity does not depend on the addresses of the view, only on those of the frame. */
  lemma SameView(f: seq<Byte>, p: Packet, n: nat, m: nat, q: Packet)
    requires Laid(f, p, n, m) && q == p.(src := q.src, dst := q.dst)
    ensures Laid(f, q, n, m) && CkOff(f, q) == CkOff(f, p) && L4Ck(f, q) == L4Ck(f, p)
    ensures IpValid(f, q, n, m) <==> IpValid(f, p, n, m)
    ensures L4Valid(f, q, n, m) <==> L4Valid(f, p, n, m)
    ensures forall i :: Untouched(q, i) <==> Untouched(p, i)
  {
    hide Sum, Complement, Halves, Get16, Put16;
  }

  lemma CkOffSame(f: seq<Byte>, g: seq<Byte>, p: Packet, n: nat, m: nat)
    requires Laid(f, p, n, m) && |f| == |g| && forall i :: 0 <= i < |f| && Untouched(p, i) ==> g[i] == f[i]
    ensures CkOff(g, p) == CkOff(f, p)
  {
    if p.proto == 6 { assert Untouched(p, p.l4Off + 12); }
  }

  /** The rewrite and the rewrite back, but for the transport checksum. */
  lemma ThereAndBack(f: seq<Byte>, p: Packet, n: nat, m: nat, src: nat, dst: nat)
    requires Laid(f, p, n, m) && Agrees(f, p) && src < U32 && dst < U32 && IpValid(f, p, n, m)
    ensures var g := SetAddr(f, p, src, dst); var q := p.(src := src, dst := dst);
      Laid(g, p, n, m) && Laid(g, q, n, m) && Agrees(g, q) && CkOff(g, q) == CkOff(f, p)
      && var h := SetAddr(g, q, p.src, p.dst);
      Alike(f, h, p, n, m) && IpCk(f, p) == IpCk(h, p)
  {
    hide SetAddr, IpValid, L4Valid, CkOff, Addr, L4Ck, IpCk;
    var g, q := SetAddr(f, p, src, dst), p.(src := src, dst := dst);
    SetAddrIp(f, p, n, m, src, dst);
    SameView(g, p, n, m, q);
    CkOffSame(f, g, p, n, m);
    SetAddrIp(g, q, n, m, p.src, p.dst);
    var h := SetAddr(g, q, p.src, p.dst);
    SameView(h, q, n, m, p);
    SameIpCk(f, h, p, n, m);
  }

  /** An updated transport checksum is twice the incremental update of the old one. */
  lemma UpdatedCk(f: seq<Byte>, p: Packet, n: nat, m: nat, src: nat, dst: nat)
    requires Laid(f, p, n, m) && Agrees(f, p) && src < U32 && dst < U32
    requires Updates(f, p, n, m) && (src != p.src || dst != p.dst)
    ensures var g := SetAddr(f, p, src, dst);
      Laid(g, p, n, m) && L4Ck(g, p) == Delta(Delta(L4Ck(f, p), p.src, src), p.dst, dst)
  {
    hide Moved, Delta, IpValid, L4Sum;
    var g := Moved(f, p, src, dst);
    MovedFrame(f, p, n, m, src, dst);
    MovedL4(f, g, p, n, m, src, dst);
    CkOffIs(g, p, n, m);
    PutL4Ck(g, p, n, m, Delta(Delta(L4Ck(g, p), p.src, src), p.dst, dst));
  }

  /** The new addresses add up to the old ones and the old checksum. */
  predicate Cancels(f: seq<Byte>, p: Packet, src: nat, dst: nat)
    requires p.l4Off + Field(p) + 2 <= |f|
  {
    Congruent(Halves(src) + Halves(dst), L4Ck(f, p) + (Halves(p.src) + Halves(p.dst)))
  }

  lemma ZeroMod(ck: nat, a: nat, b: nat)
    requires ck < ONES && Congruent(ck + a, b)
    ensures ck == 0 <==> Congruent(a, b)
  {
    if Congruent(a, b) {
      var q, r := a / ONES, (ck + a) / ONES;
      assert ck == (r - q) * ONES;
    }
  }

  /** The updated checksum comes out as zero exactly then. */
  lemma ZeroIffCancels(f: seq<Byte>, p: Packet, n: nat, m: nat, src: nat, dst: nat)
    requires Laid(f, p, n, m) && Agrees(f, p) && src < U32 && dst < U32
    requires Updates(f, p, n, m) && L4Valid(f, p, n, m)
    ensures var g := SetAddr(f, p, src, dst); Laid(g, p, n, m) && (L4Ck(g, p) == 0 <==> Cancels(f, p, src, dst))
  {
    hide SetAddr, L4Valid, Delta, Halves, Moved, L4Sum, CkOff;
    L4ValidIff(f, p, n, m);
    var was, after, ck := Halves(p.src) + Halves(p.dst), Halves(src) + Halves(dst), L4Ck(f, p);
    if src == p.src && dst == p.dst {
      NoMove(f, p, src, dst);
      ZeroMod(ck, was, ck + was);
    } else {
      UpdatedCk(f, p, n, m, src, dst);
      DeltaTwice(ck, p, src, dst);
      ZeroMod(L4Ck(SetAddr(f, p, src, dst), p), after, ck + was);
    }
  }

  lemma NoMove(f: seq<Byte>, p: Packet, src: nat, dst: nat)
    requires p.ipOff + 20 <= |f| <= 65535 && p.src == src < U32 && p.dst == dst < U32
    ensures SetAddr(f, p, src, dst) == f
  {
    SameAddr(f, p, src, dst);
  }

  /** Translating back gives the original frame exactly unless the translated transport checksum came out as zero. */
  lemma UndoIffNotZero(f: seq<Byte>, p: Packet, n: nat, m: nat, src: nat, dst: nat)
    requires Laid(f, p, n, m) && Agrees(f, p) && src < U32 && dst < U32
    requires IpValid(f, p, n, m) && L4Valid(f, p, n, m)
    ensures var g := SetAddr(f, p, src, dst);
      Laid(g, p, n, m)
      && (SetAddr(g, p.(src := src, dst := dst), p.src, p.dst) == f <==> !Updates(f, p, n, m) || L4Ck(g, p) != 0)
  {
    hide SetAddr, IpValid, L4Valid, CkOff, Addr, L4Ck, IpCk, Halves;
    ThereAndBack(f, p, n, m, src, dst);
    SetAddrKeeps(f, p, n, m, src, dst);
    var g, q := SetAddr(f, p, src, dst), p.(src := src, dst := dst);
    var h := SetAddr(g, q, p.src, p.dst);
    SameView(g, p, n, m, q);
    if !Updates(g, q, n, m) {
      NoUpdate(g, q, n, m, p.src, p.dst);
      SameView(h, q, n, m, p);
      assert L4Ck(h, p) == L4Ck(g, p);
      if !Updates(f, p, n, m) {
        NoUpdate(f, p, n, m, src, dst);
        SameFrame(f, h, p, n, m);
      }
    } else if Updates(f, p, n, m) {
      SetAddrKeeps(g, q, n, m, p.src, p.dst);
      SameView(h, q, n, m, p);
      SameL4Ck(f, h, p, n, m);
      SameFrame(f, h, p, n, m);
    } else {
      NoUpdate(f, p, n, m, src, dst);
    }
  }

  /** Translating back gives the original frame, byte for byte, if and only if its transport checksum is not updated or
      the new addresses do not add up to the old ones and that checksum modulo 65535. */
  lemma UndoIff(f: seq<Byte>, p: Packet, n: nat, m: nat, src: nat, dst: nat)
    requires Laid(f, p, n, m) && Agrees(f, p) && src < U32 && dst < U32
    requires IpValid(f, p, n, m) && L4Valid(f, p, n, m)
    ensures SetAddr(SetAddr(f, p, src, dst), p.(src := src, dst := dst), p.src, p.dst) == f
      <==> !Updates(f, p, n, m) || !Cancels(f, p, src, dst)
  {
    hide SetAddr, IpValid, L4Valid, Updates, Cancels;
    UndoIffNotZero(f, p, n, m, src, dst);
    if Updates(f, p, n, m) { ZeroIffCancels(f, p, n, m, src, dst); }
  }

  // ---- ports ---------------------------------------------------------------------------------------------

  function PortAt(p: Packet, isSrc: bool): nat {
    p.l4Off + if isSrc then 0 else 2
  }

  /** Port 0 stands for "keep the port". */
  function SetPort(f: seq<Byte>, p: Packet, isSrc: bool, port: nat): (r: seq<Byte>)
    requires p.l4Off <= |f| <= 65535 && port < 65536
    ensures |r| == |f|
  {
    var k := PortAt(p, isSrc);
    if port == 0 || p.l4Off == 0 || k + 2 > |f| || port == Get16(f, k) then f
    else FixPort(Put16(f, k, port), p, Get16(f, k), port)
  }

  function FixPort(f: seq<Byte>, p: Packet, was: nat, port: nat): (r: seq<Byte>)
    requires |f| <= 65535 && was < 65536
    ensures |r| == |f|
  {
    var k := CkOff(f, p);
    if k == 0 || Get16(f, k) == 0 then f else Put16(f, k, Delta(Get16(f, k), was * 65536, port * 65536))
  }

  lemma PortHalves(port: nat)
    requires port < 65536
    ensures port * 65536 < U32 && Halves(port * 65536) == port
  {
  }

  lemma PutPort(f: seq<Byte>, p: Packet, n: nat, m: nat, isSrc: bool, port: nat)
    requires Laid(f, p, n, m) && port < 65536
    ensures var k := PortAt(p, isSrc); var g := Put16(f, k, port);
      Laid(g, p, n, m) && L4Ck(g, p) == L4Ck(f, p) && CkOff(g, p) == CkOff(f, p)
      && L4Sum(g, p, m) == L4Sum(f, p, m) - Get16(f, k) + port
      && (IpValid(f, p, n, m) ==> IpValid(g, p, n, m))
  {
    hide Pseudo, Balanced;
    var k := PortAt(p, isSrc);
    SumPut(f, p.l4Off, p.l4Off + m, k, port);
    PseudoApart(f, p, m, k, port);
    SumApart(f, p.ipOff, p.ipOff + n, k, port);
    IpValidIff(f, p, n, m);
    IpValidIff(Put16(f, k, port), p, n, m);
  }

  lemma PortHas(f: seq<Byte>, p: Packet, n: nat, m: nat, isSrc: bool)
    requires Laid(f, p, n, m)
    ensures L4Ck(f, p) + Get16(f, PortAt(p, isSrc)) <= L4Sum(f, p, m)
  {
    var k := PortAt(p, isSrc);
    SumPut(f, p.l4Off, p.l4Off + m, k, 0);
    SumHas(Put16(f, k, 0), p.l4Off, p.l4Off + m, p.l4Off + Field(p));
  }

  lemma FixedPort(f: seq<Byte>, p: Packet, n: nat, m: nat, isSrc: bool, port: nat)
    requires Laid(f, p, n, m) && L4Valid(f, p, n, m) && port < 65536
    ensures var k := PortAt(p, isSrc); var g := Put16(f, k, port); var h := FixPort(g, p, Get16(f, k), port);
      Laid(h, p, n, m) && (L4Valid(h, p, n, m) <==> Updates(f, p, n, m) || Congruent(Get16(f, k), port))
      && SameOutside(g, h, p.l4Off + Field(p), p.l4Off + Field(p) + 2)
      && (IpValid(f, p, n, m) ==> IpValid(h, p, n, m))
  {
    hide Halves, Delta, L4Valid, IpValid, L4Sum, CkOff;
    var k := PortAt(p, isSrc);
    var was, g, ck := Get16(f, k), Put16(f, k, port), L4Ck(f, p);
    PutPort(f, p, n, m, isSrc, port);
    PortHas(f, p, n, m, isSrc);
    CkOffIs(g, p, n, m);
    L4ValidIff(f, p, n, m);
    PortHalves(was);
    PortHalves(port);
    if Updates(f, p, n, m) {
      var ck1 := Delta(ck, was * 65536, port * 65536);
      DeltaBalances(ck, was * 65536, port * 65536);
      PutL4Ck(g, p, n, m, ck1);
      Exchange(L4Sum(f, p, m), ck + was, ck1 + port);
    } else {
      Exchange(L4Sum(f, p, m), was, port);
    }
    L4ValidIff(FixPort(g, p, was, port), p, n, m);
  }

  /** The port analogue of SetAddrKeeps. */
  lemma SetPortKeeps(f: seq<Byte>, p: Packet, n: nat, m: nat, isSrc: bool, port: nat)
    requires Laid(f, p, n, m) && L4Valid(f, p, n, m) && IpValid(f, p, n, m) && port < 65536
    ensures var k := PortAt(p, isSrc); var g := SetPort(f, p, isSrc, port);
      Laid(g, p, n, m) && IpValid(g, p, n, m) && (port != 0 ==> Get16(g, k) == port)
      && (L4Valid(g, p, n, m) <==> port == 0 || Updates(f, p, n, m) || Congruent(Get16(f, k), port))
      && forall i :: 0 <= i < |f| && Untouched(p, i) && i != k && i != k + 1 ==> g[i] == f[i]
  {
    hide L4Valid, IpValid, FixPort, Updates;
    FixedPort(f, p, n, m, isSrc, port);
  }

  // ---- what does not hold -----------------------------------------------------------------------------------

  lemma {:induction false} SumZeros(f: seq<Byte>, lo: nat, hi: nat)
    requires hi <= |f| && forall i :: lo <= i < hi ==> f[i] == 0
    ensures Sum(f, lo, hi) == 0
    decreases hi - lo
  {
    if lo < hi { SumZeros(f, lo + 2, hi); }
  }

  function BareTcp(off: nat): Packet {
    Packet(0, 0, 6, off, off + 20)
  }

  function BareIp(off: nat): (f: seq<Byte>)
    ensures |f| == off + 40
  {
    Put16(Put16(Zeros(off + 40), off, 0x4500), off + 10, 0xBAFF)
  }

  /** A bare TCP header, after `off` bytes of link header, whose checksum comes out as ck. */
  function Summed(off: nat, ck: nat): (f: seq<Byte>)
    requires ck <= 1
    ensures |f| == off + 40
  {
    Put16(Put16(Put16(BareIp(off), off + 20, ONES - 0x5000 - 26 - ck), off + 32, 0x5000), off + 36, ck)
  }

  lemma BareIpSums(off: nat)
    ensures var f := BareIp(off);
      Sum(f, off, off + 20) == ONES && Sum(f, off + 20, off + 40) == 0 && Get16(f, off + 10) == 0xBAFF
      && f[off] == 0x45 && forall i :: off + 12 <= i < off + 40 ==> f[i] == 0
  {
    var z := Zeros(off + 40);
    var a := Put16(z, off, 0x4500);
    SumZeros(z, off, off + 20);
    SumPut(z, off, off + 20, off, 0x4500);
    SumPut(a, off, off + 20, off + 10, 0xBAFF);
    SumZeros(BareIp(off), off + 20, off + 40);
  }

  lemma SummedSums(off: nat, ck: nat)
    requires ck <= 1
    ensures var f := Summed(off, ck);
      Sum(f, off, off + 20) == ONES && Sum(f, off + 20, off + 40) == ONES - 26
      && Get16(f, off + 10) == 0xBAFF && Get16(f, off + 36) == ck && f[off] == 0x45 && f[off + 32] == 0x50
      && forall i :: off + 12 <= i < off + 20 ==> f[i] == 0
  {
    hide BareIp, Sum;
    BareIpSums(off);
    var b, port := BareIp(off), ONES - 0x5000 - 26 - ck;
    var c := Put16(b, off + 20, port);
    var d := Put16(c, off + 32, 0x5000);
    SumPut(b, off + 20, off + 40, off + 20, port);
    SumApart(b, off, off + 20, off + 20, port);
    SumPut(c, off + 20, off + 40, off + 32, 0x5000);
    SumApart(c, off, off + 20, off + 32, 0x5000);
    SumPut(d, off + 20, off + 40, off + 36, ck);
    SumApart(d, off, off + 20, off + 36, ck);
  }

  lemma SummedIsValid(off: nat, ck: nat)
    requires off <= 1000 && ck <= 1
    ensures var f := Summed(off, ck); var p := BareTcp(off);
      Laid(f, p, 20, 20) && Agrees(f, p) && L4Ck(f, p) == ck && CkOff(f, p) != 0
      && IpValid(f, p, 20, 20) && L4Valid(f, p, 20, 20)
  {
    hide Summed, Sum, IpValid, L4Valid, Addr, Halves, CkOff;
    SummedSums(off, ck);
    var f, p := Summed(off, ck), BareTcp(off);
    NoAddr(f, off + 12);
    NoAddr(f, off + 16);
    HalvesZero();
    CkOffIs(f, p, 20, 20);
    IpValidIff(f, p, 20, 20);
    L4ValidIff(f, p, 20, 20);
  }

  lemma NoAddr(f: seq<Byte>, k: nat)
    requires k + 4 <= |f| && forall i :: k <= i < k + 4 ==> f[i] == 0
    ensures Addr(f, k) == 0
  {
  }

  /** TCP has no "no checksum": leaving a zero alone breaks the segment it belongs to. */
  lemma ZeroTcpChecksumGoesStale(off: nat)
    requires off <= 1000
    ensures var f := Summed(off, 0); var p := BareTcp(off);
      Laid(f, p, 20, 20) && IpValid(f, p, 20, 20) && L4Valid(f, p, 20, 20)
      && Laid(SetAddr(f, p, 1, 0), p, 20, 20) && !L4Valid(SetAddr(f, p, 1, 0), p, 20, 20)
  {
    hide SetAddr, L4Valid, IpValid, Summed, Sum;
    SummedIsValid(off, 0);
    SetAddrKeeps(Summed(off, 0), BareTcp(off), 20, 20, 1, 0);
    assert Halves(0) == 0 && Halves(1) == 1;
  }

  /** A valid segment that translating there and back does not give back. */
  lemma UndoFails(off: nat)
    requires off <= 1000
    ensures var f := Summed(off, 1); var p := BareTcp(off);
      Laid(f, p, 20, 20) && IpValid(f, p, 20, 20) && L4Valid(f, p, 20, 20)
      && SetAddr(SetAddr(f, p, 1, 0), p.(src := 1, dst := 0), 0, 0) != f
  {
    hide SetAddr, L4Valid, IpValid, Summed, Sum, CkOff;
    SummedIsValid(off, 1);
    UndoIff(Summed(off, 1), BareTcp(off), 20, 20, 1, 0);
    assert Halves(0) == 0 && Halves(1) == 1;
  }
}
