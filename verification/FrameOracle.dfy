/** The frame builder, the checksum oracle and the rewriter as they work on a buffer in place. */
module FrameOracle {
  import opened Bytes
  import opened InternetChecksum
  import opened NatRewrite

  // ---- computing the checksums of a frame -----------------------------------------------------

  function IpChecksummed(f: seq<Byte>, p: Packet, n: nat): (r: seq<Byte>)
    requires 20 <= n && p.ipOff + n <= |f|
    ensures |r| == |f|
  {
    var z := Put16(f, p.ipOff + 10, 0);
    Put16(z, p.ipOff + 10, Complement(Sum(z, p.ipOff, p.ipOff + n)))
  }

  function L4Checksummed(f: seq<Byte>, p: Packet, m: nat): (r: seq<Byte>)
    requires p.ipOff + 20 <= |f| && p.l4Off + m <= |f| && Field(p) + 2 <= m
    ensures |r| == |f|
  {
    var z := Put16(f, p.l4Off + Field(p), 0);
    Put16(z, p.l4Off + Field(p), Complement(L4Sum(z, p, m)))
  }

  lemma PutTwice(f: seq<Byte>, k: nat, v: nat, w: nat)
    requires k + 2 <= |f| && v < 65536 && w < 65536
    ensures Put16(Put16(f, k, v), k, w) == Put16(f, k, w)
  {
  }

  lemma IpChecksummedIsValid(f: seq<Byte>, p: Packet, n: nat, m: nat)
    requires Laid(f, p, n, m)
    ensures var g := IpChecksummed(f, p, n); Laid(g, p, n, m) && IpValid(g, p, n, m) && (Agrees(f, p) ==> Agrees(g, p))
  {
    hide Complement, Sum;
    var z := Put16(f, p.ipOff + 10, 0);
    PutTwice(z, p.ipOff + 10, Complement(Sum(z, p.ipOff, p.ipOff + n)), 0);
    PutTwice(f, p.ipOff + 10, 0, 0);
  }

  lemma L4ChecksummedIsValid(f: seq<Byte>, p: Packet, n: nat, m: nat)
    requires Laid(f, p, n, m) && IpValid(f, p, n, m)
    ensures var g := L4Checksummed(f, p, m); Laid(g, p, n, m) && IpValid(g, p, n, m) && L4Valid(g, p, n, m)
  {
    hide Complement, L4Sum, IpValid;
    var a := p.l4Off + Field(p);
    var z := Put16(f, a, 0);
    PutL4Ck(f, p, n, m, 0);
    PutL4Ck(z, p, n, m, Complement(L4Sum(z, p, m)));
    PutTwice(z, a, Complement(L4Sum(z, p, m)), 0);
    PutTwice(f, a, 0, 0);
  }

  /** Whatever a frame holds, checksumming it makes both checks pass. */
  lemma ChecksummedIsValid(f: seq<Byte>, p: Packet, n: nat, m: nat)
    requires Laid(f, p, n, m)
    ensures var g := L4Checksummed(IpChecksummed(f, p, n), p, m);
      Laid(g, p, n, m) && IpValid(g, p, n, m) && L4Valid(g, p, n, m)
  {
    hide IpChecksummed, L4Checksummed, IpValid, L4Valid, Agrees;
    IpChecksummedIsValid(f, p, n, m);
    L4ChecksummedIsValid(IpChecksummed(f, p, n), p, n, m);
  }

  /** A frame already valid is left as it is: the check compares nothing else. */
  lemma ValidIffFixed(f: seq<Byte>, p: Packet, n: nat, m: nat)
    requires Laid(f, p, n, m)
    ensures IpValid(f, p, n, m) <==> IpCk(IpChecksummed(f, p, n), p) == IpCk(f, p)
    ensures L4Valid(f, p, n, m) <==> L4Ck(L4Checksummed(f, p, m), p) == L4Ck(f, p)
  {
    hide Complement, L4Sum;
  }

  // ---- stale checksums --------------------------------------------------------------------------

  function Readdressed(f: seq<Byte>, p: Packet, src: nat, dst: nat): (r: seq<Byte>)
    requires p.ipOff + 20 <= |f| && src < U32 && dst < U32
    ensures |r| == |f|
  {
    PutAddr(PutAddr(f, p.ipOff + 12, src), p.ipOff + 16, dst)
  }

  lemma ReaddressedFrame(f: seq<Byte>, p: Packet, n: nat, m: nat, src: nat, dst: nat)
    requires Laid(f, p, n, m) && src < U32 && dst < U32
    ensures MovedOk(f, Readdressed(f, p, src, dst), p, n, m, src, dst)
    ensures IpCk(Readdressed(f, p, src, dst), p) == IpCk(f, p)
  {
    var g := PutAddr(f, p.ipOff + 12, src);
    PutAddrReads(f, p.ipOff + 12, src);
    PutAddrReads(g, p.ipOff + 16, dst);
  }

  lemma ReaddressedSum(f: seq<Byte>, p: Packet, n: nat, m: nat, src: nat, dst: nat)
    requires Laid(f, p, n, m) && Agrees(f, p) && src < U32 && dst < U32
    ensures IpSum(Readdressed(f, p, src, dst), p, n)
      == IpSum(f, p, n) - (Halves(p.src) + Halves(p.dst)) + (Halves(src) + Halves(dst))
    ensures Halves(p.src) + Halves(p.dst) <= IpSum(f, p, n)
  {
    hide Halves, Sum;
    var lo, hi := p.ipOff, p.ipOff + n;
    var g := PutAddr(f, lo + 12, src);
    PutAddrSum(f, lo, hi, lo + 12, src);
    PutAddrSum(g, lo, hi, lo + 16, dst);
    assert Addr(g, lo + 16) == Addr(f, lo + 16);
    var z := PutAddr(f, lo + 12, 0);
    PutAddrSum(f, lo, hi, lo + 12, 0);
    PutAddrSum(z, lo, hi, lo + 16, 0);
    assert Addr(z, lo + 16) == Addr(f, lo + 16);
    assert Halves(0) == 0 by { HalvesZero(); }
  }

  /** Changing the addresses and not the checksums goes unnoticed exactly when the totals are congruent modulo 65535. */
  lemma StaleIff(f: seq<Byte>, p: Packet, n: nat, m: nat, src: nat, dst: nat)
    requires Laid(f, p, n, m) && Agrees(f, p) && src < U32 && dst < U32
    requires IpValid(f, p, n, m) && L4Valid(f, p, n, m)
    ensures var g := Readdressed(f, p, src, dst);
      Laid(g, p, n, m)
      && (IpValid(g, p, n, m) <==> Congruent(Halves(p.src) + Halves(p.dst), Halves(src) + Halves(dst)))
      && (L4Valid(g, p, n, m) <==> Congruent(Halves(p.src) + Halves(p.dst), Halves(src) + Halves(dst)))
  {
    hide Halves, IpSum, L4Sum, IpValid, L4Valid, Readdressed, Addr;
    var g := Readdressed(f, p, src, dst);
    var was, after := Halves(p.src) + Halves(p.dst), Halves(src) + Halves(dst);
    ReaddressedFrame(f, p, n, m, src, dst);
    ReaddressedSum(f, p, n, m, src, dst);
    MovedL4(f, g, p, n, m, src, dst);
    L4Has(f, p, n, m);
    IpValidIff(f, p, n, m);
    L4ValidIff(f, p, n, m);
    IpValidIff(g, p, n, m);
    L4ValidIff(g, p, n, m);
    Exchange(IpSum(f, p, n), was, after);
    Exchange(L4Sum(f, p, m), was, after);
  }

  // ---- in the buffer ------------------------------------------------------------------------------

  method Write16(frame: array<Byte>, k: nat, v: nat)
    requires k + 2 <= frame.Length && v < 65536
    modifies frame
    ensures frame[..] == Put16(old(frame[..]), k, v)
  {
    frame[k] := v / 256;
    frame[k + 1] := v % 256;
  }

  method WriteAddr(frame: array<Byte>, k: nat, a: nat)
    requires k + 4 <= frame.Length && a < U32
    modifies frame
    ensures frame[..] == PutAddr(old(frame[..]), k, a)
  {
    hide Put16;
    Write16(frame, k, a / 65536);
    Write16(frame, k + 2, a % 65536);
  }

  method RewriteOne(frame: array<Byte>, p: Packet, at: nat, was: nat, after: nat)
    requires p.ipOff + 20 <= frame.Length && (at == 12 || at == 16) && was < U32 && after < U32
    modifies frame
    ensures frame[..] == MoveAddr(old(frame[..]), p, at, was, after)
  {
    hide Delta, PutAddr, Put16;
    if after != was {
      WriteAddr(frame, p.ipOff + at, after);
      var sum := CsumDelta(Get16(frame[..], p.ipOff + 10), was, after);
      Write16(frame, p.ipOff + 10, sum);
    }
  }

  /** netfilter_set_addr. */
  method RewriteAddr(frame: array<Byte>, p: Packet, src: nat, dst: nat)
    requires p.ipOff + 20 <= frame.Length <= 65535 && p.src < U32 && p.dst < U32 && src < U32 && dst < U32
    modifies frame
    ensures frame[..] == SetAddr(old(frame[..]), p, src, dst)
  {
    hide Delta, MoveAddr, Put16, CkOff;
    RewriteOne(frame, p, 12, p.src, src);
    RewriteOne(frame, p, 16, p.dst, dst);
    if src != p.src || dst != p.dst {
      FixTransport(frame, p, src, dst);
    }
  }

  method FixTransport(frame: array<Byte>, p: Packet, src: nat, dst: nat)
    requires frame.Length <= 65535 && p.src < U32 && p.dst < U32 && src < U32 && dst < U32
    modifies frame
    ensures frame[..] == FixL4(old(frame[..]), p, src, dst)
  {
    hide Delta, Put16;
    var k := CkOff(frame[..], p);
    if k == 0 {
      return;
    }
    var ck := Get16(frame[..], k);
    if ck == 0 {
      return;
    }
    var sum := CsumDelta(ck, p.src, src);
    sum := CsumDelta(sum, p.dst, dst);
    Write16(frame, k, sum);
  }

  /** netfilter_set_port. */
  method RewritePort(frame: array<Byte>, p: Packet, isSrc: bool, port: nat)
    requires p.l4Off <= frame.Length <= 65535 && port < 65536
    modifies frame
    ensures frame[..] == SetPort(old(frame[..]), p, isSrc, port)
  {
    hide Delta, Put16;
    if port == 0 || p.l4Off == 0 {
      return;
    }
    var at := PortAt(p, isSrc);
    if at + 2 > frame.Length {
      return;
    }
    var was := Get16(frame[..], at);
    if port == was {
      return;
    }
    Write16(frame, at, port);
    var k := CkOff(frame[..], p);
    if k == 0 {
      return;
    }
    var ck := Get16(frame[..], k);
    if ck == 0 {
      return;
    }
    var sum := CsumDelta(ck, was * 65536, port * 65536);
    Write16(frame, k, sum);
  }

  /** The words of a part of a buffer are the words of that part. */
  lemma {:induction false} SumSlice(f: seq<Byte>, lo: nat, hi: nat, i: nat)
    requires lo + i <= |f| && lo <= hi <= |f|
    ensures Sum(f[lo..hi], i, hi - lo) == Sum(f, lo + i, hi)
    decreases hi - lo - i
  {
    if i < hi - lo && i + 2 <= hi - lo { SumSlice(f, lo, hi, i + 2); }
  }

  lemma CanonAdd(a: nat, b: nat)
    ensures Canon(a + Canon(b)) == Canon(a + b)
  {
    CanonMod(b);
    AddBoth(Canon(b), b, a);
    CanonMod(a + b);
    CanonOnly(a + Canon(b), Canon(a + b));
  }

  method IpChecksum(frame: array<Byte>, p: Packet, n: nat)
    requires 20 <= n && p.ipOff + n <= frame.Length <= 65535
    modifies frame
    ensures frame[..] == IpChecksummed(old(frame[..]), p, n)
  {
    hide Put16, Complement, Sum;
    Write16(frame, p.ipOff + 10, 0);
    SumSlice(frame[..], p.ipOff, p.ipOff + n, 0);
    assert frame[..][p.ipOff..p.ipOff + n] == frame[p.ipOff..p.ipOff + n];
    var sum := FullSum(frame[p.ipOff..p.ipOff + n], 0);
    Write16(frame, p.ipOff + 10, sum);
  }

  const IP_OFF := 14

  /** The oracle takes the addresses from behind an Ethernet header, wherever the view says the IP header is. */
  function Fixed(p: Packet): Packet {
    p.(ipOff := IP_OFF)
  }

  method L4Checksum(frame: array<Byte>, p: Packet, m: nat)
    requires IP_OFF + 20 <= p.l4Off && p.l4Off + m <= frame.Length <= 65535 && Field(p) + 2 <= m
    modifies frame
    ensures frame[..] == L4Checksummed(old(frame[..]), Fixed(p), m)
  {
    hide Put16, Sum, Canon;
    var seed := Pseudo(frame[..], Fixed(p), m);
    var k := p.l4Off + Field(p);
    PseudoApart(frame[..], Fixed(p), m, k, 0);
    var folded := Fold(seed);
    Write16(frame, k, 0);
    SumSlice(frame[..], p.l4Off, p.l4Off + m, 0);
    assert frame[..][p.l4Off..p.l4Off + m] == frame[p.l4Off..p.l4Off + m];
    CanonAdd(Sum(frame[..], p.l4Off, p.l4Off + m), seed);
    var sum := FullSum(frame[p.l4Off..p.l4Off + m], folded);
    Write16(frame, k, sum);
  }

  function L4Len(p: Packet): nat {
    if p.proto == 17 then 8 else 20
  }

  /** The stored transport checksum is the one the oracle computes. */
  predicate L4Agrees(f: seq<Byte>, p: Packet, m: nat)
    requires IP_OFF + 20 <= |f| && p.l4Off + m <= |f| && Field(p) + 2 <= m
  {
    L4Ck(f, p) == L4Ck(L4Checksummed(f, Fixed(p), m), p)
  }

  /** For a frame behind an Ethernet header that is validity. */
  lemma AgreesIffValid(f: seq<Byte>, p: Packet, n: nat, m: nat)
    requires Laid(f, p, n, m) && p.ipOff == IP_OFF
    ensures L4Agrees(f, p, m) <==> L4Valid(f, p, n, m)
  {
    hide L4Valid, L4Checksummed;
    assert Fixed(p) == p;
    ValidIffFixed(f, p, n, m);
  }

  /** The oracle: recomputes both checksums on a copy and compares. */
  method ChecksumsValid(frame: array<Byte>, p: Packet) returns (ok: bool)
    requires frame.Length <= 128 ==> Laid(frame[..], p, 20, L4Len(p)) && IP_OFF + 20 <= p.l4Off
    ensures ok <==> frame.Length <= 128 && IpValid(frame[..], p, 20, L4Len(p)) && L4Agrees(frame[..], p, L4Len(p))
    ensures frame.Length <= 128 && p.ipOff == IP_OFF ==>
      (ok <==> IpValid(frame[..], p, 20, L4Len(p)) && L4Valid(frame[..], p, 20, L4Len(p)))
  {
    hide IpValid, L4Valid, IpChecksummed, L4Checksummed;
    if frame.Length > 128 {
      return false;
    }
    var m := L4Len(p);
    ghost var f := frame[..];
    ValidIffFixed(f, p, 20, m);
    if p.ipOff == IP_OFF { AgreesIffValid(f, p, 20, m); }
    var tmp := new Byte[frame.Length](i requires 0 <= i < frame.Length reads frame => frame[i]);
    assert tmp[..] == f;
    var wantIp := IpCk(tmp[..], p);
    IpChecksum(tmp, p, 20);
    if wantIp != IpCk(tmp[..], p) {
      return false;
    }
    IpFixedSame(f, p, 20, m);
    var wantL4 := L4Ck(tmp[..], p);
    L4Checksum(tmp, p, m);
    ok := wantL4 == L4Ck(tmp[..], p);
  }

  /** When the header checksum is right, recomputing it changes nothing. */
  lemma IpFixedSame(f: seq<Byte>, p: Packet, n: nat, m: nat)
    requires Laid(f, p, n, m) && IpCk(IpChecksummed(f, p, n), p) == IpCk(f, p)
    ensures IpChecksummed(f, p, n) == f
  {
    hide Complement, Sum;
    SameWord(f, IpChecksummed(f, p, n), p.ipOff + 10);
  }

  /** Header bytes decide the header check and the addresses. */
  lemma HeaderSame(f: seq<Byte>, g: seq<Byte>, p: Packet, n: nat, m: nat)
    requires Laid(f, p, n, m) && |g| == |f| && forall i :: p.ipOff <= i < p.ipOff + n ==> g[i] == f[i]
    ensures Laid(g, p, n, m) && (IpValid(g, p, n, m) <==> IpValid(f, p, n, m)) && (Agrees(g, p) <==> Agrees(f, p))
  {
    hide Complement;
    SumSame(Put16(f, p.ipOff + 10, 0), Put16(g, p.ipOff + 10, 0), p.ipOff, p.ipOff + n);
  }

  method BuildIp(frame: array<Byte>, p: Packet)
    requires p.ipOff == 14 && p.l4Off == 34 && frame.Length == 34 + L4Len(p)
    requires (p.proto == 6 || p.proto == 17) && p.src < U32 && p.dst < U32
    modifies frame
    ensures Laid(frame[..], p, 20, L4Len(p)) && Agrees(frame[..], p) && IpValid(frame[..], p, 20, L4Len(p))
  {
    hide Put16, IpValid, IpChecksummed;
    frame[14] := 0x45;
    Write16(frame, 16, frame.Length - 14);
    frame[22] := 64;
    frame[23] := p.proto;
    PutAddrReads(frame[..], 26, p.src);
    WriteAddr(frame, 26, p.src);
    PutAddrReads(frame[..], 30, p.dst);
    WriteAddr(frame, 30, p.dst);
    IpChecksummedIsValid(frame[..], p, 20, L4Len(p));
    IpChecksum(frame, p, 20);
  }

  /** An Ethernet, IPv4 and TCP or UDP header with both checksums filled in. */
  method BuildFrame(proto: nat, src: nat, dst: nat, sport: nat, dport: nat) returns (frame: array<Byte>, p: Packet)
    requires (proto == 6 || proto == 17) && src < U32 && dst < U32 && sport < 65536 && dport < 65536
    ensures p == Packet(src, dst, proto, 14, 34) && fresh(frame)
    ensures frame.Length == 34 + L4Len(p) && Laid(frame[..], p, 20, L4Len(p)) && Agrees(frame[..], p)
    ensures Get16(frame[..], 34) == sport && Get16(frame[..], 36) == dport
    ensures IpValid(frame[..], p, 20, L4Len(p)) && L4Valid(frame[..], p, 20, L4Len(p))
  {
    hide IpValid, L4Valid, Agrees, L4Checksummed, PutAddr;
    p := Packet(src, dst, proto, 14, 34);
    frame := new Byte[34 + L4Len(p)](_ => 0);
    frame[12] := 0x08;
    BuildIp(frame, p);
    ghost var f := frame[..];
    Write16(frame, 34, sport);
    Write16(frame, 36, dport);
    if proto == 17 {
      Write16(frame, 38, 0);
    } else {
      frame[46] := 0x50;
      frame[47] := 0x02;
    }
    HeaderSame(f, frame[..], p, 20, L4Len(p));
    L4ChecksummedIsValid(frame[..], p, 20, L4Len(p));
    L4ChecksummedSame(frame[..], p, 20, L4Len(p));
    assert Fixed(p) == p;
    L4Checksum(frame, p, L4Len(p));
  }

  lemma L4ChecksummedSame(f: seq<Byte>, p: Packet, n: nat, m: nat)
    requires Laid(f, p, n, m)
    ensures var g := L4Checksummed(f, p, m);
      SameOutside(f, g, p.l4Off + Field(p), p.l4Off + Field(p) + 2) && (Agrees(f, p) ==> Agrees(g, p))
  {
    hide L4Sum, Complement;
  }
}
