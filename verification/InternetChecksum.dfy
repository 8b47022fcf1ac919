/** The one's-complement checksum of RFC 1071: summing, folding, checking, and updating it for one changed word. */
module InternetChecksum {
  import opened Bytes

  const ONES := 65535

  function Get16(f: seq<Byte>, k: nat): (v: nat)
    requires k + 2 <= |f|
    ensures v < 65536
  {
    (f[k] as int) * 256 + f[k + 1] as int
  }

  function Put16(f: seq<Byte>, k: nat, v: nat): (r: seq<Byte>)
    requires k + 2 <= |f| && v < 65536
    ensures |r| == |f| && Get16(r, k) == v
    ensures forall i :: 0 <= i < |f| && i != k && i != k + 1 ==> r[i] == f[i]
  {
    f[k := v / 256][k + 1 := v % 256]
  }

  /** A last odd byte counts as the high half of a word. */
  function Word(f: seq<Byte>, k: nat, hi: nat): (v: nat)
    requires k < hi <= |f|
    ensures v < 65536
  {
    if k + 1 < hi then Get16(f, k) else (f[k] as int) * 256
  }

  /** The plain sum of the words of f[k..hi]. */
  function Sum(f: seq<Byte>, k: nat, hi: nat): nat
    requires hi <= |f|
    decreases hi - k
  {
    if k >= hi then 0 else Word(f, k, hi) + Sum(f, k + 2, hi)
  }

  // ---- folding --------------------------------------------------------------------------------

  function FoldOnce(n: nat): nat {
    n % 65536 + n / 65536
  }

  /** The only number of the same class below 65536 that is zero exactly for zero. */
  function Canon(n: nat): (r: nat)
    ensures r <= ONES && (r == 0 <==> n == 0)
  {
    if n == 0 then 0 else (n - 1) % ONES + 1
  }

  lemma CanonMod(n: nat)
    ensures Canon(n) % ONES == n % ONES
  {
  }

  lemma CanonOnly(n: nat, r: nat)
    requires r <= ONES && (r == 0 <==> n == 0) && r % ONES == n % ONES
    ensures r == Canon(n)
  {
    CanonMod(n);
  }

  /** Folding once keeps the class and the zero, and makes anything that does not fit smaller. */
  lemma FoldOnceKeeps(n: nat)
    ensures FoldOnce(n) % ONES == n % ONES && (FoldOnce(n) == 0 <==> n == 0)
    ensures n >= 65536 ==> FoldOnce(n) < n
  {
    var q := n / 65536;
    assert n == FoldOnce(n) + q * ONES;
    ModMore(FoldOnce(n), q);
  }

  lemma ModMore(a: nat, q: nat)
    ensures (a + q * ONES) % ONES == a % ONES
  {
    if q != 0 { ModMore(a, q - 1); }
  }

  method Fold(seed: nat) returns (sum: nat)
    ensures sum == Canon(seed)
  {
    sum := seed;
    while sum / 65536 != 0
      invariant sum % ONES == seed % ONES && (sum == 0 <==> seed == 0)
      decreases sum
    {
      FoldOnceKeeps(sum);
      sum := sum % 65536 + sum / 65536;
    }
    CanonOnly(seed, sum);
  }

  // ---- the checksum -----------------------------------------------------------------------------

  /** The complement of the folded sum. */
  function Complement(total: nat): (r: nat)
    ensures r < 65536
  {
    ONES - Canon(total)
  }

  lemma SumBound(f: seq<Byte>, k: nat, hi: nat)
    requires hi <= |f|
    ensures k <= hi ==> Sum(f, k, hi) <= (hi - k + 1) / 2 * 65535
    ensures k > hi ==> Sum(f, k, hi) == 0
    decreases hi - k
  {
    if k < hi { SumBound(f, k + 2, hi); }
  }

  /** Sums are kept in 32 bits. */
  function Wrap(n: nat): nat {
    n % 0x1_0000_0000
  }

  lemma NoWrap(n: nat)
    requires n < 0x1_0000_0000
    ensures Wrap(n) == n
  {
  }

  /** No sum overflows on anything as long as an IPv4 packet. */
  method FullSum(data: seq<Byte>, seed: nat) returns (r: nat)
    requires |data| <= 65535 && seed < 65536
    ensures r == Complement(Sum(data, 0, |data|) + seed)
  {
    hide Wrap, Canon;
    var sum: nat, i: nat := seed, 0;
    ghost var total := seed + Sum(data, 0, |data|);
    SumBound(data, 0, |data|);
    while i + 1 < |data|
      invariant i % 2 == 0 && i <= |data|
      invariant sum + Sum(data, i, |data|) == total < 0x1_0000_0000
    {
      var word := Get16(data, i);
      NoWrap(sum + word);
      sum := Wrap(sum + word);
      i := i + 2;
    }
    if i < |data| {
      NoWrap(sum + (data[i] as int) * 256);
      sum := Wrap(sum + (data[i] as int) * 256);
    }
    sum := Fold(sum);
    r := ONES - sum;
  }

  /** A stored checksum is the recomputed one exactly when it is not all ones and everything sums to a multiple of
      65535. */
  lemma StoredIff(ck: nat, rest: nat)
    requires ck < 65536 && rest > 0
    ensures ck == Complement(rest) <==> ck < ONES && (ck + rest) % ONES == 0
  {
    var q := (rest - 1) / ONES;
    var c := Canon(rest);
    assert rest == q * ONES + c;
    assert ck + rest == (ck + c) + q * ONES;
    ModMore(ck + c, q);
    if (ck + c) % ONES == 0 && ck < ONES {
      assert ck + c == ONES;
    }
  }

  // ---- one changed field ---------------------------------------------------------------------------

  /** Writing an aligned word inside the range moves the sum by the difference. */
  lemma {:induction false} SumPut(f: seq<Byte>, lo: nat, hi: nat, k: nat, v: nat)
    requires lo <= k && k + 2 <= hi <= |f| && (k - lo) % 2 == 0 && v < 65536
    ensures Sum(Put16(f, k, v), lo, hi) == Sum(f, lo, hi) - Get16(f, k) + v
    decreases hi - lo
  {
    if lo == k {
      SumApart(f, lo + 2, hi, k, v);
    } else {
      SumPut(f, lo + 2, hi, k, v);
    }
  }

  /** Writing outside the range does not move it. */
  lemma {:induction false} SumApart(f: seq<Byte>, lo: nat, hi: nat, k: nat, v: nat)
    requires k + 2 <= |f| && hi <= |f| && v < 65536 && (k + 2 <= lo || hi <= k)
    ensures Sum(Put16(f, k, v), lo, hi) == Sum(f, lo, hi)
    decreases hi - lo
  {
    if lo < hi { SumApart(f, lo + 2, hi, k, v); }
  }

  /** The sum is at least any of its aligned words. */
  lemma {:induction false} SumHas(f: seq<Byte>, lo: nat, hi: nat, k: nat)
    requires lo <= k && k + 2 <= hi <= |f| && (k - lo) % 2 == 0
    ensures Get16(f, k) <= Sum(f, lo, hi)
    decreases hi - lo
  {
    if lo < k { SumHas(f, lo + 2, hi, k); }
  }

  /** The two halves of a 32-bit word, as the checksum sees them. */
  function Halves(w: nat): nat {
    w / 65536 + w % 65536
  }

  function DeltaSum(ck: nat, was: nat, after: nat): nat
    requires ck < 65536 && was < 0x1_0000_0000
  {
    (ONES - ck) + (ONES - was % 65536) + (ONES - was / 65536) + Halves(after)
  }

  /** Equation 3 of RFC 1624, for a 32-bit word. */
  function Delta(ck: nat, was: nat, after: nat): (r: nat)
    requires ck < 65536 && was < 0x1_0000_0000
    ensures r < 65536
  {
    Complement(DeltaSum(ck, was, after))
  }

  method CsumDelta(ck: nat, was: nat, after: nat) returns (r: nat)
    requires ck < 65536 && was < 0x1_0000_0000 && after < 0x1_0000_0000
    ensures r == Delta(ck, was, after)
  {
    var sum := ONES - ck;
    sum := sum + (ONES - was % 65536) + (ONES - was / 65536);
    sum := sum + after % 65536 + after / 65536;
    sum := Fold(sum);
    r := ONES - sum;
  }

  /** The updated checksum balances the change, and is again not all ones. */
  lemma DeltaBalances(ck: nat, was: nat, after: nat)
    requires ck < ONES && was < 0x1_0000_0000
    ensures Delta(ck, was, after) < ONES
    ensures (Delta(ck, was, after) + Halves(after)) % ONES == (ck + Halves(was)) % ONES
  {
    var s := DeltaSum(ck, was, after);
    var q := (s - 1) / ONES;
    var c := Canon(s);
    assert s == q * ONES + c;
    // (ONES - c) + new == ONES - s + q * ONES + new == ck + was - 2 * ONES + q * ONES
    assert ONES - c + Halves(after) + 2 * ONES == ck + Halves(was) + q * ONES;
    ModMore(ONES - c + Halves(after), 2);
    ModMore(ck + Halves(was), q);
  }
}
