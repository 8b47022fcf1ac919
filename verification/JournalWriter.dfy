/** The descriptor and commit blocks of the log, written into one reused buffer in the order the code writes them. */
module JournalWriter {
  import opened Bytes
  import opened JournalFormat

  function Flags(n: nat, k: nat): (f: nat)
    ensures f < U32
  {
    if k + 1 == n then LAST_TAG else 0
  }

  /** Where the k-th tag begins. */
  function TagAt(k: nat): nat {
    12 + 32 * k
  }

  /** The tag before its checksum is known. */
  function Blank(g: Geometry, e: Entry, flags: nat): (r: seq<Byte>)
    requires g.Valid() && e.target < g.fsBlocks && flags < U32
    ensures |r| == 32
  {
    PutBe32(e.target % U32) + PutBe32(flags) + PutBe32(e.target / U32) + PutBe32(0) + g.uuid
  }

  /** Filling in the checksum turns one into the other. */
  lemma BlankFilled(g: Geometry, e: Entry, flags: nat, sequence: nat)
    requires g.Valid() && e.target < g.fsBlocks && flags < U32 && sequence < U32
    ensures Patch(Blank(g, e, flags), 12, PutBe32(g.DataSum(sequence, e.image))) == TagBytes(g, e, flags, sequence)
  {
    hide Geometry.DataSum, PutBe32;
  }

  // ---- a block from its parts --------------------------------------------------------------

  predicate Tagged(g: Geometry, b: seq<Byte>, tx: seq<Entry>, sequence: nat, k: nat)
    requires g.Valid() && k < |tx| && tx[k].target < g.fsBlocks && sequence < U32
  {
    TagAt(k) + 32 <= |b| && b[TagAt(k)..TagAt(k) + 32] == TagBytes(g, tx[k], Flags(|tx|, k), sequence)
  }

  predicate Blanked(g: Geometry, b: seq<Byte>, tx: seq<Entry>, k: nat)
    requires g.Valid() && k < |tx| && tx[k].target < g.fsBlocks
  {
    TagAt(k) + 32 <= |b| && b[TagAt(k)..TagAt(k) + 32] == Blank(g, tx[k], Flags(|tx|, k))
  }

  /** Tags in a row make up the tag area, from the i-th on. */
  lemma {:induction false} AreaOfTags(g: Geometry, b: seq<Byte>, tx: seq<Entry>, sequence: nat, i: nat)
    requires g.Valid() && Loggable(g, tx) && sequence < U32 && i <= |tx| && TagAt(|tx|) <= |b|
    requires forall k :: i <= k < |tx| ==> Tagged(g, b, tx, sequence, k)
    ensures b[TagAt(i)..TagAt(|tx|)] == TagArea(g, tx[i..], sequence)
    decreases |tx| - i
  {
    hide TagBytes;
    if i < |tx| {
      AreaOfTags(g, b, tx, sequence, i + 1);
      assert tx[i..][1..] == tx[i + 1..] && tx[i..][0] == tx[i];
      assert Tagged(g, b, tx, sequence, i);
      assert b[TagAt(i)..TagAt(|tx|)] == b[TagAt(i)..TagAt(i + 1)] + b[TagAt(i + 1)..TagAt(|tx|)];
    }
  }

  predicate ZeroFrom(b: seq<Byte>, off: nat) {
    forall i :: off <= i < |b| ==> b[i] == 0
  }

  lemma BlockOfParts(g: Geometry, b: Block, tx: seq<Entry>, sequence: nat)
    requires g.Valid() && Loggable(g, tx) && sequence < U32 && DescriptorBytes(tx) <= TAIL
    requires b[..12] == Header(DESCRIPTOR, sequence) && ZeroFrom(b, TagAt(|tx|))
    requires forall k :: 0 <= k < |tx| ==> Tagged(g, b, tx, sequence, k)
    ensures b == Header(DESCRIPTOR, sequence) + TagArea(g, tx, sequence) + Zeros(BLOCK - DescriptorBytes(tx))
  {
    hide TagBytes, Header, Tagged;
    var n := TagAt(|tx|);
    AreaOfTags(g, b, tx, sequence, 0);
    assert tx[0..] == tx;
    assert b == b[..12] + b[12..n] + b[n..];
    assert b[n..] == Zeros(BLOCK - n);
  }

  // ---- the buffer --------------------------------------------------------------------------------

  method Put(meta: array<Byte>, off: nat, s: seq<Byte>)
    requires off + |s| <= meta.Length
    modifies meta
    ensures meta[..] == Patch(old(meta[..]), off, s)
  {
    for i := 0 to |s|
      invariant forall j :: 0 <= j < meta.Length ==> meta[j] == if off <= j < off + i then s[j - off] else old(meta[j])
    {
      meta[off + i] := s[i];
    }
  }

  method Clear(meta: array<Byte>)
    modifies meta
    ensures ZeroFrom(meta[..], 0)
  {
    for i := 0 to meta.Length
      invariant forall j :: 0 <= j < i ==> meta[j] == 0
    {
      meta[i] := 0;
    }
  }

  method PutHeader(meta: array<Byte>, kind: nat, sequence: nat)
    requires meta.Length == BLOCK && kind < U32 && sequence < U32
    modifies meta
    ensures meta[..12] == Header(kind, sequence) && ZeroFrom(meta[..], 12)
  {
    hide PutBe32;
    Clear(meta);
    Put(meta, 0, PutBe32(MAGIC));
    Put(meta, 4, PutBe32(kind));
    Put(meta, 8, PutBe32(sequence));
  }

  method PutBlank(meta: array<Byte>, off: nat, g: Geometry, e: Entry, flags: nat)
    requires g.Valid() && e.target < g.fsBlocks && flags < U32 && off + 32 <= meta.Length
    modifies meta
    ensures meta[..] == Patch(old(meta[..]), off, Blank(g, e, flags))
  {
    hide PutBe32, Patch;
    ghost var b, lo, hi := meta[..], PutBe32(e.target % U32), PutBe32(e.target / U32);
    Put(meta, off, PutBe32(e.target % U32));
    Put(meta, off + 4, PutBe32(flags));
    PatchOn(b, off, lo, PutBe32(flags));
    Put(meta, off + 8, PutBe32(e.target / U32));
    PatchOn(b, off, lo + PutBe32(flags), hi);
    Put(meta, off + 12, PutBe32(0));
    PatchOn(b, off, lo + PutBe32(flags) + hi, PutBe32(0));
    Put(meta, off + 16, g.uuid);
    PatchOn(b, off, lo + PutBe32(flags) + hi + PutBe32(0), g.uuid);
  }

  /** Writing on, right behind what was just written, is one longer write. */
  lemma PatchOn(b: seq<Byte>, off: nat, s: seq<Byte>, t: seq<Byte>)
    requires off + |s| + |t| <= |b|
    ensures Patch(Patch(b, off, s), off + |s|, t) == Patch(b, off, s + t)
  {
  }

  /** Adding a tag behind the others leaves them and the header alone. */
  lemma NextBlank(g: Geometry, b: Block, tx: seq<Entry>, sequence: nat, i: nat)
    requires g.Valid() && sequence < U32 && i < |tx| && TagAt(|tx|) <= TAIL && tx[i].target < g.fsBlocks
    requires b[..12] == Header(DESCRIPTOR, sequence) && ZeroFrom(b, TagAt(i))
    requires forall k :: 0 <= k < i ==> tx[k].target < g.fsBlocks && Blanked(g, b, tx, k)
    ensures var c := Patch(b, TagAt(i), Blank(g, tx[i], Flags(|tx|, i)));
      c[..12] == Header(DESCRIPTOR, sequence) && ZeroFrom(c, TagAt(i + 1))
      && forall k :: 0 <= k <= i ==> Blanked(g, c, tx, k)
  {
    hide Blank, Header;
    var c := Patch(b, TagAt(i), Blank(g, tx[i], Flags(|tx|, i)));
    assert c[..12] == b[..12];
    forall k | 0 <= k <= i
      ensures Blanked(g, c, tx, k)
    {
      if k < i {
        assert Blanked(g, b, tx, k);
        assert c[TagAt(k)..TagAt(k) + 32] == b[TagAt(k)..TagAt(k) + 32];
      }
    }
  }

  /** Where the second pass stands: tags before i are complete, the others still blank. */
  ghost predicate Filled(g: Geometry, b: Block, tx: seq<Entry>, sequence: nat, i: nat) {
    && g.Valid() && sequence < U32 && Loggable(g, tx) && i <= |tx| && TagAt(|tx|) <= TAIL
    && b[..12] == Header(DESCRIPTOR, sequence) && ZeroFrom(b, TagAt(|tx|))
    && (forall k :: 0 <= k < i ==> Tagged(g, b, tx, sequence, k))
    && (forall k :: i <= k < |tx| ==> Blanked(g, b, tx, k))
  }

  lemma NextFilled(g: Geometry, b: Block, tx: seq<Entry>, sequence: nat, i: nat)
    requires i < |tx| && Filled(g, b, tx, sequence, i)
    ensures Filled(g, Patch(b, TagAt(i) + 12, PutBe32(g.DataSum(sequence, tx[i].image))), tx, sequence, i + 1)
  {
    hide Blank, Header, TagBytes, Geometry.DataSum, PutBe32;
    var sum := PutBe32(g.DataSum(sequence, tx[i].image));
    var c := Patch(b, TagAt(i) + 12, sum);
    assert c[..12] == b[..12];
    forall k | 0 <= k < |tx| && k != i
      ensures c[TagAt(k)..TagAt(k) + 32] == b[TagAt(k)..TagAt(k) + 32]
    {
    }
    assert Blanked(g, b, tx, i);
    BlankFilled(g, tx[i], Flags(|tx|, i), sequence);
    assert c[TagAt(i)..TagAt(i) + 32] == Patch(b[TagAt(i)..TagAt(i) + 32], 12, sum);
    forall k | 0 <= k < i
      ensures Tagged(g, c, tx, sequence, k)
    {
      assert Tagged(g, b, tx, sequence, k);
    }
    forall k | i + 1 <= k < |tx|
      ensures Blanked(g, c, tx, k)
    {
      assert Blanked(g, b, tx, k);
    }
  }

  method Seal(meta: array<Byte>, g: Geometry, off: nat)
    requires meta.Length == BLOCK && off + 4 <= BLOCK
    modifies meta
    ensures meta[..] == Sealed(g, old(meta[..]), off)
  {
    hide PutBe32, Geometry.Sum;
    Put(meta, off, PutBe32(0));
    var sum := g.Sum(meta[..]);
    Put(meta, off, PutBe32(sum));
  }

  /**
   * Two passes over one buffer, the checksums last: fails exactly when a block is outside the filesystem, and otherwise
   * leaves the block that recovery reads the same transaction back from.
   */
  method WriteDescriptor(meta: array<Byte>, g: Geometry, tx: seq<Entry>, sequence: nat) returns (ok: bool)
    requires g.Valid() && sequence < U32 && meta.Length == BLOCK && DescriptorBytes(tx) <= TAIL
    modifies meta
    ensures ok <==> Loggable(g, tx)
    ensures ok ==> meta[..] == DescriptorBlock(g, tx, sequence)
  {
    hide Blank, Header, TagBytes, Geometry.DataSum, Geometry.Sum, PutBe32, TagArea, Blanked, Tagged;
    PutHeader(meta, DESCRIPTOR, sequence);
    assert meta[..][..12] == meta[..12];
    for i := 0 to |tx|
      invariant meta[..][..12] == Header(DESCRIPTOR, sequence) && ZeroFrom(meta[..], TagAt(i))
      invariant forall k :: 0 <= k < i ==> tx[k].target < g.fsBlocks && Blanked(g, meta[..], tx, k)
    {
      if tx[i].target >= g.fsBlocks {
        return false;
      }
      NextBlank(g, meta[..], tx, sequence, i);
      PutBlank(meta, TagAt(i), g, tx[i], Flags(|tx|, i));
    }
    for i := 0 to |tx|
      invariant Filled(g, meta[..], tx, sequence, i)
    {
      NextFilled(g, meta[..], tx, sequence, i);
      Put(meta, TagAt(i) + 12, PutBe32(g.DataSum(sequence, tx[i].image)));
    }
    BlockOfParts(g, meta[..], tx, sequence);
    Seal(meta, g, TAIL);
    ok := true;
  }

  method WriteCommit(meta: array<Byte>, g: Geometry, sequence: nat)
    requires sequence < U32 && meta.Length == BLOCK
    modifies meta
    ensures meta[..] == CommitBlock(g, sequence)
  {
    hide Header, Geometry.Sum, PutBe32;
    PutHeader(meta, COMMIT, sequence);
    assert meta[..] == Header(COMMIT, sequence) + Zeros(BLOCK - 12);
    Seal(meta, g, 16);
  }
}
