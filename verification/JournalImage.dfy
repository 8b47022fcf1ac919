/** Turning on journal checksums in a finished image: patch the journal superblock in place. */
module JournalImage {
  import opened Bytes
  import Crc32c
  import Extents
  import JournalFormat
  import JournalSuper

  const SUPERBLOCK_V2: nat := 4
  const INCOMPAT: nat := 40
  const CHECKSUM_TYPE: nat := 80
  const CHECKSUM: nat := 252
  const CHECKSUM_BYTES: nat := 1024

  datatype Outcome =
    | Patched(offset: nat, checksum: nat)
    | NotFound(why: Extents.Located)
    | NotJbd2
    | ShortBlock   // the image ends inside the superblock

  /** `v | 0x2`. */
  function With64Bit(v: nat): (r: nat)
    ensures v < U32 ==> r < U32
    ensures r / 2 % 2 == 1 && (v / 2 % 2 == 1 ==> r == v)
  {
    if v / 2 % 2 == 1 then v else v + 2
  }

  /** `v | 0x10`. */
  function WithCsumV3(v: nat): (r: nat)
    ensures v < U32 ==> r < U32
    ensures r / 16 % 2 == 1 && (v / 16 % 2 == 1 ==> r == v)
  {
    if v / 16 % 2 == 1 then v else v + 16
  }

  function WithFeatures(v: nat): (r: nat)
    ensures v < U32 ==> r < U32
  {
    WithCsumV3(With64Bit(v))
  }

  lemma HigherBit(a: nat)
    ensures (a + 16) / 2 == a / 2 + 8
    ensures a / 2 % 2 == 1 ==> (a / 2 + 8) % 2 == 1
  {}

  lemma WithFeaturesTwice(v: nat)
    ensures WithFeatures(v) / 2 % 2 == 1 && WithFeatures(v) / 16 % 2 == 1
    ensures WithFeatures(WithFeatures(v)) == WithFeatures(v)
  {
    hide With64Bit, WithCsumV3;
    var a := With64Bit(v);
    HigherBit(a);
    AddsSixteen(a);
  }

  lemma AddsSixteen(a: nat)
    ensures WithCsumV3(a) == a || WithCsumV3(a) == a + 16
  {}

  /** The kernel knows the features 1, 2 and 16, and insists on the last. */
  lemma KnownFeatures(v: nat)
    ensures 16 <= WithFeatures(v) < 20 <==> v <= 3 || 16 <= v < 20
  {
    hide WithCsumV3;
    AddsSixteen(With64Bit(v));
    if v < 20 { SmallFeatures(With64Bit(v)); }
  }

  lemma SmallFeatures(a: nat)
    requires a < 20
    ensures WithCsumV3(a) == if a < 16 then a + 16 else a
  {}

  function Sum(meta: seq<Byte>): (v: nat)
    ensures v < U32
  {
    Crc32c.Value(0xFFFFFFFF, Slice(meta, 0, CHECKSUM_BYTES))
  }

  function WithFields(meta: seq<Byte>): (r: seq<Byte>)
    requires |meta| >= CHECKSUM + 4
    ensures |r| == |meta|
  {
    BigBytesUnique(meta[INCOMPAT..INCOMPAT + 4]);
    Patch(Patch(meta, INCOMPAT, PutBe32(WithFeatures(Be32(meta, INCOMPAT))))[CHECKSUM_TYPE := 4], CHECKSUM, PutBe32(0))
  }

  /** The journal superblock with its features, checksum type and checksum set. */
  function PatchedMeta(meta: seq<Byte>): (r: seq<Byte>)
    requires |meta| >= CHECKSUM + 4
    ensures |r| == |meta|
  {
    Patch(WithFields(meta), CHECKSUM, PutBe32(Sum(WithFields(meta))))
  }

  function Erased(meta: seq<Byte>): (r: seq<Byte>)
    requires |meta| >= CHECKSUM + 4
  {
    Patch(meta, CHECKSUM, PutBe32(0))
  }

  predicate InFields(i: int) {
    INCOMPAT <= i < INCOMPAT + 4 || i == CHECKSUM_TYPE || CHECKSUM <= i < CHECKSUM + 4
  }

  /** The stored checksum covers the first 1024 bytes with its own field read as zero; the features
      and the checksum type are set; no other byte changes. */
  lemma PatchedMetaMeans(meta: seq<Byte>)
    requires |meta| >= CHECKSUM + 4
    ensures var p := PatchedMeta(meta);
      Be32(p, CHECKSUM) == Sum(Erased(p))
      && Be32(p, INCOMPAT) == WithFeatures(Be32(meta, INCOMPAT)) && p[CHECKSUM_TYPE] == 4
      && forall i :: 0 <= i < |meta| && !InFields(i) ==> p[i] == meta[i]
  {
    hide Sum, WithFeatures;
    var v := Be32(meta, INCOMPAT);
    BigBytesUnique(meta[INCOMPAT..INCOMPAT + 4]);
    var w, p := WithFields(meta), PatchedMeta(meta);
    assert Erased(p) == w;
    assert p[CHECKSUM..CHECKSUM + 4] == PutBe32(Sum(w));
    BigRoundTrip32(Sum(w));
    assert p[INCOMPAT..INCOMPAT + 4] == PutBe32(WithFeatures(v));
    BigRoundTrip32(WithFeatures(v));
  }

  /** Patching a patched superblock changes nothing. */
  lemma PatchedMetaTwice(meta: seq<Byte>)
    requires |meta| >= CHECKSUM + 4
    ensures PatchedMeta(PatchedMeta(meta)) == PatchedMeta(meta)
  {
    hide Sum, WithFeatures, Be32;
    var p := PatchedMeta(meta);
    PatchedMetaMeans(meta);
    WithFeaturesTwice(Be32(meta, INCOMPAT));
    BigBytesUnique(meta[INCOMPAT..INCOMPAT + 4]);
    Be32Is(p, INCOMPAT);
    BigBytesUnique(p[INCOMPAT..INCOMPAT + 4]);
    assert WithFields(p) == WithFields(meta);
  }

  lemma Be32Is(s: seq<Byte>, off: nat)
    requires off + 4 <= |s|
    ensures Be32(s, off) == Big(s[off..off + 4])
  {}

  // ---- the image --------------------------------------------------------------------

  function Meta(img: seq<Byte>, offset: nat): (r: seq<Byte>)
    ensures |r| <= 4096 && (offset <= |img| ==> offset + |r| <= |img|) && (r != [] ==> offset <= |img|)
  {
    Slice(img, offset, offset + 4096)
  }

  predicate IsJournal(meta: seq<Byte>) {
    Be32(meta, 0) == JournalFormat.MAGIC && Be32(meta, 4) == SUPERBLOCK_V2
  }

  function PatchedImage(img: seq<Byte>, offset: nat): (r: seq<Byte>)
    requires |Meta(img, offset)| >= CHECKSUM + 4
    ensures |r| == |img|
  {
    Patch(img, offset, PatchedMeta(Meta(img, offset)))
  }

  /** What the tool does to an image: the patched image, or an error that leaves it alone. */
  function Enabled(img: seq<Byte>, fuel: nat): (r: (Outcome, seq<Byte>)) {
    match Extents.JournalOffset(img, fuel)
    case Offset(offset) =>
      var meta := Meta(img, offset);
      if !IsJournal(meta) then (NotJbd2, img)
      else if |meta| < CHECKSUM + 4 then (ShortBlock, img)
      else (Patched(offset, Sum(WithFields(meta))), PatchedImage(img, offset))
    case why => (NotFound(why), img)
  }

  /** An image file, patched through a read, a bytearray and a write back. */
  class ImageFile {
    var bytes: seq<Byte>

    constructor (bytes: seq<Byte>)
      ensures this.bytes == bytes
    {
      this.bytes := bytes;
    }

    method EnableJournalChecksums(fuel: nat) returns (r: Outcome)
      modifies this
      ensures (r, bytes) == Enabled(old(bytes), fuel)
    {
      hide Sum, Crc32c.Crc, Crc32c.IsTable, Extents.JournalOffset, WithFeatures;
      var data := bytes;
      var found := Extents.JournalOffset(data, fuel);
      if !found.Offset? { return NotFound(found); }
      var offset := found.bytes;
      var meta := Slice(data, offset, offset + 4096);
      if Be32(meta, 0) != JournalFormat.MAGIC || Be32(meta, 4) != SUPERBLOCK_V2 { return NotJbd2; }
      var incompat := WithFeatures(Be32(meta, INCOMPAT));
      if |meta| < CHECKSUM + 4 { return ShortBlock; }
      BigBytesUnique(meta[INCOMPAT..INCOMPAT + 4]);
      meta := Patch(meta, INCOMPAT, PutBe32(incompat));
      meta := meta[CHECKSUM_TYPE := 4];
      meta := Patch(meta, CHECKSUM, PutBe32(0));
      var crc32c := new Crc32c.Checksummer();
      var crc := crc32c.Compute(0xFFFFFFFF, Slice(meta, 0, CHECKSUM_BYTES));
      var checksum := Crc32c.Stored(crc);
      SumIs(meta, crc);
      meta := Patch(meta, CHECKSUM, PutBe32(checksum));
      data := Patch(data, offset, meta);
      bytes := data;
      return Patched(offset, checksum);
    }
  }

  lemma SumIs(meta: seq<Byte>, crc: bv32)
    requires crc == Crc32c.Crc(0xFFFFFFFF, Slice(meta, 0, CHECKSUM_BYTES))
    ensures Sum(meta) == Crc32c.Stored(crc)
  {
    hide Crc32c.Crc, Crc32c.Stored;
  }

  // ---- running it again ---------------------------------------------------------------

  predicate Apart(a: nat, b: nat, lo: nat, hi: nat) {
    b <= lo || hi <= a
  }

  /** The walk never reads a byte of [lo, hi). */
  predicate WalkAvoids(img: seq<Byte>, blockSize: nat, off: nat, fuel: nat, lo: nat, hi: nat)
    decreases fuel
  {
    Apart(off, off + 24, lo, hi)
    && (fuel > 0 && Le16(img, off + 6) != 0 ==>
          WalkAvoids(img, blockSize, Extents.ByteOffset(Le32(img, off + 16) + U32 * Le16(img, off + 20), blockSize),
            fuel - 1, lo, hi))
  }

  /** Nothing that locates the journal lies in [lo, hi). */
  predicate LocationAvoids(img: seq<Byte>, fuel: nat, lo: nat, hi: nat) {
    Apart(1024, 2048, lo, hi)
    && Apart(Extents.GroupDesc(img), Extents.GroupDesc(img) + Extents.DescSize(img), lo, hi)
    && (Extents.JournalInode(img) != 0 ==>
          WalkAvoids(img, Extents.BlockSize(img),
                     Extents.InodeAt(img, Extents.JournalInode(img), Extents.InodeSize(img)) + 40, fuel, lo, hi))
  }

  ghost predicate SameOutside(a: seq<Byte>, b: seq<Byte>, lo: nat, hi: nat) {
    |a| == |b| && forall i :: 0 <= i < |a| && !(lo <= i < hi) ==> a[i] == b[i]
  }

  lemma SliceSame(a: seq<Byte>, b: seq<Byte>, lo: nat, hi: nat, x: nat, y: nat)
    requires SameOutside(a, b, lo, hi) && Apart(x, y, lo, hi)
    ensures Slice(a, x, y) == Slice(b, x, y)
  {}

  lemma {:induction false} WalkSame(a: seq<Byte>, b: seq<Byte>, blockSize: nat, off: nat, fuel: nat, lo: nat, hi: nat)
    requires SameOutside(a, b, lo, hi) && WalkAvoids(a, blockSize, off, fuel, lo, hi)
    ensures Extents.FirstExtent(a, blockSize, off, fuel) == Extents.FirstExtent(b, blockSize, off, fuel)
    decreases fuel
  {
    hide Slice, SameOutside, Extents.ByteOffset;
    SliceSame(a, b, lo, hi, off, off + 2);
    SliceSame(a, b, lo, hi, off + 2, off + 4);
    SliceSame(a, b, lo, hi, off + 6, off + 8);
    SliceSame(a, b, lo, hi, off + 16, off + 20);
    SliceSame(a, b, lo, hi, off + 18, off + 20);
    SliceSame(a, b, lo, hi, off + 20, off + 22);
    SliceSame(a, b, lo, hi, off + 20, off + 24);
    SameLength(a, b, lo, hi);
    if fuel > 0 && Le16(a, off + 6) != 0 {
      WalkSame(a, b, blockSize, Extents.ByteOffset(Le32(a, off + 16) + U32 * Le16(a, off + 20), blockSize), fuel - 1,
        lo, hi);
    }
  }

  lemma SameLength(a: seq<Byte>, b: seq<Byte>, lo: nat, hi: nat)
    requires SameOutside(a, b, lo, hi)
    ensures |a| == |b|
  {}

  lemma LocationSame(a: seq<Byte>, b: seq<Byte>, fuel: nat, lo: nat, hi: nat)
    requires SameOutside(a, b, lo, hi) && LocationAvoids(a, fuel, lo, hi)
    ensures Extents.JournalOffset(a, fuel) == Extents.JournalOffset(b, fuel)
  {
    hide Slice, SameOutside, Extents.FirstExtent, WalkAvoids, Le16, Le32, Extents.ByteOffset;
    SliceSame(a, b, lo, hi, 1024, 2048);
    assert Extents.Super(a) == Extents.Super(b);
    SliceSame(a, b, lo, hi, Extents.GroupDesc(a), Extents.GroupDesc(a) + Extents.DescSize(a));
    if Extents.JournalInode(a) != 0 {
      WalkSame(a, b, Extents.BlockSize(a), Extents.InodeAt(a, Extents.JournalInode(a), Extents.InodeSize(a)) + 40,
        fuel, lo, hi);
    }
  }

  /** Where the journal superblock is clear of the metadata that locates it, a second run finds it
      again and leaves the image byte for byte as it is. */
  lemma EnableTwice(img: seq<Byte>, fuel: nat)
    requires var (r, _) := Enabled(img, fuel); r.Patched? && LocationAvoids(img, fuel, r.offset, r.offset + 4096)
    ensures var (r, out) := Enabled(img, fuel); Enabled(out, fuel) == (r, out)
  {
    hide Sum, WithFeatures, Extents.JournalOffset, LocationAvoids, PatchedMeta, WithFields, Be32;
    var (r, out) := Enabled(img, fuel);
    var offset, meta := r.offset, Meta(img, r.offset);
    LocationSame(img, out, fuel, offset, offset + 4096);
    assert Meta(out, offset) == PatchedMeta(meta);
    PatchedMetaTwice(meta);
    PatchedKeepsMagic(meta);
    PatchedSumAgain(meta);
    assert PatchedImage(out, offset) == out;
  }

  lemma PatchedKeepsMagic(meta: seq<Byte>)
    requires |meta| >= CHECKSUM + 4
    ensures IsJournal(PatchedMeta(meta)) == IsJournal(meta)
  {
    hide PatchedMeta, Sum, WithFeatures;
    PatchedMetaMeans(meta);
    var p := PatchedMeta(meta);
    assert p[0..4] == meta[0..4] && p[4..8] == meta[4..8];
  }

  lemma PatchedSumAgain(meta: seq<Byte>)
    requires |meta| >= CHECKSUM + 4
    ensures Sum(WithFields(PatchedMeta(meta))) == Sum(WithFields(meta))
  {
    hide Sum, WithFeatures, Be32;
    var p := PatchedMeta(meta);
    PatchedMetaMeans(meta);
    WithFeaturesTwice(Be32(meta, INCOMPAT));
    BigBytesUnique(meta[INCOMPAT..INCOMPAT + 4]);
    Be32Is(p, INCOMPAT);
    BigBytesUnique(p[INCOMPAT..INCOMPAT + 4]);
    assert WithFields(p) == WithFields(meta);
  }

  /** What the kernel's loader asks of a journal apart from what the tool sets. */
  predicate Loadable(g: JournalFormat.Geometry, b: JournalFormat.Block) {
    IsJournal(b) && Be32(b, 36) % 2 == 0 && (Be32(b, INCOMPAT) <= 3 || 16 <= Be32(b, INCOMPAT) < 20) && Be32(b, 44) == 0
    && Be32(b, 12) == JournalFormat.BLOCK && Be32(b, 16) == g.maxlen && Be32(b, 20) == g.first && b[48..64] == g.uuid
    && g.wide && (JournalSuper.Start(b) == 0 || g.first <= JournalSuper.Start(b) < g.maxlen)
  }

  /** A journal, patched, is one the kernel's loader accepts exactly when it meets the checks that have nothing to do
      with the tool: the checksum the tool stores is the checksum the kernel computes, whatever the block was. */
  lemma KernelLoadsPatched(g: JournalFormat.Geometry, b: JournalFormat.Block)
    ensures JournalSuper.Loads(g, PatchedMeta(b)) <==> Loadable(g, b)
  {
    hide PatchedMeta, Sum, WithFields, Be32, WithFeatures, JournalSuper.SuperSum;
    PatchedMetaMeans(b);
    KnownFeatures(Be32(b, INCOMPAT));
    WithFeaturesTwice(Be32(b, INCOMPAT));
    var p: JournalFormat.Block := PatchedMeta(b);
    SumsAgree(p);
    JournalSuper.SameWord(p, b, 0); JournalSuper.SameWord(p, b, 4); JournalSuper.SameWord(p, b, 12);
    JournalSuper.SameWord(p, b, 16); JournalSuper.SameWord(p, b, 20); JournalSuper.SameWord(p, b, 28);
    JournalSuper.SameWord(p, b, 36); JournalSuper.SameWord(p, b, 44);
    assert p[48..64] == b[48..64];
  }

  lemma SumsAgree(p: JournalFormat.Block)
    ensures Sum(Erased(p)) == JournalSuper.SuperSum(p)
  {
    hide Crc32c.Value;
    assert Slice(Erased(p), 0, CHECKSUM_BYTES) == JournalFormat.Erased(p, JournalSuper.SB_SUM)[..JournalSuper.SB_BYTES];
  }
}
