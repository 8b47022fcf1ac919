/** On-disk blocks of the JBD2 log: what the writer lays out and what recovery parses. */
module JournalFormat {
  import opened Bytes
  import Crc32c

  const BLOCK: nat := 4096
  const TAIL: nat := 4092           // checksum of a descriptor or revoke block
  const MAGIC: nat := 0xc03b3998
  const DESCRIPTOR: nat := 1
  const COMMIT: nat := 2
  const REVOKE: nat := 5
  const LAST_TAG: nat := 8

  type Block = b: seq<Byte> | |b| == BLOCK witness Zeros(BLOCK)

  /** What the journal superblock fixes for the whole life of the log. */
  datatype Geometry = Geometry(
    maxlen: nat,      // log blocks, superblock included
    first: nat,       // first block of the circular part
    fsBlocks: nat,    // blocks of the filesystem
    wide: bool,       // 64-bit block numbers
    uuid: seq<Byte>)
  {
    ghost predicate Valid() {
      1 <= first < maxlen <= 65536 && |uuid| == 16 && fsBlocks <= U32 * U32
    }

    function Advance(at: nat): nat {
      if at + 1 == maxlen then first else at + 1
    }

    /** Every log checksum is seeded with the checksum of the UUID. */
    function Sum(data: seq<Byte>): (v: nat)
      ensures v < U32
    {
      Crc32c.Value(Crc32c.Crc(0xFFFFFFFF, uuid), data)
    }

    /** The data checksum carried by a tag: the sequence, then the logged image. */
    function DataSum(sequence: nat, image: Block): (v: nat)
      requires sequence < U32
      ensures v < U32
    {
      Sum(PutBe32(sequence) + image)
    }
  }

  function Erased(b: Block, off: nat): Block
    requires off + 4 <= BLOCK
  {
    Patch(b, off, PutBe32(0))
  }

  /** A block stores, at `off`, its own checksum taken with that field read as zero. */
  predicate SumOk(g: Geometry, b: Block, off: nat)
    requires off + 4 <= BLOCK
  {
    Be32(b, off) == g.Sum(Erased(b, off))
  }

  function Sealed(g: Geometry, b: Block, off: nat): Block
    requires off + 4 <= BLOCK
  {
    Patch(b, off, PutBe32(g.Sum(Erased(b, off))))
  }

  lemma SealedIsOk(g: Geometry, b: Block, off: nat)
    requires off + 4 <= BLOCK
    ensures SumOk(g, Sealed(g, b, off), off)
  {
    var s := Sealed(g, b, off);
    Be32AfterPatch(b, off, g.Sum(Erased(b, off)), off);
    assert Erased(s, off) == Erased(b, off);
  }

  // ---- blocks the writer lays out ------------------------------------------------

  function Header(kind: nat, sequence: nat): (r: seq<Byte>)
    requires kind < U32 && sequence < U32
    ensures |r| == 12
  {
    PutBe32(MAGIC) + PutBe32(kind) + PutBe32(sequence)
  }

  /** One metadata block of a transaction: where it belongs and its new image. */
  datatype Entry = Entry(target: nat, image: Block)

  ghost predicate Loggable(g: Geometry, tx: seq<Entry>) {
    forall e :: e in tx ==> e.target < g.fsBlocks
  }

  /** Tag with the full UUID: 32 bytes. */
  function TagBytes(g: Geometry, e: Entry, flags: nat, sequence: nat): (r: seq<Byte>)
    requires g.Valid() && e.target < g.fsBlocks && flags < U32 && sequence < U32
    ensures |r| == 32
  {
    PutBe32(e.target % U32) + PutBe32(flags) + PutBe32(e.target / U32)
    + PutBe32(g.DataSum(sequence, e.image)) + g.uuid
  }

  /** The tags of a transaction; the last one is flagged. */
  function TagArea(g: Geometry, tx: seq<Entry>, sequence: nat): (r: seq<Byte>)
    requires g.Valid() && Loggable(g, tx) && sequence < U32
    ensures |r| == 32 * |tx|
  {
    if tx == [] then []
    else TagBytes(g, tx[0], if |tx| == 1 then LAST_TAG else 0, sequence) + TagArea(g, tx[1..], sequence)
  }

  /** Bytes the descriptor needs before its checksum. */
  function DescriptorBytes(tx: seq<Entry>): nat {
    12 + 32 * |tx|
  }

  function DescriptorBlock(g: Geometry, tx: seq<Entry>, sequence: nat): Block
    requires g.Valid() && Loggable(g, tx) && sequence < U32 && DescriptorBytes(tx) <= TAIL
  {
    Sealed(g, Header(DESCRIPTOR, sequence) + TagArea(g, tx, sequence) + Zeros(BLOCK - DescriptorBytes(tx)), TAIL)
  }

  function CommitBlock(g: Geometry, sequence: nat): Block
    requires sequence < U32
  {
    Sealed(g, Header(COMMIT, sequence) + Zeros(BLOCK - 12), 16)
  }

  // ---- headers ---------------------------------------------------------------------

  predicate HasHeader(b: Block, sequence: nat) {
    Be32(b, 0) == MAGIC && Be32(b, 8) == sequence
  }

  function Kind(b: Block): nat {
    Be32(b, 4)
  }

  predicate IsCommit(g: Geometry, b: Block, sequence: nat) {
    HasHeader(b, sequence) && Kind(b) == COMMIT && SumOk(g, b, 16)
  }

  lemma HeaderReads(b: Block, kind: nat, sequence: nat)
    requires kind < U32 && sequence < U32
    requires b[..12] == Header(kind, sequence)
    ensures HasHeader(b, sequence) && Kind(b) == kind
  {
    assert b[0..4] == b[..12][0..4] == PutBe32(MAGIC);
    assert b[4..8] == b[..12][4..8] == PutBe32(kind);
    assert b[8..12] == b[..12][8..12] == PutBe32(sequence);
    BigRoundTrip32(MAGIC);
    BigRoundTrip32(kind);
    BigRoundTrip32(sequence);
  }

  lemma CommitBlockIsCommit(g: Geometry, sequence: nat)
    requires sequence < U32
    ensures IsCommit(g, CommitBlock(g, sequence), sequence)
  {
    hide Geometry.Sum;
    var raw := Header(COMMIT, sequence) + Zeros(BLOCK - 12);
    SealedIsOk(g, raw, 16);
    assert CommitBlock(g, sequence)[..12] == Header(COMMIT, sequence);
    HeaderReads(CommitBlock(g, sequence), COMMIT, sequence);
  }

  // ---- parsing a descriptor ----------------------------------------------------------

  datatype Event = Write(target: nat, image: Block) | Revoke(target: nat)

  datatype Descriptor = Malformed | Parsed(events: seq<Event>, at: nat, consumed: nat)

  function Escaped(image: Block): Block {
    Patch(image, 0, PutBe32(MAGIC))
  }

  function TagTarget(g: Geometry, d: Block, off: nat): nat {
    Be32(d, off) + (if g.wide then U32 * Be32(d, off + 8) else 0)
  }

  /** Tags from byte `off` on; each names the next log block, whose checksum it carries. */
  function ReadTags(g: Geometry, log: seq<Block>, d: Block, sequence: nat, off: nat, at: nat, consumed: nat): Descriptor
    requires g.Valid() && |log| == g.maxlen && sequence < U32 && at < g.maxlen
    decreases BLOCK - off
  {
    if off + 16 > TAIL then Malformed
    else
      var flags := Be32(d, off + 4);
      var next := if flags / 2 % 2 == 1 then off + 16 else off + 32;
      if flags >= 16 || next > TAIL || TagTarget(g, d, off) >= g.fsBlocks || consumed >= g.maxlen then Malformed
      else if g.DataSum(sequence, log[at]) != Be32(d, off + 12) then Malformed
      else
        var image := if flags % 2 == 1 then Escaped(log[at]) else log[at];
        var event := Write(TagTarget(g, d, off), image);
        if flags / 8 % 2 == 1 then Parsed([event], g.Advance(at), consumed + 1)
        else
          match ReadTags(g, log, d, sequence, next, g.Advance(at), consumed + 1)
          case Malformed => Malformed
          case Parsed(events, a, c) => Parsed([event] + events, a, c)
  }

  function ReadDescriptor(g: Geometry, log: seq<Block>, d: Block, sequence: nat, at: nat, consumed: nat): Descriptor
    requires g.Valid() && |log| == g.maxlen && sequence < U32 && at < g.maxlen
  {
    if SumOk(g, d, TAIL) then ReadTags(g, log, d, sequence, 12, at, consumed) else Malformed
  }

  // ---- writer and reader agree ---------------------------------------------------------

  function AdvanceBy(g: Geometry, at: nat, count: nat): nat
    decreases count
  {
    if count == 0 then at else AdvanceBy(g, g.Advance(at), count - 1)
  }

  function Writes(tx: seq<Entry>): (r: seq<Event>)
    ensures |r| == |tx|
  {
    seq(|tx|, i requires 0 <= i < |tx| => Write(tx[i].target, tx[i].image))
  }

  /** The images sit in consecutive log blocks from `at`. */
  ghost predicate Logged(g: Geometry, log: seq<Block>, at: nat, tx: seq<Entry>)
    requires |log| == g.maxlen
    decreases |tx|
  {
    tx == [] || (at < g.maxlen && log[at] == tx[0].image && Logged(g, log, g.Advance(at), tx[1..]))
  }

  /** Block numbers survive the tag: always with 64-bit tags, below 2^32 otherwise. */
  ghost predicate Addressable(g: Geometry, tx: seq<Entry>) {
    g.wide || forall e :: e in tx ==> e.target < U32
  }

  lemma TagFields(g: Geometry, d: Block, off: nat, e: Entry, flags: nat, sequence: nat)
    requires g.Valid() && e.target < g.fsBlocks && flags < U32 && sequence < U32
    requires off + 32 <= BLOCK && d[off..off + 32] == TagBytes(g, e, flags, sequence)
    ensures Be32(d, off) == e.target % U32 && Be32(d, off + 4) == flags
    ensures Be32(d, off + 8) == e.target / U32 && Be32(d, off + 12) == g.DataSum(sequence, e.image)
  {
    hide Geometry.DataSum;
    var t := TagBytes(g, e, flags, sequence);
    SubSlice(d, off, off + 32, 0, 4);
    SubSlice(d, off, off + 32, 4, 8);
    SubSlice(d, off, off + 32, 8, 12);
    SubSlice(d, off, off + 32, 12, 16);
    assert t[0..4] == PutBe32(e.target % U32);
    assert t[4..8] == PutBe32(flags);
    assert t[8..12] == PutBe32(e.target / U32);
    assert t[12..16] == PutBe32(g.DataSum(sequence, e.image));
    BigRoundTrip32(e.target % U32);
    BigRoundTrip32(flags);
    BigRoundTrip32(e.target / U32);
    BigRoundTrip32(g.DataSum(sequence, e.image));
  }

  /** The first tag of an area, and the area that remains. */
  lemma TagCut(g: Geometry, d: Block, tx: seq<Entry>, sequence: nat, off: nat)
    requires g.Valid() && sequence < U32 && Loggable(g, tx) && tx != []
    requires off + 32 * |tx| <= TAIL && d[off..off + 32 * |tx|] == TagArea(g, tx, sequence)
    ensures d[off..off + 32] == TagBytes(g, tx[0], if |tx| == 1 then LAST_TAG else 0, sequence)
    ensures d[off + 32..off + 32 + 32 * |tx[1..]|] == TagArea(g, tx[1..], sequence)
  {
    hide TagBytes;
    var area := TagArea(g, tx, sequence);
    SubSlice(d, off, off + 32 * |tx|, 0, 32);
    SubSlice(d, off, off + 32 * |tx|, 32, 32 * |tx|);
    assert area[0..32] == TagBytes(g, tx[0], if |tx| == 1 then LAST_TAG else 0, sequence);
    assert area[32..32 * |tx|] == TagArea(g, tx[1..], sequence);
  }

  lemma {:induction false} TagsRead(g: Geometry, log: seq<Block>, d: Block, tx: seq<Entry>, sequence: nat,
                                    off: nat, at: nat, consumed: nat)
    requires g.Valid() && |log| == g.maxlen && sequence < U32 && at < g.maxlen
    requires tx != [] && Loggable(g, tx) && Addressable(g, tx)
    requires off + 32 * |tx| <= TAIL && d[off..off + 32 * |tx|] == TagArea(g, tx, sequence)
    requires Logged(g, log, at, tx) && consumed + |tx| <= g.maxlen
    ensures ReadTags(g, log, d, sequence, off, at, consumed)
         == Parsed(Writes(tx), AdvanceBy(g, at, |tx|), consumed + |tx|)
    decreases |tx|
  {
    hide Geometry.DataSum, Be32, TagBytes;
    var e, flags := tx[0], if |tx| == 1 then LAST_TAG else 0;
    TagCut(g, d, tx, sequence, off);
    TagFields(g, d, off, e, flags, sequence);
    TargetSplit(e.target);
    assert TagTarget(g, d, off) == e.target;
    if |tx| > 1 {
      var rest := tx[1..];
      TagsRead(g, log, d, rest, sequence, off + 32, g.Advance(at), consumed + 1);
      assert Writes(tx) == [Write(e.target, e.image)] + Writes(rest);
    } else {
      assert Writes(tx) == [Write(e.target, e.image)];
      assert AdvanceBy(g, at, 1) == g.Advance(at);
    }
  }

  lemma TargetSplit(t: nat)
    ensures t == t % U32 + U32 * (t / U32)
    ensures t < U32 ==> t % U32 == t
  {}

  lemma DescriptorShape(g: Geometry, tx: seq<Entry>, sequence: nat)
    requires g.Valid() && Loggable(g, tx) && sequence < U32 && DescriptorBytes(tx) <= TAIL
    ensures var d := DescriptorBlock(g, tx, sequence);
      d[..12] == Header(DESCRIPTOR, sequence) && d[12..12 + 32 * |tx|] == TagArea(g, tx, sequence)
      && SumOk(g, d, TAIL) && forall i :: 12 + 32 * |tx| <= i < TAIL ==> d[i] == 0
  {
    hide Geometry.Sum, TagArea, Header, SumOk, Be32;
    var raw: Block := Header(DESCRIPTOR, sequence) + TagArea(g, tx, sequence) + Zeros(BLOCK - DescriptorBytes(tx));
    SealedIsOk(g, raw, TAIL);
    assert raw[..12] == Header(DESCRIPTOR, sequence);
    assert raw[12..12 + 32 * |tx|] == TagArea(g, tx, sequence);
  }

  /** What the writer logs, recovery reads back: same targets, same images, in order. */
  lemma DescriptorRoundTrip(g: Geometry, log: seq<Block>, tx: seq<Entry>, sequence: nat, at: nat, consumed: nat)
    requires g.Valid() && |log| == g.maxlen && sequence < U32 && at < g.maxlen
    requires tx != [] && Loggable(g, tx) && Addressable(g, tx) && DescriptorBytes(tx) <= TAIL
    requires Logged(g, log, at, tx) && consumed + |tx| <= g.maxlen
    ensures var d := DescriptorBlock(g, tx, sequence);
      HasHeader(d, sequence) && Kind(d) == DESCRIPTOR
      && ReadDescriptor(g, log, d, sequence, at, consumed)
         == Parsed(Writes(tx), AdvanceBy(g, at, |tx|), consumed + |tx|)
  {
    hide DescriptorBlock, Header, SumOk, TagArea, ReadTags;
    var d := DescriptorBlock(g, tx, sequence);
    DescriptorShape(g, tx, sequence);
    HeaderReads(d, DESCRIPTOR, sequence);
    TagsRead(g, log, d, tx, sequence, 12, at, consumed);
  }

  /** Tags that each carry their own UUID, as the writer makes them. */
  ghost predicate FullTags(d: Block, off: nat)
    decreases BLOCK - off
  {
    off + 16 > TAIL || (Be32(d, off + 4) / 2 % 2 == 0 && FullTags(d, off + 32))
  }

  lemma {:induction false} FullTagsAreFew(g: Geometry, log: seq<Block>, d: Block, sequence: nat, off: nat, at: nat,
    consumed: nat)
    requires g.Valid() && |log| == g.maxlen && sequence < U32 && at < g.maxlen
    requires FullTags(d, off)
    ensures var r := ReadTags(g, log, d, sequence, off, at, consumed);
      r.Parsed? ==> off + 32 * |r.events| <= TAIL
    decreases BLOCK - off
  {
    hide Geometry.DataSum, Be32;
    if off + 16 <= TAIL && off + 32 <= TAIL {
      FullTagsAreFew(g, log, d, sequence, off + 32, g.Advance(at), consumed + 1);
    }
  }

  /** The writer admits up to 240 blocks per transaction, but a descriptor of full tags can
      carry a transaction back to the reader if and only if it has at most 127 blocks. */
  lemma DescriptorCapacity(g: Geometry, log: seq<Block>, tx: seq<Entry>, sequence: nat, at: nat, consumed: nat)
    requires g.Valid() && |log| == g.maxlen && sequence < U32 && at < g.maxlen
    requires tx != [] && Loggable(g, tx) && Addressable(g, tx)
    requires Logged(g, log, at, tx) && consumed + |tx| <= g.maxlen
    ensures |tx| <= 127 <==>
            exists d: Block ::
              FullTags(d, 12) && ReadDescriptor(g, log, d, sequence, at, consumed)
                                 == Parsed(Writes(tx), AdvanceBy(g, at, |tx|), consumed + |tx|)
  {
    hide Geometry.Sum, Geometry.DataSum, ReadTags, FullTags;
    if |tx| <= 127 {
      var d := DescriptorBlock(g, tx, sequence);
      DescriptorRoundTrip(g, log, tx, sequence, at, consumed);
      WrittenTagsAreFull(g, tx, sequence);
    } else {
      forall d: Block | FullTags(d, 12)
        ensures ReadDescriptor(g, log, d, sequence, at, consumed)
          != Parsed(Writes(tx), AdvanceBy(g, at, |tx|), consumed + |tx|)
      {
        FullTagsAreFew(g, log, d, sequence, 12, at, consumed);
      }
    }
  }

  lemma {:induction false} ZeroTagsAreFull(d: Block, off: nat)
    requires forall i :: off <= i < TAIL ==> d[i] == 0
    ensures FullTags(d, off)
    decreases BLOCK - off
  {
    if off + 16 <= TAIL {
      assert d[off + 4..off + 8] == PutBe32(0);
      BigRoundTrip32(0);
      ZeroTagsAreFull(d, off + 32);
    }
  }

  lemma {:induction false} AreaTagsAreFull(g: Geometry, d: Block, tx: seq<Entry>, sequence: nat, off: nat)
    requires g.Valid() && sequence < U32 && Loggable(g, tx)
    requires off + 32 * |tx| <= TAIL && d[off..off + 32 * |tx|] == TagArea(g, tx, sequence)
    requires forall i :: off + 32 * |tx| <= i < TAIL ==> d[i] == 0
    ensures FullTags(d, off)
    decreases |tx|
  {
    hide Geometry.DataSum, Be32, TagBytes;
    if tx == [] {
      ZeroTagsAreFull(d, off);
    } else {
      var e, flags := tx[0], if |tx| == 1 then LAST_TAG else 0;
      TagCut(g, d, tx, sequence, off);
      TagFields(g, d, off, e, flags, sequence);
      AreaTagsAreFull(g, d, tx[1..], sequence, off + 32);
    }
  }

  lemma WrittenTagsAreFull(g: Geometry, tx: seq<Entry>, sequence: nat)
    requires g.Valid() && sequence < U32 && Loggable(g, tx) && DescriptorBytes(tx) <= TAIL
    ensures FullTags(DescriptorBlock(g, tx, sequence), 12)
  {
    hide DescriptorBlock, TagArea, FullTags;
    var d := DescriptorBlock(g, tx, sequence);
    DescriptorShape(g, tx, sequence);
    AreaTagsAreFull(g, d, tx, sequence, 12);
  }
}
