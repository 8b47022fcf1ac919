/** The journal superblock: the one block that says whether a log is waiting to be replayed. */
module JournalSuper {
  import opened Bytes
  import opened JournalFormat
  import Crc32c

  const SB_SEQUENCE: nat := 24
  const SB_START: nat := 28
  const SB_HEAD: nat := 88
  const SB_SUM: nat := 252
  const SB_BYTES: nat := 1024

  function Start(b: Block): nat {
    Be32(b, SB_START)
  }

  function Sequence(b: Block): nat {
    Be32(b, SB_SEQUENCE)
  }

  function HeadField(b: Block): nat {
    Be32(b, SB_HEAD)
  }

  /** Checksum of the first 1024 bytes with its own field read as zero, seeded with all ones. */
  function SuperSum(b: Block): (v: nat)
    ensures v < U32
  {
    Crc32c.Value(0xFFFFFFFF, Erased(b, SB_SUM)[..SB_BYTES])
  }

  predicate SuperSumOk(b: Block) {
    Be32(b, SB_SUM) == SuperSum(b)
  }

  /** The checks of jbd2_load_superblock, for the geometry it then uses. */
  predicate Loads(g: Geometry, b: Block) {
    Be32(b, 0) == MAGIC && Be32(b, 4) == 4 && SuperSumOk(b)
    && Be32(b, 36) % 2 == 0 && Be32(b, 44) == 0 && 16 <= Be32(b, 40) < 20 && b[80] == 4
    && Be32(b, 12) == BLOCK && Be32(b, 16) == g.maxlen && Be32(b, 20) == g.first
    && g.wide == (Be32(b, 40) / 2 % 2 == 1) && b[48..64] == g.uuid
    && (Start(b) == 0 || g.first <= Start(b) < g.maxlen)
  }

  function Sealed1024(b: Block): Block {
    Patch(b, SB_SUM, PutBe32(SuperSum(b)))
  }

  /** Rewrite sequence, start and head, then the checksum. */
  function Update(b: Block, start: nat, sequence: nat, head: nat): Block
    requires start < U32 && sequence < U32 && head < U32
  {
    Sealed1024(Patch(Patch(Patch(b, SB_SEQUENCE, PutBe32(sequence)), SB_START, PutBe32(start)), SB_HEAD, PutBe32(head)))
  }

  lemma SealedSuperOk(b: Block)
    ensures SuperSumOk(Sealed1024(b))
    ensures forall i :: 0 <= i < BLOCK && !(SB_SUM <= i < SB_SUM + 4) ==> Sealed1024(b)[i] == b[i]
  {
    hide Crc32c.Value;
    var s := Sealed1024(b);
    Be32AfterPatch(b, SB_SUM, SuperSum(b), SB_SUM);
    assert Erased(s, SB_SUM) == Erased(b, SB_SUM);
  }

  predicate Touched(i: int) {
    SB_SEQUENCE <= i < SB_START + 4 || SB_HEAD <= i < SB_HEAD + 4 || SB_SUM <= i < SB_SUM + 4
  }

  lemma SameWord(x: Block, y: Block, off: nat)
    requires off + 4 <= BLOCK && x[off..off + 4] == y[off..off + 4]
    ensures Be32(x, off) == Be32(y, off)
  {}

  /** An update reads back, keeps the checksum right, and touches only its own fields, all of
      them in the first 512-byte sector. */
  lemma UpdateReads(b: Block, start: nat, sequence: nat, head: nat)
    requires start < U32 && sequence < U32 && head < U32
    ensures var u := Update(b, start, sequence, head);
      Start(u) == start && Sequence(u) == sequence && HeadField(u) == head && SuperSumOk(u)
      && (forall i :: 0 <= i < BLOCK && !Touched(i) ==> u[i] == b[i])
      && u[512..] == b[512..]
  {
    hide SuperSum, SuperSumOk, Be32;
    var p := Patch(b, SB_SEQUENCE, PutBe32(sequence));
    var q: Block := Patch(p, SB_START, PutBe32(start));
    var r: Block := Patch(q, SB_HEAD, PutBe32(head));
    var u := Update(b, start, sequence, head);
    SealedSuperOk(r);
    Be32AfterPatch(b, SB_SEQUENCE, sequence, SB_SEQUENCE);
    Be32AfterPatch(p, SB_START, start, SB_SEQUENCE);
    Be32AfterPatch(q, SB_HEAD, head, SB_SEQUENCE);
    Be32AfterPatch(q, SB_HEAD, head, SB_START);
    assert u[SB_SEQUENCE..SB_SEQUENCE + 4] == r[SB_SEQUENCE..SB_SEQUENCE + 4];
    assert u[SB_START..SB_START + 4] == r[SB_START..SB_START + 4];
    assert u[SB_HEAD..SB_HEAD + 4] == r[SB_HEAD..SB_HEAD + 4];
    SameWord(u, r, SB_SEQUENCE);
    SameWord(u, r, SB_START);
    SameWord(u, r, SB_HEAD);
  }

  /** An updated superblock still loads. */
  lemma UpdateLoads(g: Geometry, b: Block, start: nat, sequence: nat, head: nat)
    requires start < U32 && sequence < U32 && head < U32
    requires Loads(g, b) && (start == 0 || g.first <= start < g.maxlen)
    ensures Loads(g, Update(b, start, sequence, head))
  {
    hide SuperSum, SuperSumOk, Update, Be32;
    var u := Update(b, start, sequence, head);
    UpdateReads(b, start, sequence, head);
    assert u[0..4] == b[0..4] && u[4..8] == b[4..8] && u[12..16] == b[12..16] && u[16..20] == b[16..20];
    assert u[20..24] == b[20..24] && u[36..40] == b[36..40] && u[40..44] == b[40..44] && u[44..48] == b[44..48];
    SameWord(u, b, 0); SameWord(u, b, 4); SameWord(u, b, 12); SameWord(u, b, 16);
    SameWord(u, b, 20); SameWord(u, b, 36); SameWord(u, b, 40); SameWord(u, b, 44);
    assert u[48..64] == b[48..64];
  }
}
