/** A freshly made journal, and what the whole protocol guarantees from there on. */
module JournalFresh {
  import opened Bytes
  import opened JournalFormat
  import opened JournalLog
  import opened JournalSuper
  import opened JournalCommit
  import opened JournalCrash
  import opened JournalSteps
  import opened JournalRuns
  import opened JournalResume

  /** Feature bits: checksums of version 3, and 64-bit block numbers when the log is wide. */
  function Features(wide: bool): (v: nat)
    ensures 16 <= v < 20 && v < U32 && (wide <==> v / 2 % 2 == 1)
  {
    if wide then 18 else 16
  }

  /** The fixed fields of a superblock for an empty log. */
  function Fields(g: Geometry): (r: seq<Byte>)
    requires g.Valid()
    ensures |r| == 81
  {
    PutBe32(MAGIC) + PutBe32(4) + PutBe32(0) + PutBe32(BLOCK) + PutBe32(g.maxlen) + PutBe32(g.first)
    + PutBe32(1) + PutBe32(0) + PutBe32(0) + PutBe32(0) + PutBe32(Features(g.wide)) + PutBe32(0)
    + g.uuid + Zeros(16) + [4]
  }

  function NewSuper(g: Geometry): Block
    requires g.Valid()
  {
    Sealed1024(Fields(g) + Zeros(BLOCK - 81))
  }

  lemma WordAt(b: Block, off: nat, v: nat)
    requires off + 4 <= BLOCK && v < U32 && b[off..off + 4] == PutBe32(v)
    ensures Be32(b, off) == v
  {
    BigRoundTrip32(v);
  }

  lemma FieldsRead(g: Geometry, b: Block)
    requires g.Valid() && b[..81] == Fields(g)
    ensures Be32(b, 0) == MAGIC && Be32(b, 4) == 4 && Be32(b, 12) == BLOCK
    ensures Be32(b, 16) == g.maxlen && Be32(b, 20) == g.first
    ensures Be32(b, SB_SEQUENCE) == 1 && Be32(b, SB_START) == 0 && Be32(b, 36) == 0
    ensures Be32(b, 40) == Features(g.wide) && Be32(b, 44) == 0 && b[48..64] == g.uuid && b[80] == 4
  {
    hide PutBe32, Be32, Features;
    var f := Fields(g);
    assert forall i, j :: 0 <= i <= j <= 81 ==> b[i..j] == f[i..j] by {
      forall i, j | 0 <= i <= j <= 81
        ensures b[i..j] == f[i..j]
      {
        assert b[0..81] == b[..81];
        SubSlice(b, 0, 81, i, j);
      }
    }
    assert f[0..4] == PutBe32(MAGIC) && f[4..8] == PutBe32(4) && f[12..16] == PutBe32(BLOCK);
    assert f[16..20] == PutBe32(g.maxlen) && f[20..24] == PutBe32(g.first) && f[24..28] == PutBe32(1);
    assert f[28..32] == PutBe32(0) && f[36..40] == PutBe32(0) && f[40..44] == PutBe32(Features(g.wide));
    assert f[44..48] == PutBe32(0) && f[48..64] == g.uuid && f[80] == 4;
    WordAt(b, 0, MAGIC);
    WordAt(b, 4, 4);
    WordAt(b, 12, BLOCK);
    WordAt(b, 16, g.maxlen);
    WordAt(b, 20, g.first);
    WordAt(b, 24, 1);
    WordAt(b, 28, 0);
    WordAt(b, 36, 0);
    WordAt(b, 40, Features(g.wide));
    WordAt(b, 44, 0);
  }

  /** The loader accepts it and finds nothing to replay. */
  lemma NewSuperLoads(g: Geometry)
    requires g.Valid()
    ensures Loads(g, NewSuper(g)) && Start(NewSuper(g)) == 0 && Sequence(NewSuper(g)) == 1
  {
    hide SuperSum, SuperSumOk, Be32, Fields, Features, Sealed1024;
    var raw: Block := Fields(g) + Zeros(BLOCK - 81);
    SealedSuperOk(raw);
    assert NewSuper(g)[..81] == Fields(g);
    FieldsRead(g, NewSuper(g));
  }

  function NewDisk(g: Geometry): Disk
    requires g.Valid()
  {
    Disk(seq(g.fsBlocks, _ => Zeros(BLOCK)), [NewSuper(g)] + seq(g.maxlen - 1, _ => Zeros(BLOCK)))
  }

  lemma ZeroWord()
    ensures Be32(Zeros(BLOCK), 0) == 0
  {
    var z: Block := Zeros(BLOCK);
    assert z[0..4] == PutBe32(0);
    WordAt(z, 0, 0);
  }

  /** Every valid geometry has a journal that satisfies the invariant. */
  lemma NewJournal(g: Geometry)
    requires g.Valid()
    ensures Resumable(g, NewDisk(g)) && EndHead(g, NewDisk(g)) < U32 && Inv(g, Resume(g, NewDisk(g)))
  {
    hide NewSuper, Loads, Start, Sequence, Be32, Inv, Resumable, EndHead, Resume;
    NewSuperLoads(g);
    ZeroWord();
    FreshJournal(g, NewDisk(g));
  }

  /** From there, over every history of commits, page writes, power cuts and recoveries: all or nothing outside the
      window. */
  lemma NewJournalIsAtomic(g: Geometry, events: seq<Happening>, t: Sys)
    requires g.Valid() && Resumable(g, NewDisk(g)) && EndHead(g, NewDisk(g)) < U32
    requires History(g, Resume(g, NewDisk(g)), events, t) && !Window(t.pc)
    ensures CrashAtomic(g, t)
  {
    hide Inv, EndHead, Resume, History, NewDisk, Window, CrashAtomic, Mountable, EndSequence, StaleLog;
    NewJournal(g);
    HistoryIsAtomic(g, Resume(g, NewDisk(g)), events, t);
  }

  // ---- a commit that tears ----------------------------------------------------------------------

  function Sevens(): Block {
    seq(BLOCK, _ => 7)
  }

  lemma SevensDiffer(k: nat)
    requires k < 8
    ensures Sector(Zeros(BLOCK), k) != Sector(Sevens(), k) && Be32(Sevens(), 0) != MAGIC
  {
    assert Sector(Zeros(BLOCK), k)[0] == 0 && Sector(Sevens(), k)[0] == 7;
    var s := Sevens();
    assert s[0..4] == PutBe32(0x07070707);
    WordAt(s, 0, 0x07070707);
  }

  /** Nothing open, nothing dirty, and block 0 is all zeros. */
  ghost predicate Resting(g: Geometry, s: Sys) {
    Inv(g, s) && Sound(g, s) && s.pc.Idle? && s.cache == map[] && s.held == {} && s.tx == [] && s.homePending == []
    && s.sequence + 1 < U32 && |s.disk.home| > 0 && s.disk.home[0] == Zeros(BLOCK)
  }

  lemma NewRests(g: Geometry)
    requires g.Valid() && g.fsBlocks > 0
    ensures Resumable(g, NewDisk(g)) && EndHead(g, NewDisk(g)) < U32 && Resting(g, Resume(g, NewDisk(g)))
  {
    hide NewSuper, Loads, Start, Sequence, Be32, Holds, Freed, LogInv, StaleLog, View, Zeros;
    NewJournal(g);
    NewSuperLoads(g);
    ResumeInv(g, NewDisk(g));
    ViewEmpty(g, NewDisk(g));
    InvIsSound(g, Resume(g, NewDisk(g)));
  }

  const JOIN := MetaWrite(0, Sevens())

  /** A transaction that rewrites block 0 can be opened. */
  lemma Joins(g: Geometry, s: Sys)
    requires Resting(g, s) && g.maxlen - g.first >= 3
    ensures Enabled(g, s, JOIN)
    ensures var t := Take(g, s, JOIN);
      Inv(g, t) && t.pc.Idle? && t.tx == [0] && t.sequence == s.sequence
      && Entries(t.cache, t.tx) == [Entry(0, Sevens())] && 0 in t.before && t.before[0] == Zeros(BLOCK)
  {
    hide Inv, Sevens, Zeros, Writable, Be32;
    SevensDiffer(0);
    StepKeeps(g, s, JOIN);
  }

  /** Of that transaction no more than a sector may be home when the power fails, after the log has been declared empty:
      the mount then shows neither what was there nor what was committed. */
  lemma JoinedTears(g: Geometry, s: Sys) returns (labels: seq<Label>, t: Sys, d: Disk)
    requires Resting(g, s) && Enabled(g, s, JOIN) && g.maxlen - g.first >= 3
    ensures CommitRun(g, Take(g, s, JOIN), labels, t) && Crash(t, d)
    ensures Mountable(g, d) && !Old(t, View(g, d)) && !New(t, View(g, d))
  {
    hide Inv, Sound, Sevens, CommitRun, Crash, Mountable, Old, New, View, Sector, Take, Enabled, Zeros, Entries;
    Joins(g, s);
    labels, t := EveryCommitIsExposed(g, Take(g, s, JOIN));
    SevensDiffer(0);
    SevensDiffer(1);
    assert Differs(t.logged, t.before, 0, 0) && Differs(t.logged, t.before, 0, 1);
    assert CanBeNew(t, 0, 0) && CanBeOld(t, 0, 1);
    d := MixtureTears(g, t, 0, 0, 0, 1);
  }

  /** So every new journal with room for a one-block transaction can be torn. */
  lemma NewJournalTears(g: Geometry) returns (labels: seq<Label>, t: Sys, d: Disk)
    requires g.Valid() && g.fsBlocks > 0 && g.maxlen - g.first >= 3
    ensures Resumable(g, NewDisk(g)) && EndHead(g, NewDisk(g)) < U32
    ensures var s := Resume(g, NewDisk(g));
      Sound(g, s) && Enabled(g, s, JOIN) && CommitRun(g, Take(g, s, JOIN), labels, t)
    ensures Crash(t, d) && Mountable(g, d) && !Old(t, View(g, d)) && !New(t, View(g, d))
  {
    hide Inv, Sound, EndHead, EndSequence, Resume, Mountable, Crash, CommitRun, Old, New, View, Take, Enabled,
      StaleLog, Zeros;
    NewRests(g);
    Joins(g, Resume(g, NewDisk(g)));
    labels, t, d := JoinedTears(g, Resume(g, NewDisk(g)));
  }
}
