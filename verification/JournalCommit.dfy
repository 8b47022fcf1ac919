/** The commit sequence of the journal writer, the block cache under it, and power cuts. */
module JournalCommit {
  import opened Bytes
  import opened JournalFormat
  import opened JournalSuper
  import opened JournalLog

  datatype Disk = Disk(home: seq<Block>, log: seq<Block>)

  datatype Page = Page(block: nat, data: Block)

  /** Where the commit stands.  Each pair (writing, written) is one device write or batch of
      writes and the flush that follows it. */
  datatype Pc =
    | Idle
    | Ordering      // file data and every unheld page written
    | Ordered
    | Describing    // descriptor written
    | Described
    | Copying       // metadata images written
    | Copied
    | Pointing      // superblock written: s_start = head
    | Pointed
    | Committing    // commit block written
    | Durable       // flushed: the transaction is committed
    | Released      // holds dropped
    | Checkpointing // held pages written home
    | Checkpointed
    | Clearing      // superblock written: s_start = 0
    | Cleared
    | Draining      // every dirty page written

  datatype Sys = Sys(
    disk: Disk,                                           // on the medium
    homePending: seq<Page>, logPending: map<nat, Block>,  // written since the last flush
    cache: map<nat, Block>,                               // dirty pages
    held: set<nat>, tx: seq<nat>,                         // blocks of the open transaction
    logged: seq<Entry>,                                   // transaction being committed
    sequence: nat, head: nat, pc: Pc,
    before: map<nat, Block>)                              // the transaction's blocks as they were on the medium

  // ---- the medium ------------------------------------------------------------------

  function Settle(home: seq<Block>, pages: seq<Page>): (r: seq<Block>)
    ensures |r| == |home|
    decreases |pages|
  {
    if pages == [] then home
    else
      var p := pages[|pages| - 1];
      var r := Settle(home, pages[..|pages| - 1]);
      if p.block < |r| then r[p.block := p.data] else r
  }

  function Overlay(log: seq<Block>, writes: map<nat, Block>): (r: seq<Block>)
    ensures |r| == |log|
    ensures forall i :: 0 <= i < |log| ==> r[i] == if i in writes then writes[i] else log[i]
  {
    seq(|log|, i requires 0 <= i < |log| => if i in writes then writes[i] else log[i])
  }

  /** One log block written. */
  function Single(k: nat, x: Block): (m: map<nat, Block>)
    ensures forall i: nat :: i in m <==> i == k
    ensures m[k] == x
  {
    map[k := x]
  }

  function Flush(s: Sys): Sys {
    s.(disk := Disk(Settle(s.disk.home, s.homePending), Overlay(s.disk.log, s.logPending)), homePending := [],
      logPending := map[])
  }

  predicate Written(pages: seq<Page>, b: nat) {
    exists i :: 0 <= i < |pages| && pages[i].block == b
  }

  /** A power cut: each sector holds what was on the medium or some write since the last flush. */
  ghost predicate Crash(s: Sys, d: Disk) {
    |d.home| == |s.disk.home| && |d.log| == |s.disk.log|
    && (forall i :: 0 <= i < |d.log| ==>
          Torn(s.disk.log[i], if i in s.logPending then s.logPending[i] else s.disk.log[i], d.log[i]))
    && (forall b: nat, k: nat :: b < |d.home| && k < 8 ==> HomeSector(s, b, k, Sector(d.home[b], k)))
  }

  ghost predicate HomeSector(s: Sys, b: nat, k: nat, sector: seq<Byte>)
    requires b < |s.disk.home| && k < 8
  {
    sector == Sector(s.disk.home[b], k)
    || exists i :: 0 <= i < |s.homePending| && s.homePending[i].block == b && sector == Sector(s.homePending[i].data, k)
  }

  // ---- the steps -----------------------------------------------------------------------

  datatype Label =
    | MetaWrite(block: nat, image: Block)
    | DataWrite(block: nat, image: Block)
    | Evict(block: nat, count: nat)
    | Sync(pages: seq<Page>)          // bcache_sync_checked
    | Checkpoint(pages: seq<Page>)    // bcache_sync_held
    | Tick

  function Entries(cache: map<nat, Block>, tx: seq<nat>): (r: seq<Entry>)
    ensures |r| == |tx|
  {
    seq(|tx|, i requires 0 <= i < |tx| => Entry(tx[i], if tx[i] in cache then cache[tx[i]] else Zeros(BLOCK)))
  }

  /** Log positions and images of a transaction. */
  function Copies(g: Geometry, at: nat, tx: seq<Entry>): map<nat, Block>
    decreases |tx|
  {
    if tx == [] then map[] else Copies(g, g.Advance(at), tx[1..])[at := tx[0].image]
  }

  predicate InRun(block: nat, count: nat, b: nat) {
    block <= b < block + count
  }

  function RunPages(cache: map<nat, Block>, block: nat, count: nat): seq<Page>
    requires forall b: nat :: InRun(block, count, b) ==> b in cache
  {
    seq(count, i requires 0 <= i < count => assert InRun(block, count, block + i); Page(block + i, cache[block + i]))
  }

  /** The pages a full sync writes: every dirty page that is not held, in some order. */
  ghost predicate Covers(pages: seq<Page>, cache: map<nat, Block>, held: set<nat>) {
    (forall i :: 0 <= i < |pages| ==>
       pages[i].block in cache && pages[i].block !in held && pages[i].data == cache[pages[i].block])
    && (forall b :: b in cache && b !in held ==> Written(pages, b))
  }

  /** The pages a checkpoint writes: every dirty page that is held. */
  ghost predicate CoversHeld(pages: seq<Page>, cache: map<nat, Block>, held: set<nat>) {
    (forall i :: 0 <= i < |pages| ==>
       pages[i].block in cache && pages[i].block in held && pages[i].data == cache[pages[i].block])
    && (forall b :: b in cache && b in held ==> Written(pages, b))
  }

  ghost predicate Enabled(g: Geometry, s: Sys, l: Label) {
    match l
    case MetaWrite(b, image) =>
      s.pc.Idle? && b < g.fsBlocks && Be32(image, 0) != MAGIC && (g.wide || b < U32)
      && (b in s.held || !Written(s.homePending, b))
      && Fits(g, |s.tx| + if b in s.held then 0 else 1)
    case DataWrite(b, image) =>
      b < g.fsBlocks && b !in s.held && !Targets(s.logged, b)
    case Evict(b, count) =>
      b in s.cache && b !in s.held && count >= 1
      && forall k: nat :: InRun(b, count, k) ==> k in s.cache && k !in s.held
    case Sync(pages) =>
      ((s.pc.Idle? && s.tx != [] && s.sequence + 1 < U32) || s.pc.Cleared?) && Covers(pages, s.cache, s.held)
    case Checkpoint(pages) =>
      s.pc.Released? && CoversHeld(pages, s.cache, s.held)
    case Tick =>
      !s.pc.Idle? && !s.pc.Released? && !s.pc.Cleared?
  }

  /** What every step relies on: sizes, and a transaction that a descriptor can carry. */
  ghost predicate Sound(g: Geometry, s: Sys) {
    g.Valid() && |s.disk.home| == g.fsBlocks && |s.disk.log| == g.maxlen && InLog(g, s.head) && s.sequence < U32
    && (s.pc.Ordered? ==> Writable(g, Entries(s.cache, s.tx)))
  }

  ghost function Take(g: Geometry, s: Sys, l: Label): Sys
    requires Sound(g, s) && Enabled(g, s, l)
  {
    match l
    case MetaWrite(b, image) =>
      s.(cache := s.cache[b := image], held := s.held + {b},
         tx := if b in s.held then s.tx else s.tx + [b],
         before := if b in s.held then s.before else s.before[b := s.disk.home[b]])
    case DataWrite(b, image) => s.(cache := s.cache[b := image])
    case Evict(b, count) =>
      s.(homePending := s.homePending + RunPages(s.cache, b, count),
         cache := map k | k in s.cache && !InRun(b, count, k) :: s.cache[k])
    case Sync(pages) =>
      s.(homePending := s.homePending + pages,
         cache := map k | k in s.cache && k in s.held :: s.cache[k],
         pc := if s.pc.Idle? then Ordering else Draining)
    case Checkpoint(pages) =>
      s.(homePending := s.homePending + pages,
         cache := map k | k in s.cache && k !in s.held :: s.cache[k],
         pc := Checkpointing)
    case Tick => TakeTick(g, s)
  }

  function WriteSuper(s: Sys, start: nat, pc: Pc): Sys
    requires |s.disk.log| > 0 && start < U32 && s.sequence < U32 && s.head < U32
  {
    s.(logPending := Single(0, Update(s.disk.log[0], start, s.sequence, s.head)), pc := pc)
  }

  ghost function WriteDescriptor(g: Geometry, s: Sys): Sys
    requires g.Valid() && s.sequence < U32 && Writable(g, Entries(s.cache, s.tx))
  {
    var e := Entries(s.cache, s.tx);
    s.(logged := e, logPending := Single(s.head, DescriptorBlock(g, e, s.sequence)), pc := Describing)
  }

  function WriteCommit(g: Geometry, s: Sys): Sys
    requires s.sequence < U32
  {
    s.(logPending := Single(CommitAt(g, s.head, |s.logged|), CommitBlock(g, s.sequence)), pc := Committing)
  }

  function PassCommit(g: Geometry, s: Sys): Sys {
    Flush(s).(sequence := s.sequence + 1, head := g.Advance(CommitAt(g, s.head, |s.logged|)), pc := Durable)
  }

  /** The commit's own steps, in program order. */
  ghost function TakeTick(g: Geometry, s: Sys): Sys
    requires Sound(g, s) && !s.pc.Idle? && !s.pc.Released? && !s.pc.Cleared?
  {
    match s.pc
    case Ordering => Flush(s).(pc := Ordered)
    case Ordered => WriteDescriptor(g, s)
    case Describing => Flush(s).(pc := Described)
    case Described => s.(logPending := Copies(g, g.Advance(s.head), s.logged), pc := Copying)
    case Copying => Flush(s).(pc := Copied)
    case Copied => WriteSuper(s, s.head, Pointing)
    case Pointing => Flush(s).(pc := Pointed)
    case Pointed => WriteCommit(g, s)
    case Committing => PassCommit(g, s)
    case Durable => s.(held := {}, tx := [], pc := Released)
    case Checkpointing => Flush(s).(pc := Checkpointed)
    case Checkpointed => WriteSuper(s, 0, Clearing)
    case Clearing => Flush(s).(pc := Cleared)
    case Draining => Flush(s).(logged := [], before := map[], pc := Idle)
  }

  // ---- the invariant ---------------------------------------------------------------------

  ghost predicate Inv(g: Geometry, s: Sys) {
    Shape(g, s) && Holds(g, s) && Freed(g, s) && LogInv(g, s)
  }

  ghost predicate Shape(g: Geometry, s: Sys) {
    g.Valid() && |s.disk.home| == g.fsBlocks && |s.disk.log| == g.maxlen && InLog(g, s.head) && s.sequence < U32
    && Loads(g, s.disk.log[0])
    && (forall b :: b in s.cache ==> b < g.fsBlocks)
    && (forall i :: 0 <= i < |s.homePending| ==> s.homePending[i].block < g.fsBlocks)
  }

  predicate Holding(pc: Pc) {
    pc.Idle? || pc.Ordering? || pc.Ordered? || pc.Describing? || pc.Described? || pc.Copying? || pc.Copied?
    || pc.Pointing? || pc.Pointed? || pc.Committing? || pc.Durable?
  }

  /** While the transaction is held, its blocks stay in the cache and off the medium. */
  ghost predicate Holds(g: Geometry, s: Sys)
    requires |s.disk.home| == g.fsBlocks
  {
    (Holding(s.pc) ==>
      (forall b :: b in s.held <==> b in s.tx)
      && (forall i, j :: 0 <= i < j < |s.tx| ==> s.tx[i] != s.tx[j])
      && (s.tx == [] || Fits(g, |s.tx|))
      && (!s.pc.Idle? ==> s.tx != [])
      && (forall b :: b in s.held ==> HeldOk(g, s, b)))
    && (Holding(s.pc) && !s.pc.Idle? && !s.pc.Ordering? && !s.pc.Ordered? ==>
      (forall b :: b in s.tx ==> b in s.cache) && s.logged == Entries(s.cache, s.tx))
    && (s.pc.Idle? || s.pc.Ordering? || s.pc.Ordered? ==> s.logged == [])
  }

  ghost predicate HeldOk(g: Geometry, s: Sys, b: nat)
    requires |s.disk.home| == g.fsBlocks
  {
    b in s.cache && b < g.fsBlocks && (g.wide || b < U32) && Be32(s.cache[b], 0) != MAGIC
    && b in s.before && s.before[b] == s.disk.home[b] && !Written(s.homePending, b)
  }

  /** Once released, a block of the transaction is its old or its new self on the medium, and the
      new one is still in the cache or already written. */
  ghost predicate Freed(g: Geometry, s: Sys)
    requires |s.disk.home| == g.fsBlocks
  {
    !Holding(s.pc) ==>
      s.held == {} && s.tx == [] && Writable(g, s.logged) && Distinct(s.logged)
      && (forall i :: 0 <= i < |s.logged| ==> ReleasedOk(g, s, s.logged[i]))
      && (s.pc.Draining? ==> OutOfCache(s.cache, s.logged))
  }

  /** The final sync leaves nothing of the transaction in the cache. */
  ghost predicate OutOfCache(cache: map<nat, Block>, tx: seq<Entry>) {
    forall i :: 0 <= i < |tx| ==> tx[i].target !in cache
  }

  ghost predicate ReleasedOk(g: Geometry, s: Sys, e: Entry)
    requires |s.disk.home| == g.fsBlocks
  {
    e.target < g.fsBlocks && Be32(e.image, 0) != MAGIC && e.target in s.before
    && (s.disk.home[e.target] == s.before[e.target] || s.disk.home[e.target] == e.image)
    && (forall i :: 0 <= i < |s.homePending| && s.homePending[i].block == e.target ==> s.homePending[i].data == e.image)
    && (if e.target in s.cache then s.cache[e.target] == e.image
        else s.disk.home[e.target] == e.image || Written(s.homePending, e.target))
  }

  function FixHead(g: Geometry, h: nat): nat {
    if h < g.first || h >= g.maxlen then g.first else h
  }

  /** The superblock says the log is empty, and where and with what number the next one starts. */
  ghost predicate EmptyLog(g: Geometry, log: seq<Block>, sequence: nat, head: nat)
    requires |log| == g.maxlen && g.Valid()
  {
    Start(log[0]) == 0 && Sequence(log[0]) == sequence && FixHead(g, HeadField(log[0])) == head
    && StaleLog(g, log, sequence, head)
  }

  /** The superblock points at a prepared transaction. */
  ghost predicate PointedLog(g: Geometry, log: seq<Block>, head: nat, tx: seq<Entry>, sequence: nat)
    requires |log| == g.maxlen && g.Valid() && sequence < U32
  {
    Writable(g, tx) && Distinct(tx) && Start(log[0]) == head && Sequence(log[0]) == sequence && sequence + 1 < U32
    && Prepared(g, log, head, tx, sequence) && StaleLog(g, log, sequence, head)
  }

  /** The pointed-at transaction is committed; the writer has moved past it. */
  ghost predicate CommittedLog(g: Geometry, log: seq<Block>, tx: seq<Entry>, sequence: nat, head: nat)
    requires |log| == g.maxlen && g.Valid()
  {
    var c := CommitAt(g, Start(log[0]), |tx|);
    1 <= sequence < U32 && PointedLog(g, log, Start(log[0]), tx, sequence - 1)
    && c < g.maxlen && IsCommit(g, log[c], sequence - 1) && head == g.Advance(c)
  }

  ghost predicate LogInv(g: Geometry, s: Sys)
    requires Shape(g, s)
  {
    match s.pc
    case Idle => s.logPending == map[] && EmptyLog(g, s.disk.log, s.sequence, s.head)
    case Ordering => s.logPending == map[] && EmptyLog(g, s.disk.log, s.sequence, s.head) && s.sequence + 1 < U32
    case Ordered => s.logPending == map[] && EmptyLog(g, s.disk.log, s.sequence, s.head) && s.sequence + 1 < U32
    case Describing =>
      Writable(g, s.logged) && s.logPending == Single(s.head, DescriptorBlock(g, s.logged, s.sequence))
      && EmptyLog(g, s.disk.log, s.sequence, s.head) && s.sequence + 1 < U32
    case Described =>
      Writable(g, s.logged) && s.logPending == map[] && s.disk.log[s.head] == DescriptorBlock(g, s.logged, s.sequence)
      && EmptyLog(g, s.disk.log, s.sequence, s.head) && s.sequence + 1 < U32
    case Copying =>
      Writable(g, s.logged) && s.logPending == Copies(g, g.Advance(s.head), s.logged)
      && s.disk.log[s.head] == DescriptorBlock(g, s.logged, s.sequence) && EmptyLog(g, s.disk.log, s.sequence, s.head)
      && s.sequence + 1 < U32
    case Copied =>
      s.logPending == map[] && Writable(g, s.logged) && Distinct(s.logged)
        && Prepared(g, s.disk.log, s.head, s.logged, s.sequence)
      && EmptyLog(g, s.disk.log, s.sequence, s.head) && s.sequence + 1 < U32
    case Pointing =>
      s.logPending == Single(0, Update(s.disk.log[0], s.head, s.sequence, s.head)) && Writable(g, s.logged)
        && Distinct(s.logged)
      && Prepared(g, s.disk.log, s.head, s.logged, s.sequence) && EmptyLog(g, s.disk.log, s.sequence, s.head)
      && s.sequence + 1 < U32
    case Pointed => s.logPending == map[] && PointedLog(g, s.disk.log, s.head, s.logged, s.sequence)
    case Committing =>
      s.logPending == Single(CommitAt(g, s.head, |s.logged|), CommitBlock(g, s.sequence))
      && PointedLog(g, s.disk.log, s.head, s.logged, s.sequence)
    case Durable => s.logPending == map[] && CommittedLog(g, s.disk.log, s.logged, s.sequence, s.head)
    case Released => s.logPending == map[] && CommittedLog(g, s.disk.log, s.logged, s.sequence, s.head)
    case Checkpointing => s.logPending == map[] && CommittedLog(g, s.disk.log, s.logged, s.sequence, s.head)
    case Checkpointed => s.logPending == map[] && CommittedLog(g, s.disk.log, s.logged, s.sequence, s.head)
    case Clearing => s.logPending == Single(0, Update(s.disk.log[0], 0, s.sequence, s.head))
      && CommittedLog(g, s.disk.log, s.logged, s.sequence, s.head)
    case Cleared => s.logPending == map[] && EmptyLog(g, s.disk.log, s.sequence, s.head)
    case Draining => s.logPending == map[] && EmptyLog(g, s.disk.log, s.sequence, s.head)
  }
}
