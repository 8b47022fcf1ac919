/** What the next mount makes of a power cut at any point of a commit. */
module JournalCrash {
  import opened Bytes
  import opened JournalFormat
  import opened JournalRecovery
  import opened JournalSuper
  import opened JournalLog
  import opened JournalCommit
  import opened JournalSteps
  import JournalPasses

  // ---- mounting ----------------------------------------------------------------------

  /** A disk whose journal superblock the mount accepts. */
  ghost predicate Mountable(g: Geometry, d: Disk) {
    g.Valid() && |d.home| == g.fsBlocks && |d.log| == g.maxlen && Loads(g, d.log[0]) && Sequence(d.log[0]) < U32
  }

  /** The committed transactions waiting in the log. */
  ghost function Waiting(g: Geometry, d: Disk): seq<Tx>
    requires Mountable(g, d)
  {
    if Start(d.log[0]) == 0 then [] else Committed(g, d.log, Start(d.log[0]), Sequence(d.log[0]), 0, 0, [])
  }

  lemma WaitingReplayable(g: Geometry, d: Disk)
    requires Mountable(g, d)
    ensures Replayable(d.home, Waiting(g, d))
  {
    hide Committed;
    if Start(d.log[0]) != 0 {
      JournalPasses.CommittedNumbered(g, d.log, Start(d.log[0]), Sequence(d.log[0]), 0, 0, []);
    }
  }

  /** The filesystem's blocks once the log has been replayed. */
  ghost function View(g: Geometry, d: Disk): (r: seq<Block>)
    requires Mountable(g, d)
    ensures |r| == g.fsBlocks
  {
    WaitingReplayable(g, d);
    Replay(d.home, Waiting(g, d), 0)
  }

  lemma ViewEmpty(g: Geometry, d: Disk)
    requires Mountable(g, d) && Start(d.log[0]) == 0
    ensures View(g, d) == d.home
  {}

  /** A pointed-at transaction is in the view, whole, exactly when its commit block is valid. */
  lemma ViewPointed(g: Geometry, d: Disk, tx: seq<Entry>)
    requires Mountable(g, d) && Start(d.log[0]) != 0
    requires PointedLog(g, d.log, Start(d.log[0]), tx, Sequence(d.log[0]))
    ensures var c := CommitAt(g, Start(d.log[0]), |tx|);
      c < g.maxlen
      && (IsCommit(g, d.log[c], Sequence(d.log[0])) ==>
            forall i :: 0 <= i < |tx| ==> tx[i].target < g.fsBlocks && View(g, d)[tx[i].target] == tx[i].image)
      && (!IsCommit(g, d.log[c], Sequence(d.log[0])) ==> View(g, d) == d.home)
  {
    hide Committed, IsCommit, StaleLog, Prepared, Distinct, Loads, Fits;
    var head, sequence := Start(d.log[0]), Sequence(d.log[0]);
    ScanPrepared(g, d.log, head, tx, sequence);
    ReplayOne(g, d.home, tx, sequence, g.Advance(CommitAt(g, head, |tx|)));
    forall i | 0 <= i < |tx| ensures tx[i].target < g.fsBlocks { assert tx[i] in tx; }
  }

  // ---- what a power cut leaves ------------------------------------------------------------

  lemma CrashLogSame(s: Sys, d: Disk, i: nat)
    requires Crash(s, d) && i < |d.log| && i !in s.logPending
    ensures d.log[i] == s.disk.log[i]
  {
    TornSame(s.disk.log[i], d.log[i]);
  }

  lemma CrashHomeSame(s: Sys, d: Disk, b: nat)
    requires Crash(s, d) && b < |d.home| && !Written(s.homePending, b)
    ensures d.home[b] == s.disk.home[b]
  {
    forall k: nat | k < 8 ensures Sector(d.home[b], k) == Sector(s.disk.home[b], k) {
      assert HomeSector(s, b, k, Sector(d.home[b], k));
    }
    SectorsDecide(d.home[b], s.disk.home[b]);
  }

  /** The journal superblock is never torn: it is the one on the medium or the one being written. */
  lemma CrashSuper(g: Geometry, s: Sys, d: Disk)
    requires Inv(g, s) && Crash(s, d)
    ensures d.log[0] == s.disk.log[0] || (0 in s.logPending && d.log[0] == s.logPending[0])
  {
    hide Loads, Holds, Freed, EmptyLog, CommittedLog, PointedLog, Prepared, Writable, DescriptorBlock, CommitBlock,
      Update, Copies, Distinct;
    if 0 !in s.logPending {
      CrashLogSame(s, d, 0);
    } else {
      SuperPending(g, s);
      TornFirstSector(s.disk.log[0], s.logPending[0], d.log[0]);
    }
  }

  lemma SuperPending(g: Geometry, s: Sys)
    requires Inv(g, s) && 0 in s.logPending
    ensures s.pc.Pointing? || s.pc.Clearing?
    ensures s.logPending == Single(0, Update(s.disk.log[0], if s.pc.Pointing? then s.head else 0, s.sequence, s.head))
    ensures s.logPending[0][512..] == s.disk.log[0][512..]
  {
    hide Loads, Holds, Freed, LogInv, Update;
    SuperPc(g, s);
    if s.pc.Pointing? { PointingWrites(g, s); } else { ClearingWrites(g, s); }
    UpdateReads(s.disk.log[0], if s.pc.Pointing? then s.head else 0, s.sequence, s.head);
  }

  lemma SuperPc(g: Geometry, s: Sys)
    requires Shape(g, s) && LogInv(g, s) && 0 in s.logPending
    ensures s.pc.Pointing? || s.pc.Clearing?
  {
    hide Loads, EmptyLog, CommittedLog, Prepared, DescriptorBlock, CommitBlock, Update, Distinct, Copies;
    match s.pc
    case Copying => CopiesSpareSuper(g, s.head, s.logged);
    case Committing =>
      PointedFits(g, s.disk.log, s.head, s.logged, s.sequence);
      CommitIn(g, s.head, |s.logged|);
    case _ =>
  }

  lemma PointedFits(g: Geometry, log: seq<Block>, head: nat, tx: seq<Entry>, sequence: nat)
    requires g.Valid() && |log| == g.maxlen && sequence < U32 && PointedLog(g, log, head, tx, sequence)
    ensures InLog(g, head) && Fits(g, |tx|) && Writable(g, tx) && Distinct(tx)
    ensures Prepared(g, log, head, tx, sequence) && StaleLog(g, log, sequence, head)
  {
    hide DescriptorBlock, StaleLog, Start, Sequence, Distinct;
  }

  lemma PointingWrites(g: Geometry, s: Sys)
    requires Shape(g, s) && LogInv(g, s) && s.pc.Pointing?
    ensures s.logPending == Single(0, Update(s.disk.log[0], s.head, s.sequence, s.head))
  {
    hide Loads, EmptyLog, Prepared, Update, Distinct, Writable;
  }

  lemma ClearingWrites(g: Geometry, s: Sys)
    requires Shape(g, s) && LogInv(g, s) && s.pc.Clearing?
    ensures s.logPending == Single(0, Update(s.disk.log[0], 0, s.sequence, s.head))
  {
    hide Loads, CommittedLog, Update;
  }

  lemma CrashMountable(g: Geometry, s: Sys, d: Disk)
    requires Inv(g, s) && Crash(s, d)
    ensures Mountable(g, d)
  {
    hide Loads, Holds, Freed, LogInv, Update;
    CrashSuper(g, s, d);
    if 0 in s.logPending && d.log[0] == s.logPending[0] {
      SuperPending(g, s);
      UpdateLoads(g, s.disk.log[0], if s.pc.Pointing? then s.head else 0, s.sequence, s.head);
    }
    BigBytesUnique(Slice(d.log[0], SB_SEQUENCE, SB_SEQUENCE + 4));
  }

  // ---- the transaction in a view ---------------------------------------------------------------

  /** The blocks of the open or running transaction with their new images. */
  ghost function Changed(s: Sys): seq<Entry> {
    if Early(s.pc) then Entries(s.cache, s.tx) else s.logged
  }

  /** The view shows the filesystem without the transaction. */
  ghost predicate Old(s: Sys, v: seq<Block>) {
    forall i :: 0 <= i < |Changed(s)| ==>
      var b := Changed(s)[i].target; b in s.before && b < |v| && v[b] == s.before[b]
  }

  /** The view shows the filesystem with all of the transaction. */
  ghost predicate New(s: Sys, v: seq<Block>) {
    forall i :: 0 <= i < |Changed(s)| ==>
      Changed(s)[i].target < |v| && v[Changed(s)[i].target] == Changed(s)[i].image
  }

  /** Held blocks stay as they were on the medium through any power cut. */
  lemma HomeIsOld(g: Geometry, s: Sys, d: Disk)
    requires Shape(g, s) && Holds(g, s) && Holding(s.pc) && Crash(s, d)
    ensures Old(s, d.home)
  {
    hide Loads, Be32, Fits;
    forall i | 0 <= i < |Changed(s)|
      ensures var b := Changed(s)[i].target; b in s.before && b < |d.home| && d.home[b] == s.before[b]
    {
      var b := Changed(s)[i].target;
      assert b == s.tx[i] && s.tx[i] in s.tx && HeldOk(g, s, b);
      CrashHomeSame(s, d, b);
    }
  }

  predicate Unpointed(pc: Pc) {
    Early(pc) || pc.Describing? || pc.Described? || pc.Copying? || pc.Copied?
  }

  /** Before the superblock points at the log, a power cut loses the whole transaction. */
  lemma CutBeforePointing(g: Geometry, s: Sys, d: Disk)
    requires Inv(g, s) && Crash(s, d) && Unpointed(s.pc)
    ensures Mountable(g, d) && Start(d.log[0]) == 0 && Old(s, View(g, d))
  {
    hide Loads, Holds, Freed, LogInv, View, Old;
    CrashMountable(g, s, d);
    CrashSuper(g, s, d);
    UnpointedStart(g, s);
    if 0 in s.logPending { SuperPending(g, s); }
    ViewEmpty(g, d);
    HomeIsOld(g, s, d);
  }

  lemma UnpointedStart(g: Geometry, s: Sys)
    requires Shape(g, s) && LogInv(g, s) && Unpointed(s.pc)
    ensures Start(s.disk.log[0]) == 0
  {
    hide Loads, Prepared, DescriptorBlock, Copies, Distinct, Writable, StaleLog, Sequence, HeadField;
  }

  /** Log blocks other than the superblock after a power cut that can only tear block k. */
  lemma CutLog(g: Geometry, s: Sys, d: Disk, k: nat)
    requires Inv(g, s) && Crash(s, d) && k < g.maxlen && (forall i: nat :: i in s.logPending ==> i == k)
    ensures d.log == Overlay(s.disk.log, Single(k, d.log[k]))
    ensures s.logPending == map[] ==> d.log == s.disk.log
  {
    hide Loads, Holds, Freed, LogInv, Torn;
    forall i | 0 <= i < |d.log| ensures d.log[i] == Overlay(s.disk.log, Single(k, d.log[k]))[i]
    {
      if i != k { CrashLogSame(s, d, i); }
    }
    if s.logPending == map[] { CrashLogSame(s, d, k); }
  }

  /** From the write of the superblock pointer until the commit block is flushed, the next mount
      sees all of the transaction or none of it. */
  lemma CutBeforeCommit(g: Geometry, s: Sys, d: Disk)
    requires Inv(g, s) && Crash(s, d) && (s.pc.Pointing? || s.pc.Pointed? || s.pc.Committing?)
    ensures Mountable(g, d) && (Old(s, View(g, d)) || New(s, View(g, d)))
  {
    hide Loads, Holds, Freed, LogInv, View, Old, PointedLog, IsCommit;
    CrashMountable(g, s, d);
    HomeIsOld(g, s, d);
    PointedAfterCut(g, s, d);
    if Start(d.log[0]) == 0 {
      ViewEmpty(g, d);
    } else {
      ViewPointed(g, d, s.logged);
    }
  }

  lemma PointedAfterCut(g: Geometry, s: Sys, d: Disk)
    requires Inv(g, s) && Crash(s, d) && Mountable(g, d) && (s.pc.Pointing? || s.pc.Pointed? || s.pc.Committing?)
    ensures Start(d.log[0]) == 0 || PointedLog(g, d.log, Start(d.log[0]), s.logged, Sequence(d.log[0]))
  {
    hide Inv, Crash, Mountable, PointedLog;
    if s.pc.Pointing? { CutPointing(g, s, d); }
    else if s.pc.Pointed? { CutPointed(g, s, d); }
    else { CutCommitting(g, s, d); }
  }

  lemma CutPointing(g: Geometry, s: Sys, d: Disk)
    requires Inv(g, s) && Crash(s, d) && Mountable(g, d) && s.pc.Pointing?
    ensures Start(d.log[0]) == 0 || PointedLog(g, d.log, Start(d.log[0]), s.logged, Sequence(d.log[0]))
  {
    hide Loads, Holds, Freed, Prepared, StaleLog, Update, Distinct, Writable, PointedLog, Start, Sequence, HeadField,
      Overlay, Torn;
    PointingWrites(g, s);
    CutLog(g, s, d, 0);
    CrashSuper(g, s, d);
    var sb := Update(s.disk.log[0], s.head, s.sequence, s.head);
    UpdateReads(s.disk.log[0], s.head, s.sequence, s.head);
    SuperPoints(g, s.disk.log, s.head, s.logged, s.sequence);
  }

  lemma CutPointed(g: Geometry, s: Sys, d: Disk)
    requires Inv(g, s) && Crash(s, d) && Mountable(g, d) && s.pc.Pointed?
    ensures PointedLog(g, d.log, Start(d.log[0]), s.logged, Sequence(d.log[0]))
  {
    hide Loads, Holds, Freed, Prepared, StaleLog, Distinct, Writable, Start, Sequence, Overlay, Torn;
    CutLog(g, s, d, 0);
  }

  lemma PointedNow(g: Geometry, s: Sys)
    requires Shape(g, s) && LogInv(g, s) && (s.pc.Pointed? || s.pc.Committing?)
    ensures PointedLog(g, s.disk.log, s.head, s.logged, s.sequence)
  {
    hide Loads, PointedLog, CommitBlock, CommitAt;
  }

  lemma HeadOfPointed(g: Geometry, log: seq<Block>, head: nat, tx: seq<Entry>, sequence: nat)
    requires g.Valid() && |log| == g.maxlen && sequence < U32 && PointedLog(g, log, head, tx, sequence)
    ensures Start(log[0]) == head && Sequence(log[0]) == sequence && head != 0 && CommitAt(g, head, |tx|) < g.maxlen
  {
    hide DescriptorBlock, StaleLog, Start, Sequence, Distinct, Logged;
    CommitIn(g, head, |tx|);
  }

  lemma CutCommitting(g: Geometry, s: Sys, d: Disk)
    requires Inv(g, s) && Crash(s, d) && Mountable(g, d) && s.pc.Committing?
    ensures PointedLog(g, d.log, Start(d.log[0]), s.logged, Sequence(d.log[0]))
  {
    hide Loads, Holds, Freed, Prepared, StaleLog, CommitBlock, Distinct, Writable, Start, Sequence, Overlay, Fits,
      CommitAt, Stale, Torn;
    var c := CommitAt(g, s.head, |s.logged|);
    PointedFits(g, s.disk.log, s.head, s.logged, s.sequence);
    CommitIn(g, s.head, |s.logged|);
    CutLog(g, s, d, c);
    CrashLogSame(s, d, 0);
    CommitIsStale(g, s.sequence);
    StaleAt(g, s.disk.log, s.sequence, s.head, c);
    TornAt(s, d, c);
    StaleTorn(s.disk.log[c], CommitBlock(g, s.sequence), d.log[c], s.sequence);
    PreparedElsewhere(g, s.disk.log, s.head, s.logged, s.sequence, c, d.log[c]);
    StaleElsewhere(g, s.disk.log, s.sequence, s.head, c, d.log[c]);
  }

  lemma StaleAt(g: Geometry, log: seq<Block>, sequence: nat, head: nat, c: nat)
    requires |log| == g.maxlen && StaleLog(g, log, sequence, head) && InLog(g, c) && c != head
    ensures Stale(log[c], sequence)
  {
    hide Stale;
  }

  lemma TornAt(s: Sys, d: Disk, c: nat)
    requires Crash(s, d) && c < |d.log| && c in s.logPending
    ensures Torn(s.disk.log[c], s.logPending[c], d.log[c])
  {
    hide Torn;
  }

  predicate Replays(pc: Pc) {
    pc.Durable? || pc.Released? || pc.Checkpointing? || pc.Checkpointed?
  }

  /** Once the commit block is flushed, the next mount sees all of the transaction, whatever of it
      has been written home. */
  lemma CutAfterCommit(g: Geometry, s: Sys, d: Disk)
    requires Inv(g, s) && Crash(s, d) && Replays(s.pc)
    ensures Mountable(g, d) && New(s, View(g, d))
  {
    hide Loads, Holds, Freed, LogInv, View, CommittedLog, IsCommit, CommitAt, PointedLog;
    CrashMountable(g, s, d);
    CommittedAfterCut(g, s, d);
    CommittedPoints(g, d.log, s.logged, s.sequence, s.head);
    ViewPointed(g, d, s.logged);
  }

  lemma CommittedAfterCut(g: Geometry, s: Sys, d: Disk)
    requires Inv(g, s) && Crash(s, d) && Replays(s.pc)
    ensures CommittedLog(g, d.log, s.logged, s.sequence, s.head)
  {
    hide Loads, Holds, Freed, CommittedLog, Torn, Overlay;
    CutLog(g, s, d, 0);
  }

  lemma CommittedPoints(g: Geometry, log: seq<Block>, tx: seq<Entry>, sequence: nat, head: nat)
    requires g.Valid() && |log| == g.maxlen && CommittedLog(g, log, tx, sequence, head)
    ensures Start(log[0]) != 0 && 1 <= sequence < U32 && Sequence(log[0]) == sequence - 1
    ensures PointedLog(g, log, Start(log[0]), tx, sequence - 1)
    ensures CommitAt(g, Start(log[0]), |tx|) < g.maxlen
    ensures IsCommit(g, log[CommitAt(g, Start(log[0]), |tx|)], sequence - 1)
  {
    hide IsCommit, StaleLog, DescriptorBlock, Start, Sequence, Distinct, CommitAt, Logged, Writable;
  }

  // ---- the cleanup window ------------------------------------------------------------------------

  predicate Window(pc: Pc) {
    pc.Clearing? || pc.Cleared? || pc.Draining?
  }

  /** From the moment the superblock is cleared until the last flush, either the log still replays
      or the mount takes the home blocks as they are. */
  lemma CutInWindow(g: Geometry, s: Sys, d: Disk)
    requires Inv(g, s) && Crash(s, d) && Window(s.pc)
    ensures Mountable(g, d)
    ensures if Start(d.log[0]) == 0 then View(g, d) == d.home else s.pc.Clearing? && New(s, View(g, d))
  {
    hide Loads, Holds, Freed, LogInv, View, CommittedLog, IsCommit, CommitAt, PointedLog, New, Update;
    CrashMountable(g, s, d);
    CrashSuper(g, s, d);
    if s.pc.Clearing? {
      ClearingWrites(g, s);
      UpdateReads(s.disk.log[0], 0, s.sequence, s.head);
      if d.log[0] == s.disk.log[0] { CutUncleared(g, s, d); }
    } else {
      ClearedStart(g, s);
      if 0 in s.logPending { SuperPending(g, s); }
    }
    if Start(d.log[0]) == 0 { ViewEmpty(g, d); }
  }

  lemma CutUncleared(g: Geometry, s: Sys, d: Disk)
    requires Inv(g, s) && Crash(s, d) && Mountable(g, d) && s.pc.Clearing? && d.log[0] == s.disk.log[0]
    ensures Start(d.log[0]) != 0 && New(s, View(g, d))
  {
    hide Loads, Holds, Freed, LogInv, View, CommittedLog, IsCommit, CommitAt, PointedLog, New, Update;
    ClearingWrites(g, s);
    CutLog(g, s, d, 0);
    ClearingCommitted(g, s);
    SameLogBlocks(s.disk.log, d.log);
    CommittedPoints(g, d.log, s.logged, s.sequence, s.head);
    ViewPointed(g, d, s.logged);
    NewFrom(s, View(g, d));
  }

  lemma NewFrom(s: Sys, v: seq<Block>)
    requires !Early(s.pc)
    requires forall i :: 0 <= i < |s.logged| ==> s.logged[i].target < |v| && v[s.logged[i].target] == s.logged[i].image
    ensures New(s, v)
  {}

  lemma SameLogBlocks(x: seq<Block>, y: seq<Block>)
    requires |x| == |y| > 0 && y == Overlay(x, Single(0, y[0])) && y[0] == x[0]
    ensures x == y
  {}

  lemma ClearingCommitted(g: Geometry, s: Sys)
    requires Shape(g, s) && LogInv(g, s) && s.pc.Clearing?
    ensures CommittedLog(g, s.disk.log, s.logged, s.sequence, s.head)
  {
    hide Loads, CommittedLog, Update;
  }

  lemma ClearedStart(g: Geometry, s: Sys)
    requires Shape(g, s) && LogInv(g, s) && (s.pc.Cleared? || s.pc.Draining?)
    ensures Start(s.disk.log[0]) == 0
  {
    hide Loads, StaleLog, Sequence, HeadField;
  }

  /** The guarantee the journal exists for, at this state: every power cut leaves all or nothing. */
  ghost predicate CrashAtomic(g: Geometry, s: Sys) {
    forall d: Disk :: Crash(s, d) ==> Mountable(g, d) && (Old(s, View(g, d)) || New(s, View(g, d)))
  }

  /** Sector k of entry i is changed by the transaction. */
  ghost predicate Differs(tx: seq<Entry>, before: map<nat, Block>, i: nat, k: nat) {
    i < |tx| && k < 8 && tx[i].target in before && Sector(before[tx[i].target], k) != Sector(tx[i].image, k)
  }

  /** The transaction changes at most one sector. */
  ghost predicate OneSector(tx: seq<Entry>, before: map<nat, Block>) {
    forall i: nat, k: nat, j: nat, l: nat :: Differs(tx, before, i, k) && Differs(tx, before, j, l) ==> i == j && k == l
  }

  /** A block on its way home: old or new on the medium, with nothing but the new image written since the last flush. */
  ghost predicate Underway(s: Sys, e: Entry) {
    e.target < |s.disk.home| && e.target in s.before
    && (s.disk.home[e.target] == s.before[e.target] || s.disk.home[e.target] == e.image)
    && forall i :: 0 <= i < |s.homePending| && s.homePending[i].block == e.target ==> s.homePending[i].data == e.image
  }

  ghost predicate AllUnderway(s: Sys) {
    Distinct(Changed(s)) && forall i :: 0 <= i < |Changed(s)| ==> Underway(s, Changed(s)[i])
  }

  lemma FreedUnderway(g: Geometry, s: Sys)
    requires Shape(g, s) && Freed(g, s) && !Holding(s.pc)
    ensures AllUnderway(s) && Changed(s) == s.logged
  {
    hide Loads, Be32, Writable, Distinct;
    forall i | 0 <= i < |s.logged| ensures Underway(s, s.logged[i]) { assert ReleasedOk(g, s, s.logged[i]); }
  }

  /** A changed sector that a power cut can leave new: it is home, or on its way. */
  ghost predicate CanBeNew(s: Sys, i: nat, k: nat) {
    Differs(Changed(s), s.before, i, k) && Changed(s)[i].target < |s.disk.home|
    && (Sector(s.disk.home[Changed(s)[i].target], k) == Sector(Changed(s)[i].image, k)
        || Written(s.homePending, Changed(s)[i].target))
  }

  /** A changed sector that a power cut can leave old: it is not home yet. */
  ghost predicate CanBeOld(s: Sys, i: nat, k: nat) {
    Differs(Changed(s), s.before, i, k) && Changed(s)[i].target < |s.disk.home|
    && Sector(s.disk.home[Changed(s)[i].target], k) == Sector(s.before[Changed(s)[i].target], k)
  }

  /** One changed sector can be new while another one is old. */
  ghost predicate Mixable(s: Sys) {
    exists i: nat, k: nat, j: nat, l: nat :: CanBeNew(s, i, k) && CanBeOld(s, j, l) && (i != j || k != l)
  }

  /** After a cut each sector is its old or its new self, and only where it can be. */
  lemma SectorFate(s: Sys, d: Disk, i: nat, k: nat)
    requires AllUnderway(s) && Crash(s, d) && i < |Changed(s)| && k < 8
    ensures var e := Changed(s)[i];
      e.target < |d.home| && e.target in s.before
      && (Sector(d.home[e.target], k) == Sector(e.image, k) ==>
            CanBeNew(s, i, k) || !Differs(Changed(s), s.before, i, k))
      && (Sector(d.home[e.target], k) != Sector(e.image, k) ==>
            Sector(d.home[e.target], k) == Sector(s.before[e.target], k) && CanBeOld(s, i, k))
  {
    hide Sector, Torn, Distinct, Changed;
    var e := Changed(s)[i];
    assert Underway(s, e);
    assert HomeSector(s, e.target, k, Sector(d.home[e.target], k));
  }

  /** A changed sector that did reach its home. */
  ghost predicate Landed(s: Sys, d: Disk, i: nat, k: nat) {
    Differs(Changed(s), s.before, i, k) && Changed(s)[i].target < |d.home|
    && Sector(d.home[Changed(s)[i].target], k) == Sector(Changed(s)[i].image, k)
  }

  /** When no mixture is possible, the home blocks are all old or all new after any cut. */
  lemma UnmixedHome(s: Sys, d: Disk)
    requires AllUnderway(s) && Crash(s, d) && !Mixable(s)
    ensures Old(s, d.home) || New(s, d.home)
  {
    hide Sector, Torn, Crash, CanBeOld, CanBeNew, AllUnderway, Changed;
    var tx := Changed(s);
    if exists i: nat, k: nat :: Landed(s, d, i, k) {
      var i: nat, k: nat :| Landed(s, d, i, k);
      SectorFate(s, d, i, k);
      forall j | 0 <= j < |tx| ensures tx[j].target < |d.home| && d.home[tx[j].target] == tx[j].image {
        SectorFate(s, d, j, 0);
        forall l: nat | l < 8 ensures Sector(d.home[tx[j].target], l) == Sector(tx[j].image, l) {
          SectorFate(s, d, j, l);
        }
        SectorsDecide(d.home[tx[j].target], tx[j].image);
      }
    } else {
      forall j | 0 <= j < |tx|
        ensures var b := tx[j].target; b in s.before && b < |d.home| && d.home[b] == s.before[b]
      {
        var b := tx[j].target;
        SectorFate(s, d, j, 0);
        forall l: nat | l < 8 ensures Sector(d.home[b], l) == Sector(s.before[b], l) {
          assert !Landed(s, d, j, l);
          SectorFate(s, d, j, l);
        }
        SectorsDecide(d.home[b], s.before[b]);
      }
    }
  }

  function WithSector(before: Block, after: Block, k: nat): (r: Block)
    requires k < 8
    ensures Sector(r, k) == Sector(after, k)
    ensures forall l: nat :: l < 8 && l != k ==> Sector(r, l) == Sector(before, l)
  {
    Patch(before, 512 * k, Sector(after, k))
  }

  /** The home blocks when, of all writes since the last flush, exactly sector k of entry i landed. */
  ghost function OneLanded(s: Sys, i: nat, k: nat): seq<Block>
    requires i < |Changed(s)| && k < 8 && Changed(s)[i].target < |s.disk.home|
  {
    var e := Changed(s)[i];
    s.disk.home[e.target := WithSector(s.disk.home[e.target], e.image, k)]
  }

  /** A cut can leave them, beside every log that a cut can leave. */
  lemma OneLandedIsCrash(s: Sys, i: nat, k: nat, log: seq<Block>)
    requires AllUnderway(s) && CanBeNew(s, i, k) && Crash(s, Disk(s.disk.home, log))
    ensures Crash(s, Disk(OneLanded(s, i, k), log))
  {
    hide Sector, Distinct, WithSector, Torn, Changed;
    var e := Changed(s)[i];
    var home := OneLanded(s, i, k);
    assert Underway(s, e);
    forall b: nat, l: nat | b < |home| && l < 8 ensures HomeSector(s, b, l, Sector(home[b], l)) {
      if b == e.target && l == k && Sector(s.disk.home[b], l) != Sector(e.image, l) {
        var n :| 0 <= n < |s.homePending| && s.homePending[n].block == e.target;
        assert Sector(home[b], l) == Sector(s.homePending[n].data, l);
      }
    }
  }

  /** They show neither the old nor the new state when another changed sector is old. */
  lemma OneLandedIsMixed(s: Sys, i: nat, k: nat, j: nat, l: nat)
    requires AllUnderway(s) && CanBeNew(s, i, k) && CanBeOld(s, j, l) && (i != j || k != l)
    ensures !Old(s, OneLanded(s, i, k)) && !New(s, OneLanded(s, i, k))
  {
    hide Sector, WithSector, Changed;
    var home, e, f := OneLanded(s, i, k), Changed(s)[i], Changed(s)[j];
    assert Sector(home[e.target], k) == Sector(e.image, k);
    if i != j { DistinctAt(Changed(s), i, j); }
    assert Sector(home[f.target], l) == Sector(s.before[f.target], l);
  }

  lemma DistinctAt(tx: seq<Entry>, i: nat, j: nat)
    requires Distinct(tx) && i < |tx| && j < |tx| && i != j
    ensures tx[i].target != tx[j].target
  {
  }

  lemma NothingLanded(s: Sys)
    ensures Crash(s, s.disk)
  {
    hide Sector;
  }

  /** In the window a log that a cut can leave says that there is nothing to replay. */
  lemma WindowEmpty(g: Geometry, s: Sys) returns (log: seq<Block>)
    requires Inv(g, s) && Window(s.pc)
    ensures Crash(s, Disk(s.disk.home, log)) && |log| > 0 && Start(log[0]) == 0
  {
    hide Loads, Holds, LogInv, Freed, Sector, Update, Start;
    log := Overlay(s.disk.log, s.logPending);
    if s.pc.Clearing? {
      ClearingWrites(g, s);
      UpdateReads(s.disk.log[0], 0, s.sequence, s.head);
    } else {
      ClearedStart(g, s);
      if 0 in s.logPending { SuperPending(g, s); }
    }
  }

  /** A possible mixture is a cut that shows neither the old nor the new state. */
  lemma MixtureTears(g: Geometry, s: Sys, i: nat, k: nat, j: nat, l: nat) returns (d: Disk)
    requires Inv(g, s) && Window(s.pc) && CanBeNew(s, i, k) && CanBeOld(s, j, l) && (i != j || k != l)
    ensures Crash(s, d) && Mountable(g, d) && !Old(s, View(g, d)) && !New(s, View(g, d))
  {
    hide Loads, Holds, LogInv, Freed, View, Crash, Mountable, AllUnderway, CanBeOld, Old, New, Start, Sector;
    FreedUnderway(g, s);
    var log := WindowEmpty(g, s);
    OneLandedIsCrash(s, i, k, log);
    OneLandedIsMixed(s, i, k, j, l);
    d := Disk(OneLanded(s, i, k), log);
    CutInWindow(g, s, d);
  }

  /** From the write that clears the superblock to the last flush, a power cut is all or nothing if
      and only if no changed sector can be new while another one is old. */
  lemma WindowAtomicIff(g: Geometry, s: Sys)
    requires Inv(g, s) && Window(s.pc)
    ensures CrashAtomic(g, s) <==> !Mixable(s)
  {
    hide Inv, Crash, CanBeNew, CanBeOld, Old, New, View, Mountable;
    if Mixable(s) {
      var i: nat, k: nat, j: nat, l: nat :| CanBeNew(s, i, k) && CanBeOld(s, j, l) && (i != j || k != l);
      var d := MixtureTears(g, s, i, k, j, l);
    } else {
      forall d: Disk | Crash(s, d) ensures Mountable(g, d) && (Old(s, View(g, d)) || New(s, View(g, d))) {
        UnmixedCut(g, s, d);
      }
    }
  }

  lemma UnmixedCut(g: Geometry, s: Sys, d: Disk)
    requires Inv(g, s) && Window(s.pc) && !Mixable(s) && Crash(s, d)
    ensures Mountable(g, d) && (Old(s, View(g, d)) || New(s, View(g, d)))
  {
    hide Crash, Mixable, Old, New, View, Shape, Holds, Freed, LogInv, Mountable, AllUnderway;
    CutInWindow(g, s, d);
    FreedUnderway(g, s);
    UnmixedHome(s, d);
  }

  /** A transaction that changes at most one sector is all or nothing throughout the window. */
  lemma OneSectorIsAtomic(g: Geometry, s: Sys)
    requires Inv(g, s) && Window(s.pc) && OneSector(s.logged, s.before)
    ensures CrashAtomic(g, s)
  {
    hide Inv, CrashAtomic, Differs;
    WindowAtomicIff(g, s);
  }

  /** Nothing of the transaction has reached its home yet, and all of it is on its way. */
  ghost predicate AllOnTheWay(s: Sys) {
    forall i :: 0 <= i < |s.logged| ==>
      var b := s.logged[i].target;
      b < |s.disk.home| && b in s.before && s.disk.home[b] == s.before[b] && Written(s.homePending, b)
  }

  /** With everything on its way, one sector is also the most a transaction may change. */
  lemma DrainingAtomicIff(g: Geometry, s: Sys)
    requires Inv(g, s) && Window(s.pc) && AllOnTheWay(s)
    ensures CrashAtomic(g, s) <==> OneSector(s.logged, s.before)
  {
    hide Inv, CrashAtomic, Sector;
    WindowAtomicIff(g, s);
    if !OneSector(s.logged, s.before) {
      var i: nat, k: nat, j: nat, l: nat :|
        Differs(s.logged, s.before, i, k) && Differs(s.logged, s.before, j, l) && (i != j || k != l);
      assert CanBeNew(s, i, k) && CanBeOld(s, j, l);
    }
  }

  /** At every other point of the commit the guarantee holds outright. */
  lemma AtomicOutsideWindow(g: Geometry, s: Sys)
    requires Inv(g, s) && !Window(s.pc)
    ensures CrashAtomic(g, s)
  {
    hide Inv, Crash, Old, New, View, Mountable;
    forall d: Disk | Crash(s, d) ensures Mountable(g, d) && (Old(s, View(g, d)) || New(s, View(g, d))) {
      if Unpointed(s.pc) {
        CutBeforePointing(g, s, d);
      } else if Replays(s.pc) {
        CutAfterCommit(g, s, d);
      } else {
        CutBeforeCommit(g, s, d);
      }
    }
  }
}
