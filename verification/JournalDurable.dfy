/** What a returned commit is worth: its images outlive every later power cut, and every mount succeeds. */
module JournalDurable {
  import opened Bytes
  import opened JournalFormat
  import opened JournalRecovery
  import opened JournalSuper
  import opened JournalLog
  import opened JournalCommit
  import opened JournalSteps
  import opened JournalCrash
  import opened JournalResume
  import JournalPasses

  // ---- what a mount finds after a cut ---------------------------------------------------------

  /** Nothing, or the transaction that was being committed. */
  lemma PointedOrEmpty(g: Geometry, s: Sys, d: Disk)
    requires Inv(g, s) && Crash(s, d)
    ensures Mountable(g, d)
    ensures Start(d.log[0]) == 0 || PointedLog(g, d.log, Start(d.log[0]), s.logged, Sequence(d.log[0]))
  {
    hide Loads, Holds, Freed, LogInv, Crash, PointedLog, CommittedLog, View, Old, New, IsCommit, CommitAt;
    CrashMountable(g, s, d);
    if Unpointed(s.pc) {
      CutBeforePointing(g, s, d);
    } else if Replays(s.pc) {
      CommittedAfterCut(g, s, d);
      CommittedPoints(g, d.log, s.logged, s.sequence, s.head);
    } else if Window(s.pc) {
      PointedInWindow(g, s, d);
    } else {
      PointedAfterCut(g, s, d);
    }
  }

  lemma PointedInWindow(g: Geometry, s: Sys, d: Disk)
    requires Inv(g, s) && Crash(s, d) && Window(s.pc) && Mountable(g, d)
    ensures Start(d.log[0]) == 0 || PointedLog(g, d.log, Start(d.log[0]), s.logged, Sequence(d.log[0]))
  {
    hide Loads, Holds, Freed, LogInv, Crash, PointedLog, CommittedLog, View, New, Update, IsCommit, CommitAt, Start,
      Sequence;
    CutInWindow(g, s, d);
    if Start(d.log[0]) != 0 {
      UnclearedLog(g, s, d);
      ClearingCommitted(g, s);
      CommittedPoints(g, d.log, s.logged, s.sequence, s.head);
    }
  }

  lemma UnclearedLog(g: Geometry, s: Sys, d: Disk)
    requires Inv(g, s) && Crash(s, d) && s.pc.Clearing? && Start(d.log[0]) != 0
    ensures d.log == s.disk.log
  {
    hide Loads, Holds, Freed, LogInv, Crash, Update, Start, Overlay;
    CrashSize(s, d);
    CrashSuper(g, s, d);
    ClearingWrites(g, s);
    UpdateReads(s.disk.log[0], 0, s.sequence, s.head);
    CutLog(g, s, d, 0);
    SameLogBlocks(s.disk.log, d.log);
  }

  /** The waiting transactions are none, or exactly that one. */
  lemma WaitingIs(g: Geometry, s: Sys, d: Disk)
    requires Inv(g, s) && Crash(s, d)
    ensures Mountable(g, d)
    ensures Waiting(g, d) == []
      || (Loggable(g, s.logged) && Distinct(s.logged)
          && exists next: nat :: Waiting(g, d) == [Tx(Sequence(d.log[0]), Writes(s.logged), next)])
  {
    hide Inv, Crash, Loads, Committed, IsCommit, StaleLog, Prepared, Distinct, Fits;
    PointedOrEmpty(g, s, d);
    if Start(d.log[0]) != 0 {
      ScanPrepared(g, d.log, Start(d.log[0]), s.logged, Sequence(d.log[0]));
    }
  }

  /** Recovery fails on an out-of-range revoke only, and no power cut can leave one. */
  lemma CutRecovers(g: Geometry, s: Sys, d: Disk)
    requires Inv(g, s) && Crash(s, d)
    ensures Mountable(g, d) && JournalPasses.AllRevokesInRange(Waiting(g, d), g.fsBlocks)
  {
    hide Inv, Crash, Waiting, Mountable, Distinct;
    WaitingIs(g, s, d);
    assert forall e :: e in Writes(s.logged) ==> !e.Revoke?;
  }

  /** The mount that follows a power cut: recovery returns success and the filesystem it leaves is the view. */
  method MountAfterCut(g: Geometry, d: Disk, ghost s: Sys) returns (ok: bool, home: seq<Block>)
    requires Inv(g, s) && Crash(s, d)
    ensures ok && Mountable(g, d) && home == View(g, d)
  {
    hide Inv, Crash, Loads, Committed, JournalPasses.AllRevokesInRange;
    CutRecovers(g, s, d);
    if Start(d.log[0]) == 0 {
      ViewEmpty(g, d);
      return true, d.home;
    }
    StartInLog(g, d);
    var r := new JournalPasses.Recovery(g, d.log, Start(d.log[0]), Sequence(d.log[0]), d.home);
    ok := r.Recover();
    home := r.home;
  }

  lemma StartInLog(g: Geometry, d: Disk)
    requires Mountable(g, d) && Start(d.log[0]) != 0
    ensures g.first <= Start(d.log[0]) < g.maxlen
  {
    hide SuperSumOk;
  }

  // ---- blocks that nobody writes ---------------------------------------------------------------------

  /** The block holds x on the medium and nothing else of it is anywhere. */
  ghost predicate Rests(s: Sys, b: nat, x: Block) {
    b < |s.disk.home| && s.disk.home[b] == x && !Written(s.homePending, b)
    && b !in s.cache && b !in s.held && b !in s.tx && !Targets(s.logged, b)
  }

  /** Recovery leaves such a block alone. */
  lemma RestsInView(g: Geometry, s: Sys, d: Disk, b: nat, x: Block)
    requires Inv(g, s) && Crash(s, d) && Rests(s, b, x)
    ensures Mountable(g, d) && b < |View(g, d)| && View(g, d)[b] == x
  {
    hide Holds, Freed, LogInv, Loads, Crash, Waiting, Distinct;
    WaitingIs(g, s, d);
    CrashSize(s, d);
    CrashHomeSame(s, d, b);
    if Waiting(g, d) == [] {
      NothingWaits(g, d);
    } else {
      var next: nat :| Waiting(g, d) == [Tx(Sequence(d.log[0]), Writes(s.logged), next)];
      ReplayOne(g, d.home, s.logged, Sequence(d.log[0]), next);
    }
  }

  lemma NothingWaits(g: Geometry, d: Disk)
    requires Mountable(g, d) && Waiting(g, d) == []
    ensures View(g, d) == d.home
  {
    hide Waiting, Loads;
  }

  predicate Stores(l: Label, b: nat) {
    (l.MetaWrite? || l.DataWrite?) && l.block == b
  }

  lemma StepRests(g: Geometry, s: Sys, l: Label, b: nat, x: Block)
    requires Sound(g, s) && Enabled(g, s, l) && Rests(s, b, x) && !Stores(l, b)
    ensures Rests(Take(g, s, l), b, x)
  {
    hide TakeTick, Loads, Fits, Writable;
    match l
    case Tick => TickRests(g, s, b, x);
    case Evict(k, count) =>
      RunWritten(s.cache, k, count);
      WrittenConcat(s.homePending, RunPages(s.cache, k, count), b);
    case Sync(pages) => WrittenConcat(s.homePending, pages, b);
    case Checkpoint(pages) => WrittenConcat(s.homePending, pages, b);
    case _ =>
  }

  /** The steps that end in a device flush. */
  predicate Flushes(pc: Pc) {
    pc.Ordering? || pc.Describing? || pc.Copying? || pc.Pointing? || pc.Committing? || pc.Checkpointing?
    || pc.Clearing? || pc.Draining?
  }

  lemma TickHome(g: Geometry, s: Sys)
    requires Sound(g, s) && Enabled(g, s, Tick)
    ensures TakeTick(g, s).disk.home == if Flushes(s.pc) then Settle(s.disk.home, s.homePending) else s.disk.home
    ensures TakeTick(g, s).homePending == if Flushes(s.pc) then [] else s.homePending
  {
    hide DescriptorBlock, CommitBlock, Update, Copies, Settle, Overlay, CommitAt, Entries, Writable, Single, Loads,
      InLog;
  }

  lemma TickCache(g: Geometry, s: Sys)
    requires Sound(g, s) && Enabled(g, s, Tick)
    ensures TakeTick(g, s).cache == s.cache
  {
    hide DescriptorBlock, CommitBlock, Update, Copies, Settle, Overlay, CommitAt, Entries, Writable, Single, Loads,
      InLog;
  }

  lemma TickHolds(g: Geometry, s: Sys)
    requires Sound(g, s) && Enabled(g, s, Tick)
    ensures TakeTick(g, s).held == if s.pc.Durable? then {} else s.held
    ensures TakeTick(g, s).tx == if s.pc.Durable? then [] else s.tx
  {
    hide DescriptorBlock, CommitBlock, Update, Copies, Settle, Overlay, CommitAt, Entries, Writable, Single, Loads,
      InLog;
  }

  lemma TickLogged(g: Geometry, s: Sys)
    requires Sound(g, s) && Enabled(g, s, Tick)
    ensures TakeTick(g, s).logged
      == if s.pc.Ordered? then Entries(s.cache, s.tx) else if s.pc.Draining? then [] else s.logged
  {
    hide DescriptorBlock, CommitBlock, Update, Copies, Settle, Overlay, CommitAt, Entries, Writable, Single;
  }

  lemma TickRests(g: Geometry, s: Sys, b: nat, x: Block)
    requires Sound(g, s) && Enabled(g, s, Tick) && Rests(s, b, x)
    ensures Rests(TakeTick(g, s), b, x)
  {
    hide TakeTick, Settle, Sound;
    TickHome(g, s);
    TickCache(g, s);
    TickHolds(g, s);
    TickLogged(g, s);
    SettleAway(s.disk.home, s.homePending, b);
  }

  // ---- whole histories ---------------------------------------------------------------------------------

  /** No event of the history writes the block. */
  ghost predicate Spares(events: seq<Happening>, b: nat) {
    forall i :: 0 <= i < |events| && events[i].Step? ==> !Stores(events[i].step, b)
  }

  lemma CutRests(g: Geometry, s: Sys, d: Disk, b: nat, x: Block)
    requires Inv(g, s) && Crash(s, d) && Rests(s, b, x) && Resumable(g, d) && EndHead(g, d) < U32
    ensures Rests(Resume(g, d), b, x)
  {
    hide Inv, Crash, View, EndSequence, EndHead, StaleLog, Recovered, Loads;
    RestsInView(g, s, d, b, x);
    ResumeInv(g, d);
  }

  lemma {:induction false} HistoryRests(g: Geometry, s: Sys, events: seq<Happening>, t: Sys, b: nat, x: Block)
    requires Inv(g, s) && History(g, s, events, t) && Rests(s, b, x) && Spares(events, b)
    ensures Inv(g, t) && Rests(t, b, x)
    decreases |events|
  {
    hide Inv, Sound, Enabled, Take, Crash, Mountable, StaleLog, EndSequence, EndHead, Resume, Rests, Stores;
    if events != [] {
      var rest := events[1..];
      assert Spares(rest, b) by {
        forall i | 0 <= i < |rest| && rest[i].Step? ensures !Stores(rest[i].step, b) {
          assert rest[i] == events[i + 1];
        }
      }
      match events[0]
      case Step(l) =>
        assert !Stores(events[0].step, b);
        StepKeeps(g, s, l);
        StepRests(g, s, l, b, x);
        HistoryRests(g, Take(g, s, l), rest, t, b, x);
      case Cut(d) =>
        ResumeInv(g, d);
        CutRests(g, s, d, b, x);
        HistoryRests(g, Resume(g, d), rest, t, b, x);
    }
  }

  /** An image of a commit that has returned is what every later mount shows, over any history of further commits, page
      writes, power cuts and recoveries, until its block is written again. */
  lemma ReturnedSurvives(g: Geometry, s: Sys, i: nat, events: seq<Happening>, t: Sys, d: Disk)
    requires Inv(g, s) && Sound(g, s) && s.pc.Draining? && i < |s.logged|
    requires History(g, TakeTick(g, s), events, t) && Spares(events, s.logged[i].target) && Crash(t, d)
    ensures Mountable(g, d)
    ensures var e := s.logged[i]; e.target < |View(g, d)| && View(g, d)[e.target] == e.image
  {
    hide Inv, Sound, History, TakeTick, Crash, View, Mountable, Spares;
    var e := s.logged[i];
    CommitReturns(g, s, i);
    StepKeeps(g, s, Tick);
    HistoryRests(g, TakeTick(g, s), events, t, e.target, e.image);
    RestsInView(g, t, d, e.target, e.image);
  }
}
