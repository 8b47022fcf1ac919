/** Mounting after a power cut, resuming the writer, and histories with any number of cuts. */
module JournalResume {
  import opened Bytes
  import opened JournalFormat
  import opened JournalRecovery
  import opened JournalSuper
  import opened JournalLog
  import opened JournalCommit
  import opened JournalSteps
  import opened JournalCrash

  // ---- recovery may itself be cut short ------------------------------------------------

  /** A disk in the middle of recovery: same log, and only replayed blocks may differ. */
  ghost predicate PartlyReplayed(g: Geometry, d: Disk, e: Disk)
    requires Mountable(g, d)
  {
    e.log == d.log && |e.home| == |d.home|
    && forall b :: 0 <= b < |d.home| && !Overwrites(Waiting(g, d), 0, b) ==> e.home[b] == d.home[b]
  }

  /** A power cut during recovery changes nothing: the next mount ends in the same place, however
      much of the replay had reached the medium and however torn. */
  lemma RecoveryRestarts(g: Geometry, d: Disk, e: Disk)
    requires Mountable(g, d) && PartlyReplayed(g, d, e)
    ensures Mountable(g, e) && View(g, e) == View(g, d)
  {
    hide Loads, Overwrites, Committed;
    WaitingReplayable(g, d);
    ReplayAgain(d.home, e.home, Waiting(g, d));
  }

  // ---- what the mount leaves ---------------------------------------------------------------

  ghost function EndSequence(g: Geometry, d: Disk): nat
    requires Mountable(g, d)
  {
    Sequence(d.log[0]) + |Waiting(g, d)|
  }

  ghost function EndHead(g: Geometry, d: Disk): nat
    requires Mountable(g, d)
  {
    var w := Waiting(g, d);
    if Start(d.log[0]) == 0 then FixHead(g, HeadField(d.log[0]))
    else if w == [] then Start(d.log[0]) else w[|w| - 1].next
  }

  /** After recovery: replayed blocks home, log marked empty. */
  ghost function Recovered(g: Geometry, d: Disk): Disk
    requires Mountable(g, d) && EndSequence(g, d) < U32 && EndHead(g, d) < U32
  {
    if Start(d.log[0]) == 0 then d
    else Disk(View(g, d), Overlay(d.log, Single(0, Update(d.log[0], 0, EndSequence(g, d), EndHead(g, d)))))
  }

  /** The writer as ext4_journal_open finds it. */
  ghost function Resume(g: Geometry, d: Disk): Sys
    requires Mountable(g, d) && EndSequence(g, d) < U32 && EndHead(g, d) < U32
  {
    Sys(Recovered(g, d), [], map[], map[], {}, [], [], EndSequence(g, d), EndHead(g, d), Idle, map[])
  }

  /** Marking the log empty after the replayed blocks are durable cannot lose anything. */
  lemma MarkEmptyIsSafe(g: Geometry, d: Disk, e: Disk)
    requires Mountable(g, d) && EndSequence(g, d) < U32 && EndHead(g, d) < U32
    requires Mountable(g, e) && e.home == View(g, d) && (e.log == d.log || e == Recovered(g, d))
    ensures View(g, e) == View(g, d)
  {
    hide Loads, Overwrites, Committed, Update;
    WaitingReplayable(g, d);
    if e.log == d.log {
      ReplayAgain(d.home, d.home, Waiting(g, d));
    } else {
      UpdateReads(d.log[0], 0, EndSequence(g, d), EndHead(g, d));
      ViewEmpty(g, e);
    }
  }

  ghost predicate Resumable(g: Geometry, d: Disk) {
    Mountable(g, d) && EndSequence(g, d) < U32 && InLog(g, EndHead(g, d))
    && StaleLog(g, d.log, EndSequence(g, d), EndHead(g, d))
  }

  lemma ResumeInv(g: Geometry, d: Disk)
    requires Resumable(g, d)
    ensures EndHead(g, d) < U32 && Inv(g, Resume(g, d)) && Resume(g, d).disk.home == View(g, d)
  {
    hide Loads, Committed, Update, StaleLog, View, EmptyLog, EndSequence, EndHead, Waiting;
    RecoveredLog(g, d);
    if Start(d.log[0]) == 0 { ViewEmpty(g, d); }
    ResumeLog(g, Resume(g, d));
  }

  lemma RecoveredLog(g: Geometry, d: Disk)
    requires Resumable(g, d)
    ensures EndHead(g, d) < U32 && |Recovered(g, d).log| == g.maxlen && Loads(g, Recovered(g, d).log[0])
    ensures EmptyLog(g, Recovered(g, d).log, EndSequence(g, d), EndHead(g, d))
  {
    hide Loads, Committed, Update, StaleLog, View, Start, Sequence, HeadField;
    var q, h := EndSequence(g, d), EndHead(g, d);
    if Start(d.log[0]) != 0 {
      UpdateReads(d.log[0], 0, q, h);
      UpdateLoads(g, d.log[0], 0, q, h);
      StaleElsewhere(g, d.log, q, h, 0, Update(d.log[0], 0, q, h));
    }
  }

  lemma ResumeLog(g: Geometry, s: Sys)
    requires Shape(g, s) && s.pc.Idle? && s.logPending == map[] && s.tx == [] && s.held == {} && s.logged == []
    requires EmptyLog(g, s.disk.log, s.sequence, s.head)
    ensures Inv(g, s)
  {
    hide Loads, EmptyLog;
  }

  // ---- every power cut leaves something the writer can resume from ---------------------------

  /** While the log is being filled, torn blocks stay unmistakable. */
  lemma CutKeepsStale(g: Geometry, s: Sys, d: Disk)
    requires Inv(g, s) && Crash(s, d) && (Unpointed(s.pc) || s.pc.Pointing? || s.pc.Cleared? || s.pc.Draining?)
    ensures StaleLog(g, d.log, s.sequence, s.head)
  {
    hide Loads, Holds, Freed, LogInv, Torn, Stale, Crash;
    CrashSize(s, d);
    forall i | g.first <= i < g.maxlen && i != s.head ensures Stale(d.log[i], s.sequence) {
      PendingStale(g, s, i);
      if i in s.logPending {
        TornAt(s, d, i);
        StaleTorn(s.disk.log[i], s.logPending[i], d.log[i], s.sequence);
      } else {
        CrashLogSame(s, d, i);
      }
    }
  }

  lemma CrashSize(s: Sys, d: Disk)
    requires Crash(s, d)
    ensures |d.log| == |s.disk.log| && |d.home| == |s.disk.home|
  {
    hide Torn;
  }

  lemma PendingStale(g: Geometry, s: Sys, i: nat)
    requires Inv(g, s) && (Unpointed(s.pc) || s.pc.Pointing? || s.pc.Cleared? || s.pc.Draining?)
    requires InLog(g, i) && i != s.head
    ensures Stale(s.disk.log[i], s.sequence) && (i in s.logPending ==> Stale(s.logPending[i], s.sequence))
  {
    hide Loads, Holds, Freed, LogInv, Stale;
    EmptyNow(g, s);
    StaleAt(g, s.disk.log, s.sequence, s.head, i);
    if i in s.logPending {
      OnlyCopies(g, s, i);
      LoggedFacts(g, s);
      CopyIsPlain(g, s, i);
    }
  }

  lemma EmptyNow(g: Geometry, s: Sys)
    requires Shape(g, s) && LogInv(g, s) && (Unpointed(s.pc) || s.pc.Pointing? || s.pc.Cleared? || s.pc.Draining?)
    ensures StaleLog(g, s.disk.log, s.sequence, s.head) && Start(s.disk.log[0]) == 0
    ensures Sequence(s.disk.log[0]) == s.sequence && FixHead(g, HeadField(s.disk.log[0])) == s.head
  {
    hide Loads, StaleLog, Start, Sequence, HeadField, DescriptorBlock, Copies, Prepared, Update, Writable, Distinct;
  }

  lemma OnlyCopies(g: Geometry, s: Sys, i: nat)
    requires Shape(g, s) && LogInv(g, s) && (Unpointed(s.pc) || s.pc.Pointing? || s.pc.Cleared? || s.pc.Draining?)
    requires InLog(g, i) && i != s.head && i in s.logPending
    ensures s.pc.Copying? && Writable(g, s.logged) && s.logPending == Copies(g, g.Advance(s.head), s.logged)
  {
    hide Loads, EmptyLog, DescriptorBlock, Copies, Prepared, Update, Writable, Distinct;
  }

  lemma CopyIsPlain(g: Geometry, s: Sys, i: nat)
    requires g.Valid() && InLog(g, s.head) && Writable(g, s.logged) && PlainImages(s.logged)
    requires s.logPending == Copies(g, g.Advance(s.head), s.logged) && i in s.logPending
    ensures Stale(s.logPending[i], s.sequence)
  {
    var at := g.Advance(s.head);
    CopiesAt(g, at, s.logged);
    var k: nat :| k < |s.logged| && i == AdvanceBy(g, at, k) && s.logPending[i] == s.logged[k].image;
    assert s.logged[k] in s.logged;
  }

  /** A pointed-at transaction resumes before or after itself. */
  lemma ResumePointed(g: Geometry, d: Disk, tx: seq<Entry>)
    requires Mountable(g, d) && Start(d.log[0]) != 0
    requires PointedLog(g, d.log, Start(d.log[0]), tx, Sequence(d.log[0]))
    ensures Resumable(g, d)
  {
    hide Loads, Committed, IsCommit, StaleLog, DescriptorBlock, Distinct, Logged, Writable, CommitAt;
    var h, q := Start(d.log[0]), Sequence(d.log[0]);
    ScanPrepared(g, d.log, h, tx, q);
    AllOlder(g, d.log, h, tx, q, g.Advance(CommitAt(g, h, |tx|)));
  }

  /** After any power cut of any running commit, recovery succeeds and the writer resumes from a
      good state that shows exactly the recovered filesystem. */
  lemma CutResumes(g: Geometry, s: Sys, d: Disk)
    requires Inv(g, s) && Crash(s, d)
    ensures Resumable(g, d)
  {
    hide Loads, Holds, Freed, LogInv, Crash, Mountable, Resumable, PointedLog, CommittedLog;
    CrashMountable(g, s, d);
    if Unpointed(s.pc) || s.pc.Cleared? || s.pc.Draining? {
      ResumeEmpty(g, s, d);
    } else if Replays(s.pc) || s.pc.Clearing? {
      ResumeCommitted(g, s, d);
    } else {
      ResumeRunning(g, s, d);
    }
  }

  lemma ResumeEmpty(g: Geometry, s: Sys, d: Disk)
    requires Inv(g, s) && Crash(s, d) && Mountable(g, d)
    requires Unpointed(s.pc) || s.pc.Pointing? || s.pc.Cleared? || s.pc.Draining?
    requires d.log[0] == s.disk.log[0] || !s.pc.Pointing?
    ensures Resumable(g, d)
  {
    hide Loads, Holds, Freed, LogInv, Crash, StaleLog, Start, Sequence, HeadField, Committed;
    CutKeepsStale(g, s, d);
    EmptyNow(g, s);
    CrashSuper(g, s, d);
    if 0 in s.logPending { SuperPending(g, s); }
  }

  lemma ResumeRunning(g: Geometry, s: Sys, d: Disk)
    requires Inv(g, s) && Crash(s, d) && Mountable(g, d) && (s.pc.Pointing? || s.pc.Pointed? || s.pc.Committing?)
    ensures Resumable(g, d)
  {
    hide Loads, Holds, Freed, LogInv, Crash, Mountable, Resumable, PointedLog;
    CrashSize(s, d);
    PointedAfterCut(g, s, d);
    if Start(d.log[0]) != 0 {
      ResumePointed(g, d, s.logged);
    } else {
      NotPointed(g, s, d);
      ResumeEmpty(g, s, d);
    }
  }

  lemma NotPointed(g: Geometry, s: Sys, d: Disk)
    requires Inv(g, s) && Crash(s, d) && Mountable(g, d) && (s.pc.Pointing? || s.pc.Pointed? || s.pc.Committing?)
      && Start(d.log[0]) == 0
    ensures s.pc.Pointing? && d.log[0] == s.disk.log[0]
  {
    hide Loads, Holds, Freed, LogInv, Crash, PointedLog, Update, Start;
    CrashSuper(g, s, d);
    if s.pc.Pointing? {
      PointingWrites(g, s);
      UpdateReads(s.disk.log[0], s.head, s.sequence, s.head);
    } else {
      if 0 in s.logPending { SuperPending(g, s); }
      PointedNow(g, s);
      HeadOfPointed(g, s.disk.log, s.head, s.logged, s.sequence);
    }
  }

  lemma ResumeCommitted(g: Geometry, s: Sys, d: Disk)
    requires Inv(g, s) && Crash(s, d) && Mountable(g, d) && (Replays(s.pc) || s.pc.Clearing?)
    ensures Resumable(g, d)
  {
    hide Loads, Holds, Freed, LogInv, Crash, Mountable, Resumable, PointedLog, CommittedLog, Update, IsCommit, CommitAt;
    CrashSize(s, d);
    if s.pc.Clearing? {
      ClearingWrites(g, s);
      ClearingCommitted(g, s);
      CrashSuper(g, s, d);
      CutLog(g, s, d, 0);
      if d.log[0] == s.disk.log[0] {
        SameLogBlocks(s.disk.log, d.log);
      } else {
        ClearedLog(g, s.disk.log, s.logged, s.sequence, s.head);
        EmptyResumes(g, d, s.sequence, s.head);
        return;
      }
    } else {
      CommittedAfterCut(g, s, d);
    }
    CommittedPoints(g, d.log, s.logged, s.sequence, s.head);
    ResumePointed(g, d, s.logged);
  }

  lemma EmptyResumes(g: Geometry, d: Disk, sequence: nat, head: nat)
    requires Mountable(g, d) && EmptyLog(g, d.log, sequence, head) && InLog(g, head) && sequence < U32
    ensures Resumable(g, d)
  {
    hide Loads, StaleLog, Start, Sequence, HeadField, Committed;
  }

  // ---- histories with power cuts ---------------------------------------------------------------

  datatype Happening = Step(step: Label) | Cut(disk: Disk)

  /** t is reached from s by steps and power cuts, each cut followed by a mount. */
  ghost predicate History(g: Geometry, s: Sys, events: seq<Happening>, t: Sys)
    decreases |events|
  {
    if events == [] then s == t
    else match events[0]
      case Step(l) => Sound(g, s) && Enabled(g, s, l) && History(g, Take(g, s, l), events[1..], t)
      case Cut(d) => Crash(s, d) && Resumable(g, d) && EndHead(g, d) < U32 && History(g, Resume(g, d), events[1..], t)
  }

  lemma {:induction false} HistoryKeeps(g: Geometry, s: Sys, events: seq<Happening>, t: Sys)
    requires Inv(g, s) && History(g, s, events, t)
    ensures Inv(g, t)
    decreases |events|
  {
    hide Inv, Sound, Enabled, Take, Crash, Mountable, StaleLog, EndSequence, EndHead, Resume;
    if events != [] {
      match events[0]
      case Step(l) =>
        StepKeeps(g, s, l);
        HistoryKeeps(g, Take(g, s, l), events[1..], t);
      case Cut(d) =>
        ResumeInv(g, d);
        HistoryKeeps(g, Resume(g, d), events[1..], t);
    }
  }

  /** Crash safety over every history of transactions, cache write-backs and earlier power cuts:
      outside the cleanup window a power cut leaves all of the current transaction or none. */
  lemma HistoryIsAtomic(g: Geometry, s: Sys, events: seq<Happening>, t: Sys)
    requires Inv(g, s) && History(g, s, events, t) && !Window(t.pc)
    ensures CrashAtomic(g, t)
  {
    hide Inv, History, CrashAtomic;
    HistoryKeeps(g, s, events, t);
    AtomicOutsideWindow(g, t);
  }

  /** A new journal, with nothing in its log that looks like a journal block, is a good start. */
  lemma FreshJournal(g: Geometry, d: Disk)
    requires Mountable(g, d) && Start(d.log[0]) == 0
    requires forall i :: g.first <= i < g.maxlen ==> Be32(d.log[i], 0) != MAGIC
    ensures Resumable(g, d) && EndHead(g, d) < U32 && Inv(g, Resume(g, d))
  {
    hide Loads, Start, Sequence, HeadField, Be32;
    ResumeInv(g, d);
  }

  // ---- what a finished commit has achieved -------------------------------------------------------

  /** When the commit returns, every image of its transaction is on the medium, and nothing of it is left anywhere
      else. */
  lemma CommitReturns(g: Geometry, s: Sys, i: nat)
    requires Inv(g, s) && Sound(g, s) && s.pc.Draining? && i < |s.logged|
    ensures var t, e := TakeTick(g, s), s.logged[i];
      t.pc.Idle? && e.target < |t.disk.home| && t.disk.home[e.target] == e.image
      && e.target !in t.cache && t.homePending == [] && t.logged == [] && t.tx == [] && t.held == {}
  {
    hide Loads, LogInv, Be32, Writable, Overlay;
    var e := s.logged[i];
    assert ReleasedOk(g, s, e);
    SettleSame(s.disk.home, s.homePending, e.target, e.image);
  }

  lemma {:induction false} SettleConcat(home: seq<Block>, p: seq<Page>, q: seq<Page>)
    ensures Settle(home, p + q) == Settle(Settle(home, p), q)
    decreases |q|
  {
    if q == [] {
      assert p + q == p;
    } else {
      assert (p + q)[..|p + q| - 1] == p + q[..|q| - 1];
      SettleConcat(home, p, q[..|q| - 1]);
    }
  }

  /** Ordered mode: every page that was dirty and not part of the transaction when the commit
      began is on the medium before the log is touched. */
  lemma OrderedDataFirst(g: Geometry, s: Sys, pages: seq<Page>, b: nat)
    requires Inv(g, s) && Sound(g, s) && s.pc.Idle? && Enabled(g, s, Sync(pages)) && b in s.cache && b !in s.held
    ensures var t := Take(g, s, Sync(pages));
      Sound(g, t) && t.pc.Ordering? && b < |TakeTick(g, t).disk.home| && TakeTick(g, t).disk.home[b] == s.cache[b]
      && TakeTick(g, t).disk.log == s.disk.log
  {
    hide Holds, Freed, Loads, EmptyLog, Settle, Fits;
    var t := Take(g, s, Sync(pages));
    SettleConcat(s.disk.home, s.homePending, pages);
    SettleSame(Settle(s.disk.home, s.homePending), pages, b, s.cache[b]);
    OverlayNothing(s.disk.log);
  }
}
