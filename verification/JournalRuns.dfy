/** Whole runs of the commit sequence, and the window every one of them passes through. */
module JournalRuns {
  import opened Bytes
  import opened JournalFormat
  import opened JournalSuper
  import opened JournalLog
  import opened JournalCommit
  import opened JournalSteps
  import opened JournalCrash

  /** t is reached from s by these steps, each of them enabled. */
  ghost predicate Reaches(g: Geometry, s: Sys, labels: seq<Label>, t: Sys)
    decreases |labels|
  {
    if labels == [] then s == t
    else Sound(g, s) && Enabled(g, s, labels[0]) && Reaches(g, Take(g, s, labels[0]), labels[1..], t)
  }

  /** A run that is never back at Idle. */
  ghost predicate BusyRun(g: Geometry, s: Sys, labels: seq<Label>, t: Sys)
    decreases |labels|
  {
    !s.pc.Idle?
    && if labels == [] then s == t
       else Sound(g, s) && Enabled(g, s, labels[0]) && BusyRun(g, Take(g, s, labels[0]), labels[1..], t)
  }

  /** t is reached within the one commit that begins at Idle state s with its first sync. */
  ghost predicate CommitRun(g: Geometry, s: Sys, labels: seq<Label>, t: Sys) {
    labels != [] && labels[0].Sync? && s.pc.Idle? && Sound(g, s) && Enabled(g, s, labels[0])
    && BusyRun(g, Take(g, s, labels[0]), labels[1..], t)
  }

  lemma {:induction false} BusyIsRun(g: Geometry, s: Sys, labels: seq<Label>, t: Sys)
    requires BusyRun(g, s, labels, t)
    ensures Reaches(g, s, labels, t)
    decreases |labels|
  {
    hide Sound, Enabled, Take;
    if labels != [] { BusyIsRun(g, Take(g, s, labels[0]), labels[1..], t); }
  }

  lemma CommitIsRun(g: Geometry, s: Sys, labels: seq<Label>, t: Sys)
    requires CommitRun(g, s, labels, t)
    ensures Reaches(g, s, labels, t)
  {
    hide Sound, Enabled, Take;
    BusyIsRun(g, Take(g, s, labels[0]), labels[1..], t);
  }

  /** The invariant holds over every run: any number of transactions, any cache write-back of
      unheld pages in between. */
  lemma {:induction false} RunKeeps(g: Geometry, s: Sys, labels: seq<Label>, t: Sys)
    requires Inv(g, s) && Reaches(g, s, labels, t)
    ensures Inv(g, t)
    decreases |labels|
  {
    hide Inv, Sound, Enabled, Take;
    if labels != [] {
      StepKeeps(g, s, labels[0]);
      RunKeeps(g, Take(g, s, labels[0]), labels[1..], t);
    }
  }

  /** Crash safety over every run: outside the cleanup window, whatever happened before, a power
      cut leaves all of the current transaction or none of it. */
  lemma RunIsAtomic(g: Geometry, s: Sys, labels: seq<Label>, t: Sys)
    requires Inv(g, s) && Reaches(g, s, labels, t) && !Window(t.pc)
    ensures CrashAtomic(g, t)
  {
    hide Inv, Reaches, CrashAtomic;
    RunKeeps(g, s, labels, t);
    AtomicOutsideWindow(g, t);
  }

  // ---- every commit passes through the window with its metadata still in the cache -------------

  ghost predicate InCacheOnly(s: Sys, e: Entry) {
    e.target in s.cache && s.cache[e.target] == e.image && e.target in s.before && e.target < |s.disk.home|
    && s.disk.home[e.target] == s.before[e.target] && !Written(s.homePending, e.target)
  }

  /** The transaction's new images are in the cache and nowhere else but the log. */
  ghost predicate Unwritten(s: Sys) {
    forall i :: 0 <= i < |Changed(s)| ==> InCacheOnly(s, Changed(s)[i])
  }

  lemma HeldUnwritten(g: Geometry, s: Sys)
    requires Inv(g, s) && Holding(s.pc)
    ensures Unwritten(s)
  {
    hide LogInv, Freed, Loads, Be32, Fits;
    forall i | 0 <= i < |Changed(s)| ensures InCacheOnly(s, Changed(s)[i]) {
      assert s.tx[i] in s.tx && HeldOk(g, s, s.tx[i]);
    }
  }

  /** A step that keeps the cache and at most flushes. */
  lemma StaysUnwritten(s: Sys, t: Sys)
    requires Unwritten(s) && Changed(t) == Changed(s) && t.before == s.before && t.cache == s.cache
    requires (t.disk.home == s.disk.home && t.homePending == s.homePending)
             || (t.disk.home == Settle(s.disk.home, s.homePending) && t.homePending == [])
    ensures Unwritten(t)
  {
    forall i | 0 <= i < |Changed(t)| ensures InCacheOnly(t, Changed(t)[i]) {
      var e := Changed(s)[i];
      assert InCacheOnly(s, e);
      if t.homePending == [] && t.disk.home == Settle(s.disk.home, s.homePending) {
        SettleAway(s.disk.home, s.homePending, e.target);
      }
    }
  }

  predicate Driving(pc: Pc) {
    !pc.Idle? && !pc.Cleared? && !pc.Draining?
  }

  function Rank(pc: Pc): nat {
    match pc
    case Idle => 17 case Ordering => 16 case Ordered => 15 case Describing => 14 case Described => 13 case Copying => 12
    case Copied => 11 case Pointing => 10 case Pointed => 9 case Committing => 8 case Durable => 7 case Released => 6
    case Checkpointing => 5 case Checkpointed => 4 case Clearing => 3 case Cleared => 2 case Draining => 1
  }

  function Program(pc: Pc): Label {
    if pc.Released? then Checkpoint([]) else Tick
  }

  lemma TickMoves(g: Geometry, s: Sys)
    requires Inv(g, s) && Sound(g, s) && Driving(s.pc) && !s.pc.Released? && Unwritten(s)
    ensures var t := TakeTick(g, s);
      Unwritten(t) && Changed(t) == Changed(s) && t.before == s.before && Rank(t.pc) < Rank(s.pc) && Rank(t.pc) >= 2
  {
    hide Inv, TakeTick, Unwritten, Changed, Settle;
    TickFrame(g, s);
    StaysUnwritten(s, TakeTick(g, s));
  }

  lemma TickFrame(g: Geometry, s: Sys)
    requires Sound(g, s) && Driving(s.pc) && !s.pc.Released?
    ensures var t := TakeTick(g, s);
      Changed(t) == Changed(s) && t.before == s.before && t.cache == s.cache && 2 <= Rank(t.pc) < Rank(s.pc)
      && ((t.disk.home == s.disk.home && t.homePending == s.homePending)
          || (t.disk.home == Settle(s.disk.home, s.homePending) && t.homePending == []))
  {
    hide DescriptorBlock, CommitBlock, Update, Copies, Settle, Overlay, CommitAt, Entries, Writable, Single;
  }

  lemma CheckpointMoves(g: Geometry, s: Sys)
    requires Inv(g, s) && Sound(g, s) && s.pc.Released? && Unwritten(s)
    ensures Enabled(g, s, Checkpoint([])) && Take(g, s, Checkpoint([])) == s.(pc := Checkpointing)
    ensures Unwritten(s.(pc := Checkpointing)) && Changed(s.(pc := Checkpointing)) == Changed(s)
  {
    hide LogInv, Loads, Holds, Writable, Unwritten;
    assert CoversHeld([], s.cache, s.held);
    CheckpointWritesNothing(g, s, []);
    StaysUnwritten(s, s.(pc := Checkpointing));
  }

  lemma {:induction false} DriveToCleared(g: Geometry, s: Sys) returns (labels: seq<Label>, t: Sys)
    requires Inv(g, s) && (Driving(s.pc) || s.pc.Cleared?) && Unwritten(s)
    ensures BusyRun(g, s, labels, t) && Inv(g, t) && t.pc.Cleared?
    ensures Unwritten(t) && Changed(t) == Changed(s) && t.before == s.before
    decreases Rank(s.pc)
  {
    hide Inv, Sound, Unwritten, Changed, TakeTick;
    if s.pc.Cleared? {
      labels, t := [], s;
    } else {
      InvIsSound(g, s);
      var l := Program(s.pc);
      if s.pc.Released? { CheckpointMoves(g, s); } else { TickMoves(g, s); }
      StepKeeps(g, s, l);
      var rest;
      rest, t := DriveToCleared(g, Take(g, s, l));
      labels := [l] + rest;
      assert labels[1..] == rest;
    }
  }

  lemma {:induction false} CoverExists(cache: map<nat, Block>, held: set<nat>) returns (pages: seq<Page>)
    ensures Covers(pages, cache, held)
    decreases |cache.Keys|
  {
    if cache.Keys == {} {
      pages := [];
    } else {
      var b :| b in cache.Keys;
      var less := map k | k in cache && k != b :: cache[k];
      assert less.Keys == cache.Keys - {b};
      var rest := CoverExists(less, held);
      pages := if b in held then rest else rest + [Page(b, cache[b])];
      forall k | k in cache && k !in held ensures Written(pages, k) {
        if k == b {
          assert pages[|pages| - 1].block == b;
        } else {
          assert Written(rest, k);
          var i :| 0 <= i < |rest| && rest[i].block == k;
          assert pages[i].block == k;
        }
      }
    }
  }

  /** Every commit reaches, by its own steps alone, a state in which the log has been declared
      empty while all of its metadata is still on its way home. */
  lemma EveryCommitIsExposed(g: Geometry, s: Sys) returns (labels: seq<Label>, t: Sys)
    requires Inv(g, s) && s.pc.Idle? && s.tx != [] && s.sequence + 1 < U32
    ensures CommitRun(g, s, labels, t) && Reaches(g, s, labels, t) && Inv(g, t) && t.pc.Draining? && AllOnTheWay(t)
    ensures t.logged == Entries(s.cache, s.tx) && t.before == s.before
  {
    hide Inv, Sound, Unwritten, Covers, LogInv, TakeTick;
    var pages := CoverExists(s.cache, s.held);
    var first := Sync(pages);
    StepKeeps(g, s, first);
    var a := Take(g, s, first);
    HeldUnwritten(g, a);
    SyncKeepsEntries(g, s, pages);
    var middle, b := DriveToCleared(g, a);
    var last := CoverExists(b.cache, b.held);
    StepKeeps(g, b, Sync(last));
    t := Take(g, b, Sync(last));
    labels := [first] + (middle + [Sync(last)]);
    BusyOne(g, b, Sync(last));
    BusyConcat(g, a, middle, b, [Sync(last)], t);
    assert labels[1..] == middle + [Sync(last)];
    CommitIsRun(g, s, labels, t);
    SyncSendsAll(g, b, last);
  }

  lemma SyncKeepsEntries(g: Geometry, s: Sys, pages: seq<Page>)
    requires Inv(g, s) && Sound(g, s) && s.pc.Idle? && Enabled(g, s, Sync(pages))
    ensures Changed(Take(g, s, Sync(pages))) == Entries(s.cache, s.tx)
  {
    hide LogInv, Freed, Loads, Be32, Fits, Covers;
    var t := Take(g, s, Sync(pages));
    forall b | b in s.tx ensures b in s.cache && b in t.cache && t.cache[b] == s.cache[b] {
      assert HeldOk(g, s, b);
    }
    EntriesSame(s.cache, t.cache, s.tx);
  }

  lemma BusyOne(g: Geometry, s: Sys, l: Label)
    requires Sound(g, s) && Enabled(g, s, l) && !s.pc.Idle? && !Take(g, s, l).pc.Idle?
    ensures BusyRun(g, s, [l], Take(g, s, l))
  {
    hide Sound, Enabled, Take;
    assert [l][1..] == [];
  }

  lemma {:induction false} BusyConcat(g: Geometry, s: Sys, x: seq<Label>, t: Sys, y: seq<Label>, u: Sys)
    requires BusyRun(g, s, x, t) && BusyRun(g, t, y, u)
    ensures BusyRun(g, s, x + y, u)
    decreases |x|
  {
    hide Sound, Enabled, Take;
    if x == [] {
      assert x + y == y;
    } else {
      assert (x + y)[1..] == x[1..] + y;
      BusyConcat(g, Take(g, s, x[0]), x[1..], t, y, u);
    }
  }

  lemma SyncSendsAll(g: Geometry, s: Sys, pages: seq<Page>)
    requires Inv(g, s) && Sound(g, s) && s.pc.Cleared? && Enabled(g, s, Sync(pages)) && Unwritten(s)
    ensures AllOnTheWay(Take(g, s, Sync(pages)))
  {
    hide LogInv, Loads, Holds, Writable;
    var t := Take(g, s, Sync(pages));
    forall i | 0 <= i < |t.logged|
      ensures var b := t.logged[i].target;
        b < |t.disk.home| && b in t.before && t.disk.home[b] == t.before[b] && Written(t.homePending, b)
    {
      assert Changed(s)[i] == s.logged[i] && InCacheOnly(s, s.logged[i]);
      WrittenConcat(s.homePending, pages, t.logged[i].target);
    }
  }

  // ---- all or nothing over one whole commit ---------------------------------------------------

  /** Within a commit the transaction stays the same: no block joins it and no image of it changes. */
  lemma StepKeepsTransaction(g: Geometry, s: Sys, l: Label)
    requires Inv(g, s) && Sound(g, s) && Enabled(g, s, l)
    requires if s.pc.Idle? then !l.MetaWrite? else !Take(g, s, l).pc.Idle?
    ensures Changed(Take(g, s, l)) == Changed(s) && Take(g, s, l).before == s.before
  {
    hide LogInv, Freed, Loads, Be32, Fits, TakeTick, Writable;
    match l
    case Tick => TickKeepsTransaction(g, s);
    case Checkpoint(pages) => CheckpointWritesNothing(g, s, pages);
    case MetaWrite(b, image) =>
    case _ =>
      if Early(s.pc) {
        forall b | b in s.tx ensures b in s.cache && b in s.held { assert HeldOk(g, s, b); }
        EntriesSame(s.cache, Take(g, s, l).cache, s.tx);
      }
  }

  lemma TickKeepsTransaction(g: Geometry, s: Sys)
    requires Sound(g, s) && Enabled(g, s, Tick) && !TakeTick(g, s).pc.Idle?
    ensures Changed(TakeTick(g, s)) == Changed(s) && TakeTick(g, s).before == s.before
  {
    hide TakeTick, Changed, Settle, Writable;
    if s.pc.Draining? { DrainingEnds(g, s); }
    TickFrame(g, s);
  }

  lemma DrainingEnds(g: Geometry, s: Sys)
    requires Sound(g, s) && s.pc.Draining?
    ensures TakeTick(g, s).pc.Idle?
  {
    hide Settle, Overlay, Writable;
  }

  lemma {:induction false} BusyKeepsTransaction(g: Geometry, s: Sys, labels: seq<Label>, t: Sys)
    requires Inv(g, s) && BusyRun(g, s, labels, t)
    ensures Inv(g, t) && Changed(t) == Changed(s) && t.before == s.before && !t.pc.Idle?
    decreases |labels|
  {
    hide Inv, Sound, Enabled, Take, Changed;
    if labels != [] {
      var u := Take(g, s, labels[0]);
      StepKeeps(g, s, labels[0]);
      BusyNext(g, u, labels[1..], t);
      StepKeepsTransaction(g, s, labels[0]);
      BusyKeepsTransaction(g, u, labels[1..], t);
    }
  }

  lemma BusyNext(g: Geometry, s: Sys, labels: seq<Label>, t: Sys)
    requires BusyRun(g, s, labels, t)
    ensures !s.pc.Idle?
  {
    hide Sound, Enabled, Take;
  }

  lemma CommitKeepsTransaction(g: Geometry, s: Sys, labels: seq<Label>, t: Sys)
    requires Inv(g, s) && CommitRun(g, s, labels, t)
    ensures Inv(g, t) && Changed(t) == Entries(s.cache, s.tx) && t.before == s.before && !t.pc.Idle?
  {
    hide Inv, Sound, Enabled, Take, BusyRun;
    StepKeeps(g, s, labels[0]);
    StepKeepsTransaction(g, s, labels[0]);
    BusyKeepsTransaction(g, Take(g, s, labels[0]), labels[1..], t);
  }

  /** Every power cut during this commit leaves all of its transaction or none of it. */
  ghost predicate CommitIsAtomic(g: Geometry, s: Sys) {
    forall labels: seq<Label>, t: Sys :: CommitRun(g, s, labels, t) ==> CrashAtomic(g, t)
  }

  /** A commit is all or nothing, whatever else the cache writes meanwhile and wherever the power
      fails, if and only if its transaction changes at most one 512-byte sector. */
  lemma CommitAtomicIff(g: Geometry, s: Sys)
    requires Inv(g, s) && s.pc.Idle? && s.tx != [] && s.sequence + 1 < U32
    ensures CommitIsAtomic(g, s) <==> OneSector(Entries(s.cache, s.tx), s.before)
  {
    hide Inv, CommitRun, CrashAtomic, OneSector, Entries, AllOnTheWay;
    if OneSector(Entries(s.cache, s.tx), s.before) {
      forall labels: seq<Label>, t: Sys | CommitRun(g, s, labels, t) ensures CrashAtomic(g, t) {
        CommitKeepsTransaction(g, s, labels, t);
        if Window(t.pc) { OneSectorIsAtomic(g, t); } else { AtomicOutsideWindow(g, t); }
      }
    } else {
      var labels, t := EveryCommitIsExposed(g, s);
      DrainingAtomicIff(g, t);
    }
  }
}
