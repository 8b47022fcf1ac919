/** Commits during which a write-back run takes held pages with it. */
module JournalLeak {
  import opened Bytes
  import opened JournalFormat
  import opened JournalSuper
  import opened JournalLog
  import opened JournalCommit
  import opened JournalSteps
  import opened JournalCrash
  import opened JournalRuns

  // ---- the state as it would be without those writes --------------------------------------------

  /** The writes of pages that are not held. */
  function Without(pages: seq<Page>, held: set<nat>): (r: seq<Page>)
    ensures forall i :: 0 <= i < |r| ==> r[i] in pages && r[i].block !in held
    decreases |pages|
  {
    if pages == [] then []
    else
      var p, r := pages[|pages| - 1], Without(pages[..|pages| - 1], held);
      if p.block in held then r else r + [p]
  }

  lemma {:induction false} WithoutConcat(p: seq<Page>, q: seq<Page>, held: set<nat>)
    ensures Without(p + q, held) == Without(p, held) + Without(q, held)
    decreases |q|
  {
    if q == [] {
      assert p + q == p;
    } else {
      var n := |q| - 1;
      assert (p + q)[..|p + q| - 1] == p + q[..n];
      WithoutConcat(p, q[..n], held);
    }
  }

  lemma {:induction false} WithoutNone(p: seq<Page>, held: set<nat>)
    requires forall i :: 0 <= i < |p| ==> p[i].block !in held
    ensures Without(p, held) == p
    decreases |p|
  {
    if p != [] { WithoutNone(p[..|p| - 1], held); }
  }

  lemma {:induction false} WithoutKeeps(p: seq<Page>, held: set<nat>, b: nat)
    requires b !in held && Written(p, b)
    ensures Written(Without(p, held), b)
    decreases |p|
  {
    var n := |p| - 1;
    var r := Without(p, held);
    if p[n].block == b {
      assert r[|r| - 1] == p[n];
    } else {
      var i :| 0 <= i < |p| && p[i].block == b;
      assert p[..n][i].block == b;
      WithoutKeeps(p[..n], held, b);
      var k :| 0 <= k < |Without(p[..n], held)| && Without(p[..n], held)[k].block == b;
      assert r[k].block == b;
    }
  }

  /** Held blocks as they were when they joined the transaction. */
  ghost function Restore(home: seq<Block>, before: map<nat, Block>, held: set<nat>): (r: seq<Block>)
    ensures |r| == |home|
    ensures forall b :: 0 <= b < |r| ==> r[b] == if b in held && b in before then before[b] else home[b]
  {
    seq(|home|, b requires 0 <= b < |home| => if b in held && b in before then before[b] else home[b])
  }

  lemma {:induction false} SettleRestored(home: seq<Block>, pages: seq<Page>, before: map<nat, Block>, held: set<nat>)
    requires forall b :: b in held ==> b in before
    ensures Restore(Settle(home, pages), before, held) == Settle(Restore(home, before, held), Without(pages, held))
    decreases |pages|
  {
    hide Restore;
    if pages != [] {
      var init, p := pages[..|pages| - 1], pages[|pages| - 1];
      SettleRestored(home, init, before, held);
      if p.block < |home| { RestoreUpdate(Settle(home, init), before, held, p.block, p.data); }
      if p.block !in held { SettleMore(Restore(home, before, held), Without(init, held), p); }
    }
  }

  lemma RestoreUpdate(home: seq<Block>, before: map<nat, Block>, held: set<nat>, b: nat, x: Block)
    requires b < |home| && (b in held ==> b in before)
    ensures var r := Restore(home, before, held);
      Restore(home[b := x], before, held) == if b in held then r else r[b := x]
  {
  }

  lemma SettleMore(home: seq<Block>, pages: seq<Page>, p: Page)
    ensures var r := Settle(home, pages); Settle(home, pages + [p]) == if p.block < |r| then r[p.block := p.data] else r
  {
    assert (pages + [p])[..|pages + [p]| - 1] == pages;
  }

  ghost function Unspilt(s: Sys): Sys {
    s.(disk := Disk(Restore(s.disk.home, s.before, s.held), s.disk.log), homePending := Without(s.homePending, s.held))
  }

  /** A held block that may have been written out: old or new on the medium, with nothing but the new image on its
      way. */
  ghost predicate MaybeOut(s: Sys, b: nat) {
    b in s.cache && Underway(s, Entry(b, s.cache[b]))
  }

  /** The invariant of a commit from which held pages may have escaped. */
  ghost predicate LeakInv(g: Geometry, s: Sys) {
    Inv(g, Unspilt(s)) && forall b :: b in s.held ==> MaybeOut(s, b)
  }

  lemma NoneHeld(s: Sys)
    requires s.held == {}
    ensures Unspilt(s) == s
  {
    WithoutNone(s.homePending, {});
    assert Restore(s.disk.home, s.before, {}) == s.disk.home;
  }

  /** Once the holds are dropped it is the invariant of every commit. */
  lemma LeakIsInv(g: Geometry, s: Sys)
    requires LeakInv(g, s) && !Holding(s.pc)
    ensures Inv(g, s)
  {
    hide LogInv, Loads, Holds, ReleasedOk, Writable;
    FreedMeans(g, Unspilt(s));
    NoneHeld(s);
  }

  lemma InvIsLeak(g: Geometry, s: Sys)
    requires Inv(g, s)
    ensures LeakInv(g, s)
  {
    hide LogInv, Loads, Be32, Fits, Writable, ReleasedOk, Entries;
    if Holding(s.pc) {
      forall b | b in s.held ensures HeldOk(g, s, b) && MaybeOut(s, b) { assert HeldOk(g, s, b); }
      assert Restore(s.disk.home, s.before, s.held) == s.disk.home;
      WithoutNone(s.homePending, s.held);
    } else {
      NoneHeld(s);
    }
    assert Unspilt(s) == s;
  }

  lemma LeakUnderway(g: Geometry, s: Sys)
    requires LeakInv(g, s)
    ensures AllUnderway(s)
  {
    hide LogInv, Loads, Be32, Fits, Writable, Restore, Without;
    if Holding(s.pc) {
      forall i | 0 <= i < |Changed(s)| ensures Underway(s, Changed(s)[i]) {
        assert s.tx[i] in s.tx && MaybeOut(s, s.tx[i]);
      }
    } else {
      LeakIsInv(g, s);
      FreedUnderway(g, s);
    }
  }

  // ---- the steps -------------------------------------------------------------------------------------

  datatype Move =
    | Step(l: Label)
    | Spill(block: nat, count: nat)  // a write-back run: a page that is not held and dirty pages after it, held or not

  /** What can happen from when the transaction stops growing until its commit returns. */
  ghost predicate CanMove(g: Geometry, s: Sys, m: Move) {
    match m
    case Step(l) => !l.MetaWrite? && !(s.pc.Draining? && l.Tick?) && Enabled(g, s, l)
    case Spill(b, count) =>
      Holding(s.pc) && b in s.cache && b !in s.held && forall k: nat :: InRun(b, count, k) ==> k in s.cache
  }

  /** A held page that has been written stays in memory until the transaction is done with it. */
  ghost function Spilt(s: Sys, b: nat, count: nat): Sys
    requires forall k: nat :: InRun(b, count, k) ==> k in s.cache
  {
    s.(homePending := s.homePending + RunPages(s.cache, b, count),
       cache := map k | k in s.cache && (k in s.held || !InRun(b, count, k)) :: s.cache[k])
  }

  ghost function AfterMove(g: Geometry, s: Sys, m: Move): Sys
    requires Sound(g, s) && CanMove(g, s, m)
  {
    match m
    case Step(l) => Take(g, s, l)
    case Spill(b, count) => Spilt(s, b, count)
  }

  ghost predicate LeakyRun(g: Geometry, s: Sys, moves: seq<Move>, t: Sys)
    decreases |moves|
  {
    if moves == [] then s == t
    else Sound(g, s) && CanMove(g, s, moves[0]) && LeakyRun(g, AfterMove(g, s, moves[0]), moves[1..], t)
  }

  lemma LeakIsSound(g: Geometry, s: Sys)
    requires LeakInv(g, s)
    ensures Sound(g, s)
  {
    hide Inv, Entries, Writable;
    InvIsSound(g, Unspilt(s));
  }

  lemma SpillKeeps(g: Geometry, s: Sys, b: nat, count: nat)
    requires LeakInv(g, s) && CanMove(g, s, Spill(b, count))
    ensures LeakInv(g, Spilt(s, b, count))
  {
    hide Inv, RunPages, Without, Written;
    var t, run := Spilt(s, b, count), RunPages(s.cache, b, count);
    RunWritten(s.cache, b, count);
    WithoutConcat(s.homePending, run, s.held);
    var pages := Without(run, s.held);
    forall k | k in s.cache && k !in t.cache ensures Written(pages, k) { WithoutKeeps(run, s.held, k); }
    forall i | 0 <= i < |pages|
      ensures pages[i].block in s.cache && pages[i].block !in s.held && pages[i].data == s.cache[pages[i].block]
    {
      assert pages[i] in run;
      var n :| 0 <= n < |run| && run[n] == pages[i];
    }
    WriteBackKeeps(g, Unspilt(s), pages, t.cache);
    assert Unspilt(t) == Unspilt(s).(homePending := Unspilt(s).homePending + pages, cache := t.cache);
    forall k | k in t.held ensures MaybeOut(t, k) { assert MaybeOut(s, k); }
  }

  /** Pages that are not held join the pending ones. */
  lemma AddsUnheld(s: Sys, pages: seq<Page>)
    requires forall i :: 0 <= i < |pages| ==> pages[i].block !in s.held
    ensures Without(s.homePending + pages, s.held) == Without(s.homePending, s.held) + pages
  {
    WithoutConcat(s.homePending, pages, s.held);
    WithoutNone(pages, s.held);
  }

  /** A step does to the state what it does to the state without the early writes. */
  lemma StepCommutes(g: Geometry, s: Sys, l: Label)
    requires LeakInv(g, s) && Holding(s.pc) && CanMove(g, s, Step(l)) && Sound(g, s)
    requires !(s.pc.Durable? && l.Tick?)
    ensures var u := Unspilt(s);
      Sound(g, u) && Enabled(g, u, l) && Unspilt(Take(g, s, l)) == Take(g, u, l) && Take(g, s, l).held == s.held
  {
    hide Inv, RunPages, TakeTick, Without, Restore, Entries, Writable;
    match l
    case DataWrite(_, _) =>
    case Evict(b, count) =>
      RunWritten(s.cache, b, count);
      AddsUnheld(s, RunPages(s.cache, b, count));
    case Sync(pages) => AddsUnheld(s, pages);
    case Checkpoint(_) =>
    case Tick => TickCommutes(g, s);
  }

  lemma HeldBefore(g: Geometry, s: Sys)
    requires LeakInv(g, s)
    ensures forall b :: b in s.held ==> b in s.before
  {
    hide Inv;
    forall b | b in s.held ensures b in s.before { assert MaybeOut(s, b); }
  }

  lemma TickCommutes(g: Geometry, s: Sys)
    requires LeakInv(g, s) && Holding(s.pc) && Enabled(g, s, Tick) && Sound(g, s) && !s.pc.Durable?
    ensures Sound(g, Unspilt(s)) && Unspilt(TakeTick(g, s)) == TakeTick(g, Unspilt(s))
    ensures TakeTick(g, s).held == s.held
  {
    hide Inv, Without, Restore, Settle, Overlay, Entries, Writable, DescriptorBlock, Copies, CommitBlock, Update;
    HeldBefore(g, s);
    SettleRestored(s.disk.home, s.homePending, s.before, s.held);
    NoPages(s.held);
  }

  lemma NoPages(held: set<nat>)
    ensures Without([], held) == []
  {
  }

  /** The home blocks after a move: as before with more on the way, or everything on the way has arrived. */
  ghost predicate HomeMoves(s: Sys, t: Sys) {
    (t.disk.home == s.disk.home && s.homePending <= t.homePending)
    || (t.disk.home == Settle(s.disk.home, s.homePending) && t.homePending == [])
  }

  lemma StepFrame(g: Geometry, s: Sys, l: Label)
    requires LeakInv(g, s) && CanMove(g, s, Step(l)) && Sound(g, s)
    ensures HomeMoves(s, Take(g, s, l)) && Take(g, s, l).before == s.before
    ensures forall b :: b in s.held && b in s.cache ==> b in Take(g, s, l).cache && Take(g, s, l).cache[b] == s.cache[b]
  {
    hide LeakInv, Settle, RunPages, TakeTick, Covers, CoversHeld, Writable, Entries, HomeMoves, Sound;
    match l
    case Tick => TickMovesHome(g, s);
    case Checkpoint(pages) =>
      LeakIsInv(g, s);
      CheckpointWritesNothing(g, s, pages);
      AddsPages(s, Take(g, s, l), []);
    case DataWrite(_, _) => AddsPages(s, Take(g, s, l), []);
    case Evict(b, count) => AddsPages(s, Take(g, s, l), RunPages(s.cache, b, count));
    case Sync(pages) => AddsPages(s, Take(g, s, l), pages);
  }

  lemma AddsPages(s: Sys, t: Sys, pages: seq<Page>)
    requires t.disk.home == s.disk.home && t.homePending == s.homePending + pages
    ensures HomeMoves(s, t)
  {
  }

  lemma TickMovesHome(g: Geometry, s: Sys)
    requires Sound(g, s) && Driving(s.pc) && !s.pc.Released?
    ensures var t := TakeTick(g, s); HomeMoves(s, t) && t.before == s.before && t.cache == s.cache
  {
    hide TakeTick, Settle, Writable, Entries, Changed;
    TickFrame(g, s);
  }

  /** What is on its way stays so. */
  lemma StaysUnderway(s: Sys, t: Sys, e: Entry)
    requires Underway(s, e) && HomeMoves(s, t) && t.before == s.before
    requires forall i :: |s.homePending| <= i < |t.homePending| && t.homePending[i].block == e.target ==>
      t.homePending[i].data == e.image
    ensures Underway(t, e)
  {
    if t.homePending == [] && t.disk.home == Settle(s.disk.home, s.homePending) {
      SettleEither(s.disk.home, s.homePending, e.target, e.image);
    }
  }

  /** The pages that a step adds are not held. */
  lemma StepAddsUnheld(g: Geometry, s: Sys, l: Label)
    requires LeakInv(g, s) && Holding(s.pc) && CanMove(g, s, Step(l)) && Sound(g, s)
    ensures forall i :: |s.homePending| <= i < |Take(g, s, l).homePending| ==>
      Take(g, s, l).homePending[i].block !in s.held
  {
    hide LeakInv, Settle, RunPages, TakeTick, Writable, Entries;
    match l
    case Evict(b, count) => RunWritten(s.cache, b, count);
    case Tick => TickFrame(g, s);
    case _ =>
  }

  lemma StepKeepsLeak(g: Geometry, s: Sys, l: Label)
    requires LeakInv(g, s) && CanMove(g, s, Step(l)) && Sound(g, s)
    ensures LeakInv(g, Take(g, s, l)) && Changed(Take(g, s, l)) == Changed(s)
  {
    hide Inv, Take, Enabled, Underway, Unspilt, Changed;
    var t := Take(g, s, l);
    if !Holding(s.pc) {
      LeakIsInv(g, s);
      StepKeeps(g, s, l);
      StaysBusy(g, s, l);
      StepKeepsTransaction(g, s, l);
      InvIsLeak(g, t);
    } else if s.pc.Durable? && l.Tick? {
      DurableTick(g, s);
      LeakReleases(g, s, t);
    } else {
      StepCommutes(g, s, l);
      StepKeeps(g, Unspilt(s), l);
      StaysBusy(g, s, l);
      SamePc(g, s, l);
      StepKeepsTransaction(g, Unspilt(s), l);
      SameChanged(s);
      SameChanged(t);
      StepFrame(g, s, l);
      StepAddsUnheld(g, s, l);
      forall b | b in t.held ensures MaybeOut(t, b) {
        assert MaybeOut(s, b);
        StaysUnderway(s, t, Entry(b, s.cache[b]));
      }
    }
  }

  /** Dropping the holds forgets which pages have escaped: the invariant of every commit holds again. */
  lemma LeakReleases(g: Geometry, s: Sys, t: Sys)
    requires LeakInv(g, s) && s.pc.Durable? && t == s.(held := {}, tx := [], pc := Released)
    ensures LeakInv(g, t) && Changed(t) == Changed(s)
  {
    hide LogInv, Loads, Be32, Fits, Writable, Distinct, Holds, Freed, Restore, Without;
    var u := Unspilt(s);
    ReleaseLog(g, u, u.(held := {}, tx := [], pc := Released));
    LeakShape(g, s);
    LogInvSame(g, u.(held := {}, tx := [], pc := Released), t);
    LeakFrees(g, s, t);
    InvIsLeak(g, t);
  }

  lemma DurableTick(g: Geometry, s: Sys)
    requires Sound(g, s) && s.pc.Durable?
    ensures Enabled(g, s, Tick) && Take(g, s, Tick) == s.(held := {}, tx := [], pc := Released)
  {
    hide Writable, Entries;
  }

  lemma LeakShape(g: Geometry, s: Sys)
    requires LeakInv(g, s)
    ensures Shape(g, s)
  {
    hide LogInv, Loads, Holds, Freed, Writable;
    forall i | 0 <= i < |s.homePending| ensures s.homePending[i].block < g.fsBlocks {
      var p := s.homePending[i];
      if p.block in s.held {
        assert MaybeOut(s, p.block);
      } else {
        WithoutKeeps(s.homePending, s.held, p.block);
      }
    }
  }

  lemma LeakFrees(g: Geometry, s: Sys, t: Sys)
    requires LeakInv(g, s) && s.pc.Durable? && Writable(g, s.logged) && Distinct(s.logged)
    requires t == s.(held := {}, tx := [], pc := Released)
    ensures |t.disk.home| == g.fsBlocks && Holds(g, t) && Freed(g, t)
  {
    hide LogInv, Loads, Fits, Writable, Distinct, Be32, Restore, Without;
    forall i | 0 <= i < |t.logged| ensures ReleasedOk(g, t, t.logged[i]) {
      assert s.tx[i] in s.tx && MaybeOut(s, s.tx[i]) && HeldOk(g, Unspilt(s), s.tx[i]);
    }
  }

  lemma SameChanged(s: Sys)
    ensures Changed(Unspilt(s)) == Changed(s)
  {
  }

  lemma SamePc(g: Geometry, s: Sys, l: Label)
    requires Sound(g, s) && Enabled(g, s, l) && Sound(g, Unspilt(s)) && Enabled(g, Unspilt(s), l)
    requires Unspilt(Take(g, s, l)) == Take(g, Unspilt(s), l)
    ensures Take(g, Unspilt(s), l).pc == Take(g, s, l).pc && Unspilt(s).pc == s.pc
  {
    hide Take, Enabled, Sound;
  }

  /** No move comes back to Idle. */
  lemma StaysBusy(g: Geometry, s: Sys, l: Label)
    requires Sound(g, s) && CanMove(g, s, Step(l))
    ensures !s.pc.Idle? ==> !Take(g, s, l).pc.Idle?
  {
    hide Settle, RunPages, Covers, CoversHeld, Writable, Entries, DescriptorBlock, Copies, CommitBlock, Update;
  }

  lemma MoveKeeps(g: Geometry, s: Sys, m: Move)
    requires LeakInv(g, s) && CanMove(g, s, m)
    ensures Sound(g, s) && LeakInv(g, AfterMove(g, s, m))
    ensures var t := AfterMove(g, s, m); Changed(t) == Changed(s) && t.before == s.before && HomeMoves(s, t)
  {
    hide LeakInv, Take, Enabled, Changed, HomeMoves;
    LeakIsSound(g, s);
    match m
    case Step(l) =>
      StepKeepsLeak(g, s, l);
      StepFrame(g, s, l);
    case Spill(b, count) =>
      SpillKeeps(g, s, b, count);
      SpillFrame(g, s, b, count);
  }

  lemma SpillFrame(g: Geometry, s: Sys, b: nat, count: nat)
    requires LeakInv(g, s) && CanMove(g, s, Spill(b, count))
    ensures var t := Spilt(s, b, count); Changed(t) == Changed(s) && HomeMoves(s, t)
  {
    hide LogInv, Loads, Be32, Fits, Writable, RunPages, Restore, Without, Underway;
    if Early(s.pc) {
      forall k | k in s.tx ensures k in s.cache && k in s.held { assert MaybeOut(s, k); }
      EntriesSame(s.cache, Spilt(s, b, count).cache, s.tx);
    }
  }

  lemma {:induction false} LeakyRunKeeps(g: Geometry, s: Sys, moves: seq<Move>, t: Sys)
    requires LeakInv(g, s) && LeakyRun(g, s, moves, t)
    ensures LeakInv(g, t) && Changed(t) == Changed(s) && t.before == s.before
    decreases |moves|
  {
    hide LeakInv, CanMove, AfterMove, Changed, HomeMoves, Sound;
    if moves != [] {
      MoveKeeps(g, s, moves[0]);
      LeakyRunKeeps(g, AfterMove(g, s, moves[0]), moves[1..], t);
    }
  }

  // ---- what the log makes of a cut --------------------------------------------------------------

  /** A power cut that leaves the home blocks as they are, to speak of the log alone. */
  lemma LogCut(s: Sys, t: Sys, d: Disk)
    requires Crash(s, d) && s.disk.log == t.disk.log && s.logPending == t.logPending
    ensures |d.home| == |s.disk.home| && |d.log| == |s.disk.log| && Crash(t, Disk(t.disk.home, d.log))
  {
    hide Torn, Sector;
  }

  /** The commit block is valid however the write of it tears, so the transaction is certain. */
  ghost predicate Certain(g: Geometry, s: Sys) {
    var c := CommitAt(g, s.head, |s.logged|);
    s.pc.Durable?
    || ((s.pc.Pointed? || s.pc.Committing?) && c < |s.disk.log| && s.sequence < U32
        && forall x: Block :: MayBe(s, c, x) ==> IsCommit(g, x, s.sequence))
  }

  /** What log block c can hold after a power cut. */
  ghost predicate MayBe(s: Sys, c: nat, x: Block)
    requires c < |s.disk.log|
  {
    Torn(s.disk.log[c], if c in s.logPending then s.logPending[c] else s.disk.log[c], x)
  }

  /** After any cut the mount takes the home blocks as they are or shows all of the transaction. */
  lemma LeakView(g: Geometry, s: Sys, d: Disk)
    requires LeakInv(g, s) && Holding(s.pc) && Crash(s, d)
    ensures Mountable(g, d) && (View(g, d) == d.home || New(s, View(g, d)))
    ensures Certain(g, s) ==> New(s, View(g, d))
  {
    hide Loads, Holds, Freed, LogInv, Crash, View, New, Mountable, Certain, PointedLog, Restore, Without;
    var u := Unspilt(s);
    var e := Disk(u.disk.home, d.log);
    LogCut(s, u, d);
    CrashMountable(g, u, e);
    SameLogMounts(g, e, d);
    SameNews(s, View(g, d));
    SameCertain(g, s);
    if Unpointed(s.pc) {
      CutBeforePointing(g, u, e);
      ViewEmpty(g, d);
      NotCertain(g, s);
    } else if s.pc.Durable? {
      DurableView(g, u, e, d);
    } else {
      RunningView(g, u, e, d);
    }
  }

  lemma SameNews(s: Sys, v: seq<Block>)
    ensures New(Unspilt(s), v) <==> New(s, v)
  {
    hide Restore, Without, Changed;
    SameChanged(s);
  }

  lemma SameCertain(g: Geometry, s: Sys)
    ensures Certain(g, Unspilt(s)) <==> Certain(g, s)
  {
    hide Restore, Without, CommitAt, IsCommit, Torn;
    if Certain(g, s) && (s.pc.Pointed? || s.pc.Committing?) {
      var c := CommitAt(g, s.head, |s.logged|);
      forall x: Block | MayBe(Unspilt(s), c, x) ensures IsCommit(g, x, s.sequence) { assert MayBe(s, c, x); }
    }
    if Certain(g, Unspilt(s)) && (s.pc.Pointed? || s.pc.Committing?) {
      var c := CommitAt(g, s.head, |s.logged|);
      forall x: Block | MayBe(s, c, x) ensures IsCommit(g, x, s.sequence) { assert MayBe(Unspilt(s), c, x); }
    }
  }

  lemma NotCertain(g: Geometry, s: Sys)
    requires Unpointed(s.pc)
    ensures !Certain(g, s)
  {
    hide Torn, IsCommit, CommitAt;
  }

  lemma SameLogMounts(g: Geometry, e: Disk, d: Disk)
    requires Mountable(g, e) && d.log == e.log && |d.home| == |e.home|
    ensures Mountable(g, d)
  {
    hide Loads;
  }

  lemma DurableView(g: Geometry, s: Sys, e: Disk, d: Disk)
    requires Inv(g, s) && s.pc.Durable? && Crash(s, e) && Mountable(g, d) && d.log == e.log
    ensures New(s, View(g, d))
  {
    hide Loads, Holds, Freed, LogInv, Crash, View, New, CommittedLog, PointedLog, IsCommit, CommitAt;
    CommittedAfterCut(g, s, e);
    CommittedPoints(g, d.log, s.logged, s.sequence, s.head);
    ViewPointed(g, d, s.logged);
    NewFrom(s, View(g, d));
  }

  lemma RunningView(g: Geometry, s: Sys, e: Disk, d: Disk)
    requires Inv(g, s) && (s.pc.Pointing? || s.pc.Pointed? || s.pc.Committing?)
    requires Crash(s, e) && Mountable(g, e) && Mountable(g, d) && d.log == e.log
    ensures View(g, d) == d.home || New(s, View(g, d))
    ensures Certain(g, s) ==> New(s, View(g, d))
  {
    hide Loads, Holds, Freed, LogInv, Crash, View, New, PointedLog, IsCommit, CommitAt, Torn;
    PointedAfterCut(g, s, e);
    if Start(d.log[0]) == 0 {
      ViewEmpty(g, d);
      if !s.pc.Pointing? { StillPointed(g, s, e); }
    } else {
      ViewPointed(g, d, s.logged);
      if View(g, d) != d.home { NewFrom(s, View(g, d)); }
      if Certain(g, s) { CertainCommits(g, s, e); NewFrom(s, View(g, d)); }
    }
  }

  /** Once the pointer is flushed, every cut leaves it in place. */
  lemma StillPointed(g: Geometry, s: Sys, e: Disk)
    requires Inv(g, s) && (s.pc.Pointed? || s.pc.Committing?) && Crash(s, e)
    ensures Start(e.log[0]) == s.head && Sequence(e.log[0]) == s.sequence && Start(e.log[0]) != 0
  {
    hide Loads, Holds, Freed, LogInv, Crash, PointedLog, Start, Sequence;
    CrashSuper(g, s, e);
    if 0 in s.logPending { SuperPending(g, s); }
    PointedNow(g, s);
    HeadOfPointed(g, s.disk.log, s.head, s.logged, s.sequence);
  }

  lemma CertainCommits(g: Geometry, s: Sys, e: Disk)
    requires Inv(g, s) && Certain(g, s) && (s.pc.Pointing? || s.pc.Pointed? || s.pc.Committing?) && Crash(s, e)
    ensures var c := CommitAt(g, Start(e.log[0]), |s.logged|);
      c < |e.log| && Sequence(e.log[0]) < U32 && IsCommit(g, e.log[c], Sequence(e.log[0]))
  {
    hide Loads, Holds, Freed, LogInv, PointedLog, IsCommit, CommitAt, Torn, Start, Sequence;
    StillPointed(g, s, e);
    var c := CommitAt(g, s.head, |s.logged|);
    assert MayBe(s, c, e.log[c]);
  }

  lemma OneTorn(s: Sys, c: nat, x: Block)
    requires c < |s.disk.log| && MayBe(s, c, x)
    ensures Crash(s, Disk(s.disk.home, s.disk.log[c := x]))
  {
    hide Sector;
  }

  /** A log that a cut can leave and from which the mount takes the home blocks as they are. */
  ghost predicate Plain(g: Geometry, s: Sys, log: seq<Block>) {
    Crash(s, Disk(s.disk.home, log)) && forall d: Disk :: d.log == log && Mountable(g, d) ==> View(g, d) == d.home
  }

  lemma UnstartedIsPlain(g: Geometry, s: Sys)
    requires Inv(g, s) && (Unpointed(s.pc) || s.pc.Pointing?)
    ensures Plain(g, s, s.disk.log)
  {
    hide Loads, Holds, Freed, LogInv, Crash, View;
    NothingLanded(s);
    assert s.disk == Disk(s.disk.home, s.disk.log);
    NotStarted(g, s);
    forall d: Disk | d.log == s.disk.log && Mountable(g, d) ensures View(g, d) == d.home {
      ViewEmpty(g, d);
    }
  }

  lemma NotStarted(g: Geometry, s: Sys)
    requires Shape(g, s) && LogInv(g, s) && (Unpointed(s.pc) || s.pc.Pointing?)
    ensures Start(s.disk.log[0]) == 0
  {
    hide Loads, Prepared, DescriptorBlock, Copies, Distinct, Writable, StaleLog, Sequence, HeadField, Update;
  }

  lemma UncommittedIsPlain(g: Geometry, s: Sys, x: Block)
    requires Inv(g, s) && (s.pc.Pointed? || s.pc.Committing?)
    requires var c := CommitAt(g, s.head, |s.logged|);
      c < g.maxlen && MayBe(s, c, x) && !IsCommit(g, x, s.sequence)
    ensures Plain(g, s, s.disk.log[CommitAt(g, s.head, |s.logged|) := x])
  {
    hide Loads, Holds, Freed, LogInv, Crash, View, MayBe, IsCommit, CommitAt, PointedLog, Mountable, Start, Sequence;
    var c := CommitAt(g, s.head, |s.logged|);
    var e := Disk(s.disk.home, s.disk.log[c := x]);
    OneTorn(s, c, x);
    StillPointed(g, s, e);
    CrashMountable(g, s, e);
    PointedAfterCut(g, s, e);
    forall d: Disk | d.log == e.log && Mountable(g, d) ensures View(g, d) == d.home {
      ViewPointed(g, d, s.logged);
    }
  }

  /** As long as the transaction is not certain, such a log exists. */
  lemma UncertainIsPlain(g: Geometry, s: Sys) returns (log: seq<Block>)
    requires Inv(g, s) && Holding(s.pc) && !Certain(g, s)
    ensures Plain(g, s, log)
  {
    hide Loads, Holds, Freed, LogInv, Plain, IsCommit, CommitAt, MayBe, PointedLog;
    log := s.disk.log;
    if s.pc.Pointed? || s.pc.Committing? {
      PointedNow(g, s);
      HeadOfPointed(g, s.disk.log, s.head, s.logged, s.sequence);
      var c := CommitAt(g, s.head, |s.logged|);
      var x: Block :| MayBe(s, c, x) && !IsCommit(g, x, s.sequence);
      log := s.disk.log[c := x];
      UncommittedIsPlain(g, s, x);
    } else {
      UnstartedIsPlain(g, s);
    }
  }

  lemma PlainMeans(g: Geometry, s: Sys, log: seq<Block>)
    requires Plain(g, s, log)
    ensures Crash(s, Disk(s.disk.home, log))
  {
    hide Crash;
  }

  lemma PlainShows(g: Geometry, s: Sys, log: seq<Block>, d: Disk)
    requires Plain(g, s, log) && d.log == log && Mountable(g, d)
    ensures View(g, d) == d.home
  {
    hide Crash, View, Mountable;
  }

  // ---- exactly when a cut is all or nothing -------------------------------------------------------------

  /** At any point of a commit, whatever pages have been written early: a cut is all or nothing if and only if the
      transaction is committed for certain, or no changed sector can be new while another one is old. */
  lemma LeakAtomicIff(g: Geometry, s: Sys)
    requires LeakInv(g, s)
    ensures CrashAtomic(g, s) <==> Replays(s.pc) || Certain(g, s) || !Mixable(s)
  {
    hide LeakInv, Inv, CrashAtomic, Certain, Mixable;
    if !Holding(s.pc) {
      LeakIsInv(g, s);
      if Window(s.pc) {
        WindowAtomicIff(g, s);
        WindowUncertain(g, s);
      } else {
        AtomicOutsideWindow(g, s);
      }
    } else if Replays(s.pc) || Certain(g, s) || !Mixable(s) {
      UnmixedIsAtomic(g, s);
    } else {
      MixedTears(g, s);
    }
  }

  lemma WindowUncertain(g: Geometry, s: Sys)
    requires Window(s.pc)
    ensures !Certain(g, s)
  {
    hide MayBe, IsCommit, CommitAt;
  }

  lemma UnmixedIsAtomic(g: Geometry, s: Sys)
    requires LeakInv(g, s) && Holding(s.pc) && (Replays(s.pc) || Certain(g, s) || !Mixable(s))
    ensures CrashAtomic(g, s)
  {
    hide LeakInv, Crash, Old, New, View, Mountable, Mixable, AllUnderway, MayBe, IsCommit, CommitAt;
    LeakUnderway(g, s);
    forall d: Disk | Crash(s, d) ensures Mountable(g, d) && (Old(s, View(g, d)) || New(s, View(g, d))) {
      LeakView(g, s, d);
      if !Mixable(s) { UnmixedHome(s, d); }
    }
  }

  lemma MixedTears(g: Geometry, s: Sys)
    requires LeakInv(g, s) && Holding(s.pc) && !Certain(g, s) && Mixable(s)
    ensures !CrashAtomic(g, s)
  {
    hide LeakInv, Crash, Old, New, View, Mountable, AllUnderway, Certain, CanBeOld, Plain, Sector, Unspilt;
    LeakUnderway(g, s);
    var i: nat, k: nat, j: nat, l: nat :| CanBeNew(s, i, k) && CanBeOld(s, j, l) && (i != j || k != l);
    var log := LeakPlain(g, s);
    OneLandedIsCrash(s, i, k, log);
    OneLandedIsMixed(s, i, k, j, l);
    var d := Disk(OneLanded(s, i, k), log);
    LeakView(g, s, d);
    PlainShows(g, Unspilt(s), log, d);
  }

  lemma LeakPlain(g: Geometry, s: Sys) returns (log: seq<Block>)
    requires LeakInv(g, s) && Holding(s.pc) && !Certain(g, s)
    ensures Plain(g, Unspilt(s), log) && Crash(s, Disk(s.disk.home, log))
  {
    hide Inv, Crash, Certain, Plain, Restore, Without;
    SameCertain(g, s);
    log := UncertainIsPlain(g, Unspilt(s));
    PlainMeans(g, Unspilt(s), log);
    LogCut(Unspilt(s), s, Disk(Unspilt(s).disk.home, log));
  }

  // ---- the rest of the commit --------------------------------------------------------------------------------

  /** Every changed sector is home. */
  ghost predicate AllHome(s: Sys) {
    forall i: nat, k: nat :: !CanBeOld(s, i, k)
  }

  /** Every changed sector is home or on its way. */
  ghost predicate AllSent(s: Sys) {
    forall i: nat, k: nat :: CanBeOld(s, i, k) ==> Written(s.homePending, Changed(s)[i].target)
  }

  /** The transaction will be replayed after every cut until the next flush of the home blocks: it is committed and its
      checkpoint not yet flushed, or its commit block is valid even while it is being written. */
  ghost predicate Sure(g: Geometry, s: Sys) {
    var c := CommitAt(g, s.head, |s.logged|);
    s.pc.Durable? || s.pc.Released? || s.pc.Checkpointing?
    || ((s.pc.Pointed? || s.pc.Committing?) && c < |s.disk.log| && s.sequence < U32
        && forall x: Block :: Torn(s.disk.log[c], CommitBlock(g, s.sequence), x) ==> IsCommit(g, x, s.sequence))
  }

  /** What the rest of the commit being all or nothing comes down to. */
  ghost predicate Through(g: Geometry, s: Sys) {
    OneSector(Changed(s), s.before) || AllHome(s) || (Sure(g, s) && AllSent(s))
  }

  /** Every power cut until the commit returns leaves all of the transaction or none of it. */
  ghost predicate RestIsAtomic(g: Geometry, s: Sys) {
    forall moves: seq<Move>, t: Sys :: LeakyRun(g, s, moves, t) ==> CrashAtomic(g, t)
  }

  lemma SureIsCertain(g: Geometry, s: Sys)
    requires LeakInv(g, s) && Sure(g, s)
    ensures Replays(s.pc) || Certain(g, s)
  {
    hide Inv, CommitAt, IsCommit, CommitBlock, Torn;
    if s.pc.Pointed? || s.pc.Committing? {
      var c := CommitAt(g, s.head, |s.logged|);
      WritesCommit(g, s);
      forall x: Block | MayBe(s, c, x) ensures IsCommit(g, x, s.sequence) {
        if s.pc.Pointed? { TornSame(s.disk.log[c], x); TornNothing(s.disk.log[c], CommitBlock(g, s.sequence)); }
      }
    }
  }

  lemma TornNothing(x: Block, y: Block)
    ensures Torn(x, y, x)
  {
  }

  lemma WritesCommit(g: Geometry, s: Sys)
    requires LeakInv(g, s) && (s.pc.Pointed? || s.pc.Committing?)
    ensures s.logPending
      == if s.pc.Pointed? then map[] else Single(CommitAt(g, s.head, |s.logged|), CommitBlock(g, s.sequence))
  {
    hide Loads, Holds, Freed, PointedLog, CommitBlock, CommitAt, Restore, Without, MaybeOut;
  }

  lemma ThroughIsAtomic(g: Geometry, s: Sys)
    requires LeakInv(g, s) && Through(g, s)
    ensures CrashAtomic(g, s)
  {
    hide LeakInv, CrashAtomic, Certain, Sure, CanBeOld, AllSent;
    LeakAtomicIff(g, s);
    if Sure(g, s) { SureIsCertain(g, s); }
    if OneSector(Changed(s), s.before) { OneSectorUnmixed(s); }
  }

  lemma OneSectorUnmixed(s: Sys)
    requires OneSector(Changed(s), s.before)
    ensures !Mixable(s)
  {
    hide Differs, Changed;
  }

  lemma HomeStays(s: Sys, t: Sys)
    requires AllUnderway(s) && AllHome(s) && HomeMoves(s, t) && Changed(t) == Changed(s) && t.before == s.before
    ensures AllHome(t)
  {
    hide Distinct, Changed, Sector;
    forall i: nat, k: nat ensures !CanBeOld(t, i, k) {
      if Differs(Changed(t), t.before, i, k) {
        var e := Changed(s)[i];
        assert Underway(s, e) && !CanBeOld(s, i, k);
        assert s.disk.home[e.target] == e.image;
        if t.disk.home != s.disk.home { SettleSame(s.disk.home, s.homePending, e.target, e.image); }
      }
    }
  }

  /** A flush brings home what was on its way. */
  lemma FlushBringsHome(s: Sys, t: Sys)
    requires AllUnderway(s) && AllSent(s) && Changed(t) == Changed(s) && t.before == s.before
    requires t.disk.home == Settle(s.disk.home, s.homePending)
    ensures AllHome(t)
  {
    hide Distinct, Changed, Sector;
    forall i: nat, k: nat ensures !CanBeOld(t, i, k) {
      if Differs(Changed(t), t.before, i, k) {
        var e := Changed(s)[i];
        assert Underway(s, e);
        if !CanBeOld(s, i, k) { assert s.disk.home[e.target] == e.image; }
        SettleSame(s.disk.home, s.homePending, e.target, e.image);
      }
    }
  }

  lemma SentStays(s: Sys, t: Sys)
    requires AllSent(s) && Changed(t) == Changed(s) && t.before == s.before
    requires t.disk.home == s.disk.home && s.homePending <= t.homePending
    ensures AllSent(t)
  {
    hide Changed, Sector;
    forall i: nat, k: nat | CanBeOld(t, i, k) ensures Written(t.homePending, Changed(t)[i].target) {
      assert CanBeOld(s, i, k);
      var n :| 0 <= n < |s.homePending| && s.homePending[n].block == Changed(s)[i].target;
      assert t.homePending[n] == s.homePending[n];
    }
  }

  /** Between flushes: what is home stays, and what is on its way stays on its way. */
  ghost predicate SureOn(g: Geometry, s: Sys, t: Sys) {
    Sure(g, t) && t.disk.home == s.disk.home && s.homePending <= t.homePending
  }

  ghost predicate Flushed(s: Sys, t: Sys) {
    t.disk.home == Settle(s.disk.home, s.homePending) && t.homePending == []
  }

  /** It stays sure until a flush. */
  lemma SureStays(g: Geometry, s: Sys, m: Move)
    requires LeakInv(g, s) && Sound(g, s) && CanMove(g, s, m) && Sure(g, s)
    ensures SureOn(g, s, AfterMove(g, s, m)) || Flushed(s, AfterMove(g, s, m))
  {
    hide LeakInv, RunPages, Covers, CoversHeld, Sure, SureOn, Flushed, TakeTick, Sound;
    match m
    case Spill(b, count) => SameSure(g, s, Spilt(s, b, count), RunPages(s.cache, b, count));
    case Step(DataWrite(_, _)) => SameSure(g, s, AfterMove(g, s, m), []);
    case Step(Evict(b, count)) => SameSure(g, s, AfterMove(g, s, m), RunPages(s.cache, b, count));
    case Step(Sync(_)) => SurePc(g, s);
    case Step(Checkpoint(pages)) =>
      LeakIsInv(g, s);
      CheckpointWritesNothing(g, s, pages);
      SureCheckpoint(g, s);
    case Step(Tick) => SureTick(g, s);
  }

  lemma SurePc(g: Geometry, s: Sys)
    requires Sure(g, s)
    ensures !s.pc.Idle? && !s.pc.Cleared?
  {
    hide CommitAt, CommitBlock, IsCommit, Torn;
  }

  lemma SameSure(g: Geometry, s: Sys, t: Sys, pages: seq<Page>)
    requires Sure(g, s) && t == s.(homePending := s.homePending + pages, cache := t.cache)
    ensures SureOn(g, s, t)
  {
    hide CommitAt, CommitBlock, IsCommit, Torn;
  }

  lemma SureCheckpoint(g: Geometry, s: Sys)
    requires s.pc.Released?
    ensures SureOn(g, s, s.(pc := Checkpointing))
  {
    hide CommitAt, CommitBlock, IsCommit, Torn;
  }

  lemma SureTick(g: Geometry, s: Sys)
    requires Sound(g, s) && Enabled(g, s, Tick) && Sure(g, s)
    ensures SureOn(g, s, TakeTick(g, s)) || Flushed(s, TakeTick(g, s))
  {
    hide Settle, Overlay, CommitAt, CommitBlock, IsCommit, Torn, Update, Copies, Entries, Writable;
  }

  lemma ThroughStays(g: Geometry, s: Sys, m: Move)
    requires LeakInv(g, s) && Sound(g, s) && CanMove(g, s, m) && Through(g, s)
    ensures Through(g, AfterMove(g, s, m))
  {
    hide LeakInv, CanMove, AfterMove, OneSector, AllHome, AllSent, Sure, Changed, AllUnderway;
    var t := AfterMove(g, s, m);
    MoveKeeps(g, s, m);
    LeakUnderway(g, s);
    if AllHome(s) {
      HomeStays(s, t);
    } else if Sure(g, s) && AllSent(s) {
      SureStays(g, s, m);
      if SureOn(g, s, t) {
        SentStays(s, t);
      } else {
        FlushBringsHome(s, t);
      }
    }
  }

  lemma {:induction false} ThroughRuns(g: Geometry, s: Sys, moves: seq<Move>, t: Sys)
    requires LeakInv(g, s) && Through(g, s) && LeakyRun(g, s, moves, t)
    ensures LeakInv(g, t) && Through(g, t)
    decreases |moves|
  {
    hide LeakInv, Through, CanMove, AfterMove, Changed, HomeMoves, Sound;
    if moves != [] {
      MoveKeeps(g, s, moves[0]);
      ThroughStays(g, s, moves[0]);
      ThroughRuns(g, AfterMove(g, s, moves[0]), moves[1..], t);
    }
  }

  // ---- a block that is left behind ------------------------------------------------------------------------

  /** An old sector with nothing on its way is in the cache alone, and the commit has yet to write it. */
  lemma LeftBehind(g: Geometry, s: Sys, j: nat, l: nat)
    requires LeakInv(g, s) && CanBeOld(s, j, l) && !Written(s.homePending, Changed(s)[j].target)
    ensures InCacheOnly(s, Changed(s)[j]) && !s.pc.Draining?
  {
    hide LogInv, Loads, Be32, Fits, Writable, Distinct, Sector, Restore, Without;
    var e := Changed(s)[j];
    LeakUnderway(g, s);
    assert Underway(s, e);
    if Holding(s.pc) {
      assert s.tx[j] in s.tx && MaybeOut(s, s.tx[j]);
    } else {
      LeakIsInv(g, s);
      assert ReleasedOk(g, s, s.logged[j]);
    }
  }

  lemma OnlyInCache(s: Sys, t: Sys, e: Entry)
    requires InCacheOnly(s, e) && HomeMoves(s, t) && t.before == s.before
    requires e.target in t.cache && t.cache[e.target] == e.image
    requires forall i :: |s.homePending| <= i < |t.homePending| ==> t.homePending[i].block != e.target
    ensures InCacheOnly(t, e)
  {
    if t.disk.home == Settle(s.disk.home, s.homePending) { SettleAway(s.disk.home, s.homePending, e.target); }
  }

  lemma FirstSync(g: Geometry, s: Sys, e: Entry) returns (l: Label)
    requires LeakInv(g, s) && Sound(g, s) && s.pc.Idle? && InCacheOnly(s, e)
    requires s.tx != [] && s.sequence + 1 < U32 && e.target in s.held
    ensures CanMove(g, s, Step(l)) && InCacheOnly(Take(g, s, l), e) && Take(g, s, l).pc.Ordering?
  {
    hide LeakInv, TakeTick, Settle, Writable, Entries, InCacheOnly, HomeMoves;
    var pages := CoverExists(s.cache, s.held);
    l := Sync(pages);
    StepFrame(g, s, l);
    InCacheFacts(s, e);
    OnlyInCache(s, Take(g, s, l), e);
  }

  lemma NextCheckpoint(g: Geometry, s: Sys, e: Entry)
    requires LeakInv(g, s) && Sound(g, s) && s.pc.Released? && InCacheOnly(s, e)
    ensures CanMove(g, s, Step(Checkpoint([]))) && Take(g, s, Checkpoint([])) == s.(pc := Checkpointing)
    ensures InCacheOnly(s.(pc := Checkpointing), e)
  {
    hide LeakInv, Inv, Writable, Entries, CoversHeld, Covers;
    LeakIsInv(g, s);
    HeldNone(g, s);
    CheckpointWritesNothing(g, s, []);
  }

  lemma NextTick(g: Geometry, s: Sys, e: Entry)
    requires Sound(g, s) && Driving(s.pc) && !s.pc.Released? && InCacheOnly(s, e)
    ensures CanMove(g, s, Step(Tick)) && InCacheOnly(TakeTick(g, s), e)
    ensures 2 <= Rank(TakeTick(g, s).pc) < Rank(s.pc)
  {
    hide TakeTick, Settle, Writable, Entries, InCacheOnly, Changed;
    TickFrame(g, s);
    InCacheFacts(s, e);
    OnlyInCache(s, TakeTick(g, s), e);
  }

  /** The commit's own next step, or its first sync. */
  lemma NextStep(g: Geometry, s: Sys, e: Entry) returns (l: Label)
    requires LeakInv(g, s) && Sound(g, s) && (Driving(s.pc) || s.pc.Idle?) && InCacheOnly(s, e)
    requires s.pc.Idle? ==> s.tx != [] && s.sequence + 1 < U32 && e.target in s.held
    ensures CanMove(g, s, Step(l)) && InCacheOnly(Take(g, s, l), e)
    ensures 2 <= Rank(Take(g, s, l).pc) < Rank(s.pc)
  {
    hide LeakInv, TakeTick, Sound, Covers, CoversHeld, InCacheOnly;
    if s.pc.Idle? {
      l := FirstSync(g, s, e);
    } else if s.pc.Released? {
      l := Checkpoint([]);
      NextCheckpoint(g, s, e);
    } else {
      l := Tick;
      NextTick(g, s, e);
    }
  }

  lemma HeldNone(g: Geometry, s: Sys)
    requires Inv(g, s) && !Holding(s.pc)
    ensures CoversHeld([], s.cache, s.held)
  {
    hide LogInv, Loads, Holds, Freed;
    FreedMeans(g, s);
  }

  lemma InCacheFacts(s: Sys, e: Entry)
    requires InCacheOnly(s, e)
    ensures e.target in s.cache && s.cache[e.target] == e.image
  {
  }

  /** Left to its own steps, the commit declares the log empty with that block still in the cache alone. */
  lemma {:induction false} LeakDrive(g: Geometry, s: Sys, e: Entry) returns (moves: seq<Move>, t: Sys)
    requires LeakInv(g, s) && !s.pc.Draining? && InCacheOnly(s, e)
    requires s.pc.Idle? ==> s.tx != [] && s.sequence + 1 < U32 && e.target in s.held
    ensures LeakyRun(g, s, moves, t) && LeakInv(g, t) && t.pc.Cleared? && InCacheOnly(t, e)
    ensures Changed(t) == Changed(s) && t.before == s.before
    decreases Rank(s.pc)
  {
    hide LeakInv, Sound, CanMove, AfterMove, InCacheOnly, Changed, HomeMoves;
    if s.pc.Cleared? {
      moves, t := [], s;
    } else {
      LeakIsSound(g, s);
      var l := NextStep(g, s, e);
      MoveKeeps(g, s, Step(l));
      StepIs(g, s, l);
      var rest;
      rest, t := LeakDrive(g, Take(g, s, l), e);
      moves := [Step(l)] + rest;
      assert moves[1..] == rest;
    }
  }

  lemma StepIs(g: Geometry, s: Sys, l: Label)
    requires Sound(g, s) && CanMove(g, s, Step(l))
    ensures Enabled(g, s, l) && AfterMove(g, s, Step(l)) == Take(g, s, l)
    ensures Take(g, s, l).pc.Idle? ==> s.pc.Idle? && !l.Sync?
  {
    hide Settle, RunPages, Covers, CoversHeld, Writable, Entries, DescriptorBlock, Copies, CommitBlock, Update;
  }

  /** The final sync then has it on its way home, and it alone can be both old and new. */
  lemma SyncExposes(g: Geometry, s: Sys, e: Entry) returns (l: Label)
    requires LeakInv(g, s) && Sound(g, s) && s.pc.Cleared? && InCacheOnly(s, e)
    ensures CanMove(g, s, Step(l))
    ensures var t := Take(g, s, l);
      t.pc.Draining? && e.target < |t.disk.home| && e.target in t.before && Written(t.homePending, e.target)
      && t.disk.home[e.target] == t.before[e.target]
  {
    hide LogInv, Loads, Holds, Freed, Writable, Entries, Restore, Without;
    var pages := CoverExists(s.cache, s.held);
    l := Sync(pages);
    LeakIsInv(g, s);
    FreedMeans(g, s);
    WrittenConcat(s.homePending, pages, e.target);
  }

  /** With another changed sector anywhere, that is a mixture. */
  lemma ExposedMixes(t: Sys, j: nat, l: nat)
    requires AllUnderway(t) && !OneSector(Changed(t), t.before) && Differs(Changed(t), t.before, j, l)
    requires var b := Changed(t)[j].target; t.disk.home[b] == t.before[b] && Written(t.homePending, b)
    ensures Mixable(t)
  {
    hide Distinct, Changed, Sector, Written;
    var i: nat, k: nat, m: nat, n: nat :|
      Differs(Changed(t), t.before, i, k) && Differs(Changed(t), t.before, m, n) && (i != m || k != n);
    if i == j && k == l { i, k := m, n; }
    assert Underway(t, Changed(t)[i]) && Underway(t, Changed(t)[j]);
    assert CanBeNew(t, j, l) && CanBeOld(t, j, l);
    assert CanBeNew(t, i, k) || CanBeOld(t, i, k);
  }

  /** If a changed sector is old with nothing on its way, the commit can be driven to a torn state. */
  lemma LeftBehindTears(g: Geometry, s: Sys, j: nat, l: nat)
    requires LeakInv(g, s) && (s.pc.Idle? ==> s.tx != [] && s.sequence + 1 < U32)
    requires !OneSector(Changed(s), s.before) && CanBeOld(s, j, l) && !Written(s.homePending, Changed(s)[j].target)
    ensures !RestIsAtomic(g, s)
  {
    hide LeakInv, CrashAtomic, OneSector, Sound, CanMove, AfterMove, InCacheOnly, Changed, HomeMoves, Mixable, Sector;
    var e := Changed(s)[j];
    LeftBehind(g, s, j, l);
    if s.pc.Idle? { IdleHolds(g, s, j); }
    var moves, a := LeakDrive(g, s, e);
    LeakIsSound(g, a);
    var last := SyncExposes(g, a, e);
    MoveKeeps(g, a, Step(last));
    StepIs(g, a, last);
    var t := Take(g, a, last);
    LeakUnderway(g, t);
    ExposedMixes(t, j, l);
    LeakAtomicIff(g, t);
    WindowUncertain(g, t);
    RunThen(g, s, moves, a, Step(last));
  }

  lemma IdleHolds(g: Geometry, s: Sys, j: nat)
    requires LeakInv(g, s) && s.pc.Idle? && j < |Changed(s)|
    ensures Changed(s)[j].target in s.held
  {
    hide LogInv, Loads, Be32, Fits, Writable, Restore, Without, MaybeOut;
    assert s.tx[j] in s.tx;
  }

  lemma {:induction false} RunThen(g: Geometry, s: Sys, moves: seq<Move>, t: Sys, m: Move)
    requires LeakyRun(g, s, moves, t) && Sound(g, t) && CanMove(g, t, m)
    ensures LeakyRun(g, s, moves + [m], AfterMove(g, t, m))
    decreases |moves|
  {
    hide Sound, CanMove, AfterMove;
    if moves == [] {
      assert moves + [m] == [m] && [m][1..] == [];
    } else {
      assert (moves + [m])[1..] == moves[1..] + [m];
      RunThen(g, AfterMove(g, s, moves[0]), moves[1..], t, m);
    }
  }

  lemma NoMoves(g: Geometry, s: Sys)
    requires RestIsAtomic(g, s)
    ensures CrashAtomic(g, s)
  {
    hide CrashAtomic;
    assert LeakyRun(g, s, [], s);
  }

  lemma OneMove(g: Geometry, s: Sys, m: Move)
    requires RestIsAtomic(g, s) && Sound(g, s) && CanMove(g, s, m)
    ensures CrashAtomic(g, AfterMove(g, s, m))
  {
    hide CrashAtomic, Sound, CanMove, AfterMove;
    assert [m][1..] == [];
    assert LeakyRun(g, s, [m], AfterMove(g, s, m));
  }

  /** If one is on its way while the transaction is not sure, the power cut is now, or after one step. */
  lemma OnItsWayTears(g: Geometry, s: Sys, j: nat, l: nat)
    requires LeakInv(g, s) && !OneSector(Changed(s), s.before) && !Sure(g, s)
    requires CanBeOld(s, j, l) && Written(s.homePending, Changed(s)[j].target)
    ensures !RestIsAtomic(g, s)
  {
    hide LeakInv, CrashAtomic, OneSector, Changed, Mixable, Sector, RestIsAtomic, Certain, Sure, AllUnderway, Written;
    LeakUnderway(g, s);
    StillOld(s, j, l);
    ExposedMixes(s, j, l);
    LeakAtomicIff(g, s);
    if RestIsAtomic(g, s) {
      NoMoves(g, s);
      UnsureMoves(g, s);
      LeakIsSound(g, s);
      MoveKeeps(g, s, Step(Tick));
      StepIs(g, s, Tick);
      var t := Take(g, s, Tick);
      SameHomeNext(g, s);
      LeakUnderway(g, t);
      ExposedMixes(t, j, l);
      LeakAtomicIff(g, t);
      OneMove(g, s, Step(Tick));
    }
  }

  lemma StillOld(s: Sys, j: nat, l: nat)
    requires AllUnderway(s) && CanBeOld(s, j, l)
    ensures s.disk.home[Changed(s)[j].target] == s.before[Changed(s)[j].target]
  {
    hide Distinct, Changed, Sector;
    assert Underway(s, Changed(s)[j]);
  }

  /** All or nothing now but not sure: the next step writes the commit block or clears the superblock. */
  lemma UnsureMoves(g: Geometry, s: Sys)
    requires LeakInv(g, s) && !Sure(g, s) && (Replays(s.pc) || Certain(g, s))
    ensures s.pc.Pointed? || s.pc.Checkpointed?
    ensures Sound(g, s) && CanMove(g, s, Step(Tick))
    ensures !Replays(Take(g, s, Tick).pc) && !Certain(g, Take(g, s, Tick))
  {
    hide LeakInv, CommitAt, IsCommit, CommitBlock, Torn, Update, Entries, Writable, Settle;
    LeakIsSound(g, s);
    if s.pc.Committing? { CommittingUnsure(g, s); }
    if s.pc.Pointed? { PointedUnsure(g, s); }
  }

  lemma CommittingUnsure(g: Geometry, s: Sys)
    requires LeakInv(g, s) && s.pc.Committing? && Certain(g, s)
    ensures Sure(g, s)
  {
    hide LeakInv, CommitAt, IsCommit, CommitBlock, Torn;
    WritesCommit(g, s);
    var c := CommitAt(g, s.head, |s.logged|);
    forall x: Block | Torn(s.disk.log[c], CommitBlock(g, s.sequence), x) ensures IsCommit(g, x, s.sequence) {
      assert MayBe(s, c, x);
    }
  }

  lemma PointedUnsure(g: Geometry, s: Sys)
    requires LeakInv(g, s) && Sound(g, s) && s.pc.Pointed? && Certain(g, s) && !Sure(g, s)
    ensures !Certain(g, TakeTick(g, s))
  {
    hide LeakInv, CommitAt, IsCommit, CommitBlock, Torn;
    var t, c := TakeTick(g, s), CommitAt(g, s.head, |s.logged|);
    var x: Block :| Torn(s.disk.log[c], CommitBlock(g, s.sequence), x) && !IsCommit(g, x, s.sequence);
    assert MayBe(t, c, x);
  }

  lemma SameHomeNext(g: Geometry, s: Sys)
    requires Sound(g, s) && (s.pc.Pointed? || s.pc.Checkpointed?)
    ensures var t := TakeTick(g, s); t.disk.home == s.disk.home && t.homePending == s.homePending
  {
    hide CommitAt, CommitBlock, Update;
  }

  /**
   * From any point of a commit, with any held pages written out early so far and any more to come: every power cut
   * until it returns is all or nothing if and only if the transaction changes at most one sector, or every changed
   * sector is home already, or the transaction is sure and every changed sector is home or on its way.
   */
  lemma RestAtomicIff(g: Geometry, s: Sys)
    requires LeakInv(g, s) && (s.pc.Idle? ==> s.tx != [] && s.sequence + 1 < U32)
    ensures RestIsAtomic(g, s)
      <==> OneSector(Changed(s), s.before) || AllHome(s) || (Sure(g, s) && AllSent(s))
  {
    hide LeakInv, CrashAtomic, OneSector, Changed, Sector, Sure, LeakyRun, Written;
    if Through(g, s) {
      forall moves: seq<Move>, t: Sys | LeakyRun(g, s, moves, t) ensures CrashAtomic(g, t) {
        ThroughRuns(g, s, moves, t);
        ThroughIsAtomic(g, t);
      }
    } else if Sure(g, s) {
      var j: nat, l: nat :| CanBeOld(s, j, l) && !Written(s.homePending, Changed(s)[j].target);
      LeftBehindTears(g, s, j, l);
    } else {
      var j: nat, l: nat :| CanBeOld(s, j, l);
      var sent := Written(s.homePending, Changed(s)[j].target);
      if sent { OnItsWayTears(g, s, j, l); } else { LeftBehindTears(g, s, j, l); }
    }
  }

  /** So a commit during which write-back runs may take anything is all or nothing exactly when one during which they
      take no held page is: when its transaction changes at most one sector. */
  lemma LeakyCommitAtomicIff(g: Geometry, s: Sys)
    requires Inv(g, s) && s.pc.Idle? && s.tx != [] && s.sequence + 1 < U32
    ensures RestIsAtomic(g, s) <==> OneSector(Entries(s.cache, s.tx), s.before)
  {
    hide Inv, RestIsAtomic, LeakInv, Sector, Entries;
    InvIsLeak(g, s);
    RestAtomicIff(g, s);
    if AllHome(s) { NothingHome(g, s); }
  }

  lemma NothingHome(g: Geometry, s: Sys)
    requires Inv(g, s) && s.pc.Idle? && AllHome(s)
    ensures OneSector(Changed(s), s.before)
  {
    hide Inv, Differs, CanBeOld;
    forall i: nat, k: nat ensures !Differs(Changed(s), s.before, i, k) {
      if Differs(Changed(s), s.before, i, k) { HeldIsOld(g, s, i, k); }
    }
  }

  lemma HeldIsOld(g: Geometry, s: Sys, i: nat, k: nat)
    requires Inv(g, s) && Holding(s.pc) && Differs(Changed(s), s.before, i, k)
    ensures CanBeOld(s, i, k)
  {
    hide LogInv, Loads, Freed, Be32, Fits, Sector;
    assert s.tx[i] in s.tx && HeldOk(g, s, s.tx[i]);
  }
}
