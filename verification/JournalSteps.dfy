/** Every step of the commit, and every cache write-back beside it, keeps the journal invariant. */
module JournalSteps {
  import opened Bytes
  import opened JournalFormat
  import opened JournalSuper
  import opened JournalLog
  import opened JournalCommit

  // ---- the medium ------------------------------------------------------------------

  lemma {:induction false} SettleAway(home: seq<Block>, pages: seq<Page>, b: nat)
    requires b < |home| && !Written(pages, b)
    ensures Settle(home, pages)[b] == home[b]
    decreases |pages|
  {
    if pages != [] {
      var init := pages[..|pages| - 1];
      assert pages[|pages| - 1].block != b;
      forall i | 0 <= i < |init| ensures init[i].block != b { assert init[i] == pages[i]; }
      SettleAway(home, init, b);
    }
  }

  lemma {:induction false} SettleSame(home: seq<Block>, pages: seq<Page>, b: nat, x: Block)
    requires b < |home| && (home[b] == x || Written(pages, b))
    requires forall i :: 0 <= i < |pages| && pages[i].block == b ==> pages[i].data == x
    ensures Settle(home, pages)[b] == x
    decreases |pages|
  {
    if pages != [] {
      var n := |pages| - 1;
      var init := pages[..n];
      if pages[n].block != b {
        if Written(pages, b) {
          var i :| 0 <= i < |pages| && pages[i].block == b;
          assert init[i].block == b;
        }
        SettleSame(home, init, b, x);
      }
    }
  }

  lemma {:induction false} SettleEither(home: seq<Block>, pages: seq<Page>, b: nat, x: Block)
    requires b < |home|
    requires forall i :: 0 <= i < |pages| && pages[i].block == b ==> pages[i].data == x
    ensures Settle(home, pages)[b] == home[b] || Settle(home, pages)[b] == x
  {
    if Written(pages, b) { SettleSame(home, pages, b, x); } else { SettleAway(home, pages, b); }
  }

  lemma WrittenConcat(p: seq<Page>, q: seq<Page>, b: nat)
    ensures Written(p + q, b) <==> Written(p, b) || Written(q, b)
  {
    if Written(p, b) {
      var i :| 0 <= i < |p| && p[i].block == b;
      assert (p + q)[i].block == b;
    }
    if Written(q, b) {
      var i :| 0 <= i < |q| && q[i].block == b;
      assert (p + q)[|p| + i].block == b;
    }
  }

  // ---- steps that leave the log alone ---------------------------------------------------

  lemma InvIsSound(g: Geometry, s: Sys)
    requires Inv(g, s)
    ensures Sound(g, s)
  {
    hide LogInv, Freed, Loads;
    if s.pc.Ordered? {
      var e := Entries(s.cache, s.tx);
      forall x | x in e ensures x.target < g.fsBlocks && (g.wide || x.target < U32) {
        var i :| 0 <= i < |e| && e[i] == x;
        assert s.tx[i] in s.tx && HeldOk(g, s, s.tx[i]);
      }
    }
  }

  /** The log part of the invariant does not mention the cache. */
  ghost predicate SameLog(s: Sys, t: Sys) {
    s.disk.log == t.disk.log && s.logPending == t.logPending && s.logged == t.logged
    && s.sequence == t.sequence && s.head == t.head && s.pc == t.pc
  }

  lemma LogInvSame(g: Geometry, s: Sys, t: Sys)
    requires Shape(g, s) && Shape(g, t) && SameLog(s, t) && LogInv(g, s)
    ensures LogInv(g, t)
  {
    hide Loads, EmptyLog, CommittedLog, PointedLog, Prepared, DescriptorBlock, Copies, CommitBlock, Update, Writable,
      Distinct;
  }

  lemma MetaWriteKeeps(g: Geometry, s: Sys, b: nat, image: Block)
    requires Inv(g, s) && Sound(g, s) && Enabled(g, s, MetaWrite(b, image))
    ensures Inv(g, Take(g, s, MetaWrite(b, image)))
  {
    hide Loads, LogInv, Fits, Be32;
    var t := Take(g, s, MetaWrite(b, image));
    forall k | k in t.held ensures HeldOk(g, t, k) {
      if k != b || b in s.held { assert HeldOk(g, s, k); }
    }
    forall i, j | 0 <= i < j < |t.tx| ensures t.tx[i] != t.tx[j] {
      if j == |s.tx| { assert s.tx[i] in s.tx; }
    }
    LogInvSame(g, s, t);
  }

  lemma DataWriteKeeps(g: Geometry, s: Sys, b: nat, image: Block)
    requires Inv(g, s) && Sound(g, s) && Enabled(g, s, DataWrite(b, image))
    ensures Inv(g, Take(g, s, DataWrite(b, image)))
  {
    hide Loads, LogInv, Fits, Be32, Writable;
    var t := Take(g, s, DataWrite(b, image));
    if Holding(s.pc) {
      forall k | k in t.held ensures HeldOk(g, t, k) { assert HeldOk(g, s, k); }
      EntriesSame(s.cache, t.cache, s.tx);
    } else {
      forall i | 0 <= i < |t.logged| ensures ReleasedOk(g, t, t.logged[i]) {
        assert ReleasedOk(g, s, s.logged[i]) && s.logged[i].target != b;
      }
    }
    LogInvSame(g, s, t);
  }

  /** Pages leave the cache for the device; none of them is held. */
  lemma WriteBackKeeps(g: Geometry, s: Sys, pages: seq<Page>, cache: map<nat, Block>)
    requires Inv(g, s)
    requires forall i :: 0 <= i < |pages| ==>
               pages[i].block in s.cache && pages[i].block !in s.held && pages[i].data == s.cache[pages[i].block]
    requires forall b :: b in cache ==> b in s.cache && cache[b] == s.cache[b]
    requires forall b :: b in s.cache && b !in cache ==> Written(pages, b)
    ensures Inv(g, s.(homePending := s.homePending + pages, cache := cache))
  {
    hide Loads, LogInv, Fits, Be32, Writable;
    var t := s.(homePending := s.homePending + pages, cache := cache);
    if Holding(s.pc) {
      forall k | k in t.held ensures HeldOk(g, t, k) {
        assert HeldOk(g, s, k);
        WrittenConcat(s.homePending, pages, k);
      }
      EntriesSame(s.cache, t.cache, s.tx);
    } else {
      forall i | 0 <= i < |t.logged| ensures ReleasedOk(g, t, t.logged[i]) {
        assert ReleasedOk(g, s, s.logged[i]);
        WrittenConcat(s.homePending, pages, s.logged[i].target);
      }
    }
    LogInvSame(g, s, t);
  }

  lemma RunWritten(cache: map<nat, Block>, b: nat, count: nat)
    requires forall k: nat :: InRun(b, count, k) ==> k in cache
    ensures forall k: nat :: InRun(b, count, k) ==> Written(RunPages(cache, b, count), k)
    ensures forall i :: 0 <= i < |RunPages(cache, b, count)| ==>
              var p := RunPages(cache, b, count)[i];
              InRun(b, count, p.block) && p.block in cache && p.data == cache[p.block]
  {
    var pages := RunPages(cache, b, count);
    forall k: nat | InRun(b, count, k) ensures Written(pages, k) {
      assert pages[k - b].block == k;
    }
  }

  lemma EvictKeeps(g: Geometry, s: Sys, b: nat, count: nat)
    requires Inv(g, s) && Sound(g, s) && Enabled(g, s, Evict(b, count))
    ensures Inv(g, Take(g, s, Evict(b, count)))
  {
    hide Inv, Sound, RunPages, Written;
    RunWritten(s.cache, b, count);
    var t := Take(g, s, Evict(b, count));
    WriteBackKeeps(g, s, RunPages(s.cache, b, count), t.cache);
    assert t == s.(homePending := s.homePending + RunPages(s.cache, b, count), cache := t.cache);
  }

  lemma EntriesSame(x: map<nat, Block>, y: map<nat, Block>, tx: seq<nat>)
    requires forall b :: b in tx && b in x ==> b in y && y[b] == x[b]
    requires forall b :: b in tx ==> b in x
    ensures Entries(x, tx) == Entries(y, tx)
  {}

  ghost predicate SameHome(s: Sys, t: Sys) {
    s.disk.home == t.disk.home && s.homePending == t.homePending && s.cache == t.cache && s.held == t.held
    && s.tx == t.tx && s.logged == t.logged && s.before == t.before
  }

  predicate Early(pc: Pc) {
    pc.Idle? || pc.Ordering? || pc.Ordered?
  }

  /** The hold part of the invariant follows the transaction, not the program counter. */
  lemma HoldsSame(g: Geometry, s: Sys, t: Sys)
    requires |s.disk.home| == g.fsBlocks && SameHome(s, t) && Holds(g, s) && Freed(g, s)
    requires Holding(s.pc) == Holding(t.pc) && Early(s.pc) == Early(t.pc)
      && (!t.pc.Idle? && Holding(t.pc) ==> t.tx != [])
    requires t.pc.Draining? ==> OutOfCache(t.cache, t.logged)
    ensures Holds(g, t) && Freed(g, t)
  {
    hide Fits, Be32, Writable, Entries;
    if Holding(s.pc) {
      forall k | k in t.held ensures HeldOk(g, t, k) { assert HeldOk(g, s, k); }
    } else {
      forall i | 0 <= i < |t.logged| ensures ReleasedOk(g, t, t.logged[i]) { assert ReleasedOk(g, s, s.logged[i]); }
    }
  }

  lemma Busy(g: Geometry, s: Sys)
    requires |s.disk.home| == g.fsBlocks && Holds(g, s)
    ensures Holding(s.pc) && !s.pc.Idle? ==> s.tx != []
  {}

  lemma FreedMeans(g: Geometry, s: Sys)
    requires |s.disk.home| == g.fsBlocks && Freed(g, s)
    ensures !Holding(s.pc) ==> s.held == {} && s.tx == []
  {}

  lemma SyncKeeps(g: Geometry, s: Sys, pages: seq<Page>)
    requires Inv(g, s) && Sound(g, s) && Enabled(g, s, Sync(pages))
    ensures Inv(g, Take(g, s, Sync(pages)))
  {
    hide Loads, EmptyLog, Holds, Freed, Writable, Entries, Inv;
    var t := Take(g, s, Sync(pages));
    var u := s.(homePending := s.homePending + pages, cache := t.cache);
    WriteBackKeeps(g, s, pages, t.cache);
    if s.pc.Cleared? { SyncEmpties(g, s, pages); }
    SyncMoves(g, u, t);
  }

  /** Nothing is held at the final sync, so nothing stays in the cache. */
  lemma SyncEmpties(g: Geometry, s: Sys, pages: seq<Page>)
    requires Inv(g, s) && Sound(g, s) && s.pc.Cleared? && Enabled(g, s, Sync(pages))
    ensures Take(g, s, Sync(pages)).cache == map[]
  {
    hide LogInv, Loads, Holds, Freed, Writable, Entries, Covers;
    FreedMeans(g, s);
  }

  lemma SyncMoves(g: Geometry, u: Sys, t: Sys)
    requires Inv(g, u) && t == u.(pc := t.pc)
    requires (u.pc.Idle? && t.pc.Ordering? && u.tx != [] && u.sequence + 1 < U32) || (u.pc.Cleared? && t.pc.Draining?)
    requires t.pc.Draining? ==> OutOfCache(t.cache, t.logged)
    ensures Inv(g, t)
  {
    hide Loads, EmptyLog, Holds, Freed;
    HoldsSame(g, u, t);
  }

  lemma NonEmptyHas(pages: seq<Page>)
    ensures pages != [] ==> exists p :: p in pages
  {
    if pages != [] { assert pages[0] in pages; }
  }

  /** With the holds already dropped, a checkpoint finds no held page and writes nothing. */
  lemma CheckpointWritesNothing(g: Geometry, s: Sys, pages: seq<Page>)
    requires Inv(g, s) && Sound(g, s) && Enabled(g, s, Checkpoint(pages))
    ensures pages == []
    ensures Take(g, s, Checkpoint(pages)) == s.(pc := Checkpointing)
  {
    hide LogInv, Loads, Holds, Freed, Writable, Entries;
    FreedMeans(g, s);
    NonEmptyHas(pages);
    assert forall p :: p in pages ==> p.block in s.held;
    assert (map k | k in s.cache && k !in s.held :: s.cache[k]) == s.cache;
    assert s.homePending + [] == s.homePending;
  }

  lemma CheckpointKeeps(g: Geometry, s: Sys, pages: seq<Page>)
    requires Inv(g, s) && Sound(g, s) && Enabled(g, s, Checkpoint(pages))
    ensures Inv(g, Take(g, s, Checkpoint(pages)))
  {
    hide Loads, CommittedLog, Holds, Freed, Take, Sound, CoversHeld;
    CheckpointWritesNothing(g, s, pages);
    HoldsSame(g, s, s.(pc := Checkpointing));
  }

  // ---- positions of the copies --------------------------------------------------------------

  lemma {:induction false} LoggedAt(g: Geometry, log: seq<Block>, at: nat, tx: seq<Entry>)
    requires g.Valid() && |log| == g.maxlen && InLog(g, at) && |tx| <= g.maxlen - g.first
    requires forall i :: 0 <= i < |tx| ==> AdvanceBy(g, at, i) < g.maxlen && log[AdvanceBy(g, at, i)] == tx[i].image
    ensures Logged(g, log, at, tx)
    decreases |tx|
  {
    if tx != [] {
      assert AdvanceBy(g, at, 0) == at;
      forall i | 0 <= i < |tx[1..]|
        ensures AdvanceBy(g, g.Advance(at), i) < g.maxlen && log[AdvanceBy(g, g.Advance(at), i)] == tx[1..][i].image
      {
        assert AdvanceBy(g, at, i + 1) == AdvanceBy(g, g.Advance(at), i);
      }
      LoggedAt(g, log, g.Advance(at), tx[1..]);
    }
  }

  lemma {:induction false} LoggedMeans(g: Geometry, log: seq<Block>, at: nat, tx: seq<Entry>, i: nat)
    requires g.Valid() && |log| == g.maxlen && Logged(g, log, at, tx) && i < |tx|
    ensures AdvanceBy(g, at, i) < g.maxlen && log[AdvanceBy(g, at, i)] == tx[i].image
    decreases i
  {
    if i > 0 { LoggedMeans(g, log, g.Advance(at), tx[1..], i - 1); }
  }

  lemma {:induction false} CopiesAt(g: Geometry, at: nat, tx: seq<Entry>)
    requires g.Valid() && InLog(g, at) && |tx| < g.maxlen - g.first
    ensures forall k :: k in Copies(g, at, tx) ==>
      exists i: nat :: i < |tx| && k == AdvanceBy(g, at, i) && Copies(g, at, tx)[k] == tx[i].image
    ensures forall i: nat :: i < |tx| ==>
      AdvanceBy(g, at, i) in Copies(g, at, tx) && Copies(g, at, tx)[AdvanceBy(g, at, i)] == tx[i].image
    decreases |tx|
  {
    if tx != [] {
      var m, rest := Copies(g, at, tx), Copies(g, g.Advance(at), tx[1..]);
      assert AdvanceBy(g, at, 0) == at;
      CopiesAt(g, g.Advance(at), tx[1..]);
      forall i: nat | i < |tx| ensures AdvanceBy(g, at, i) in m && m[AdvanceBy(g, at, i)] == tx[i].image {
        if i > 0 {
          PositionsDiffer(g, at, 0, i);
          assert AdvanceBy(g, at, i) == AdvanceBy(g, g.Advance(at), i - 1);
        }
      }
      forall k | k in m ensures exists i: nat :: i < |tx| && k == AdvanceBy(g, at, i) && m[k] == tx[i].image {
        if k != at {
          var i: nat :| i < |tx[1..]| && k == AdvanceBy(g, g.Advance(at), i) && rest[k] == tx[1..][i].image;
          assert k == AdvanceBy(g, at, i + 1) && m[k] == tx[i + 1].image;
        } else {
          assert k == AdvanceBy(g, at, 0) && m[k] == tx[0].image;
        }
      }
    }
  }

  // ---- flushing ------------------------------------------------------------------------------

  /** A flush moves no held block and completes the released ones. */
  lemma FlushKeepsHome(g: Geometry, s: Sys, t: Sys)
    requires Shape(g, s) && Holds(g, s) && Freed(g, s)
    requires t.disk.home == Settle(s.disk.home, s.homePending) && t.homePending == [] && t.cache == s.cache
    requires t.held == s.held && t.tx == s.tx && t.logged == s.logged && t.before == s.before
    requires Holding(s.pc) == Holding(t.pc) && Early(s.pc) == Early(t.pc) && !s.pc.Idle? && !t.pc.Idle?
      && !t.pc.Draining?
    ensures Holds(g, t) && Freed(g, t)
  {
    hide Fits, Be32, Writable, Entries, Loads;
    if Holding(s.pc) {
      forall k | k in t.held ensures HeldOk(g, t, k) {
        assert HeldOk(g, s, k);
        SettleAway(s.disk.home, s.homePending, k);
      }
    } else {
      forall i | 0 <= i < |t.logged| ensures ReleasedOk(g, t, t.logged[i]) {
        var e := s.logged[i];
        assert ReleasedOk(g, s, e);
        SettleEither(s.disk.home, s.homePending, e.target, e.image);
        if e.target !in s.cache { SettleSame(s.disk.home, s.homePending, e.target, e.image); }
      }
    }
  }

  /** The log after a flush differs only where it was written. */
  lemma FlushShape(g: Geometry, s: Sys, t: Sys)
    requires Shape(g, s) && t.disk == Flush(s).disk && t.homePending == [] && t.cache == s.cache
    requires InLog(g, t.head) && t.sequence < U32
    requires 0 !in s.logPending || Loads(g, s.logPending[0])
    ensures Shape(g, t)
  {
    hide Loads;
  }

  lemma OverlayNothing(log: seq<Block>)
    ensures Overlay(log, map[]) == log
  {}

  lemma TickOrdering(g: Geometry, s: Sys)
    requires Inv(g, s) && Sound(g, s) && s.pc.Ordering?
    ensures Inv(g, TakeTick(g, s))
  {
    hide Loads, EmptyLog, Holds, Freed, Settle, Overlay, Writable, Entries;
    var t := TakeTick(g, s);
    OverlayNothing(s.disk.log);
    FlushKeepsHome(g, s, t);
    FlushShape(g, s, t);
  }

  lemma TickOrdered(g: Geometry, s: Sys)
    requires Inv(g, s) && Sound(g, s) && s.pc.Ordered?
    ensures Inv(g, TakeTick(g, s))
  {
    hide Loads, EmptyLog, Writable, DescriptorBlock, Be32, Fits;
    var t := TakeTick(g, s);
    forall k | k in t.held ensures HeldOk(g, t, k) { assert HeldOk(g, s, k); }
  }

  lemma TickDescribing(g: Geometry, s: Sys)
    requires Inv(g, s) && Sound(g, s) && s.pc.Describing?
    ensures Inv(g, TakeTick(g, s))
  {
    hide Loads, Holds, Freed, Settle, DescriptorBlock, Writable, Entries, Start, Sequence, HeadField, Stale;
    var t := TakeTick(g, s);
    FlushKeepsHome(g, s, t);
    FlushShape(g, s, t);
  }

  lemma TickDescribed(g: Geometry, s: Sys)
    requires Inv(g, s) && Sound(g, s) && s.pc.Described?
    ensures Inv(g, TakeTick(g, s))
  {
    hide Loads, Holds, Freed, DescriptorBlock, Writable, EmptyLog, Copies, Entries;
    Busy(g, s);
    HoldsSame(g, s, TakeTick(g, s));
  }

  lemma TickCopied(g: Geometry, s: Sys)
    requires Inv(g, s) && Sound(g, s) && s.pc.Copied?
    ensures Inv(g, TakeTick(g, s))
  {
    hide Loads, Holds, Freed, Prepared, Writable, EmptyLog, Update, Entries, Distinct;
    Busy(g, s);
    HoldsSame(g, s, TakeTick(g, s));
  }

  lemma TickPointed(g: Geometry, s: Sys)
    requires Inv(g, s) && Sound(g, s) && s.pc.Pointed?
    ensures Inv(g, TakeTick(g, s))
  {
    hide Loads, Holds, Freed, PointedLog, CommitBlock, CommitAt, Writable, Entries;
    Busy(g, s);
    HoldsSame(g, s, TakeTick(g, s));
  }

  lemma TickCheckpointing(g: Geometry, s: Sys)
    requires Inv(g, s) && Sound(g, s) && s.pc.Checkpointing?
    ensures Inv(g, TakeTick(g, s))
  {
    hide Loads, CommittedLog, Holds, Freed, Settle, Overlay, Writable, Entries;
    var t := TakeTick(g, s);
    OverlayNothing(s.disk.log);
    FlushKeepsHome(g, s, t);
    FlushShape(g, s, t);
  }

  lemma TickCheckpointed(g: Geometry, s: Sys)
    requires Inv(g, s) && Sound(g, s) && s.pc.Checkpointed?
    ensures Inv(g, TakeTick(g, s))
  {
    hide Loads, Holds, Freed, CommittedLog, Update, Writable, Entries;
    HoldsSame(g, s, TakeTick(g, s));
  }

  lemma TickDraining(g: Geometry, s: Sys)
    requires Inv(g, s) && Sound(g, s) && s.pc.Draining?
    ensures Inv(g, TakeTick(g, s))
  {
    hide Loads, EmptyLog, Settle, Overlay, Writable, Entries, ReleasedOk;
    var t := TakeTick(g, s);
    OverlayNothing(s.disk.log);
    FlushShape(g, s, t);
  }

  // ---- flushes that change the log --------------------------------------------------------------

  ghost predicate PlainImages(tx: seq<Entry>) {
    forall e :: e in tx ==> Be32(e.image, 0) != MAGIC
  }

  lemma LoggedFacts(g: Geometry, s: Sys)
    requires Shape(g, s) && Holds(g, s) && Freed(g, s) && !Early(s.pc)
    ensures PlainImages(s.logged) && Distinct(s.logged)
  {
    hide Be32, Loads, Fits;
    forall e | e in s.logged ensures Be32(e.image, 0) != MAGIC {
      var i :| 0 <= i < |s.logged| && s.logged[i] == e;
      if Holding(s.pc) {
        assert s.tx[i] in s.tx && HeldOk(g, s, s.tx[i]);
      } else {
        assert ReleasedOk(g, s, s.logged[i]);
      }
    }
  }

  /** Writing the images completes the prepared transaction and leaves no confusing block behind. */
  lemma CopiesPrepare(g: Geometry, log: seq<Block>, head: nat, tx: seq<Entry>, sequence: nat)
    requires g.Valid() && |log| == g.maxlen && InLog(g, head) && sequence < U32 && Writable(g, tx) && PlainImages(tx)
    requires log[head] == DescriptorBlock(g, tx, sequence) && StaleLog(g, log, sequence, head)
    ensures var r := Overlay(log, Copies(g, g.Advance(head), tx));
      r[0] == log[0] && Prepared(g, r, head, tx, sequence) && StaleLog(g, r, sequence, head)
  {
    hide Be32, DescriptorBlock, Kind;
    var at := g.Advance(head);
    var m := Copies(g, at, tx);
    var r := Overlay(log, m);
    CopiesAt(g, at, tx);
    forall i: nat | i < |tx| ensures AdvanceBy(g, at, i) != head && InLog(g, AdvanceBy(g, at, i)) {
      PositionsDiffer(g, head, 0, i + 1);
      assert AdvanceBy(g, head, i + 1) == AdvanceBy(g, at, i);
    }
    LoggedAt(g, r, at, tx);
    forall k | g.first <= k < g.maxlen && k != head ensures Stale(r[k], sequence) {
      if k in m {
        var i: nat :| i < |tx| && k == AdvanceBy(g, at, i) && m[k] == tx[i].image;
        assert tx[i] in tx;
      } else {
        assert Stale(log[k], sequence);
      }
    }
  }

  lemma TickCopying(g: Geometry, s: Sys)
    requires Inv(g, s) && Sound(g, s) && s.pc.Copying?
    ensures Inv(g, TakeTick(g, s))
  {
    hide Loads, Holds, Freed, Settle, DescriptorBlock, Writable, Entries, Prepared, StaleLog, Copies, Overlay, Start,
      Sequence, HeadField;
    var t := TakeTick(g, s);
    LoggedFacts(g, s);
    CopiesPrepare(g, s.disk.log, s.head, s.logged, s.sequence);
    CopiesSpareSuper(g, s.head, s.logged);
    FlushKeepsHome(g, s, t);
    FlushShape(g, s, t);
  }

  lemma CopiesSpareSuper(g: Geometry, head: nat, tx: seq<Entry>)
    requires g.Valid() && InLog(g, head) && Writable(g, tx)
    ensures 0 !in Copies(g, g.Advance(head), tx)
  {
    var at := g.Advance(head);
    CopiesAt(g, at, tx);
    forall i: nat | i < |tx| ensures AdvanceBy(g, at, i) != 0 {
      PositionsDiffer(g, head, 0, i + 1);
      assert AdvanceBy(g, head, i + 1) == AdvanceBy(g, at, i);
    }
  }

  /** Rewriting one log block outside a prepared transaction leaves it prepared. */
  lemma PreparedElsewhere(g: Geometry, log: seq<Block>, head: nat, tx: seq<Entry>, sequence: nat, k: nat, x: Block)
    requires g.Valid() && |log| == g.maxlen && InLog(g, head) && sequence < U32 && Writable(g, tx)
    requires Prepared(g, log, head, tx, sequence)
    requires k == 0 || k == CommitAt(g, head, |tx|)
    ensures Prepared(g, Overlay(log, Single(k, x)), head, tx, sequence)
  {
    hide DescriptorBlock;
    var r := Overlay(log, Single(k, x));
    var at := g.Advance(head);
    PositionsDiffer(g, head, 0, |tx| + 1);
    forall i | 0 <= i < |tx| ensures AdvanceBy(g, at, i) < g.maxlen && r[AdvanceBy(g, at, i)] == tx[i].image {
      LoggedMeans(g, log, at, tx, i);
      PositionsDiffer(g, head, i + 1, |tx| + 1);
      assert AdvanceBy(g, head, i + 1) == AdvanceBy(g, at, i);
    }
    PositionsDiffer(g, head, 0, 1);
    LoggedAt(g, r, at, tx);
  }

  lemma SuperPoints(g: Geometry, log: seq<Block>, head: nat, tx: seq<Entry>, sequence: nat)
    requires g.Valid() && |log| == g.maxlen && InLog(g, head) && sequence + 1 < U32 && Writable(g, tx) && Distinct(tx)
    requires Prepared(g, log, head, tx, sequence) && StaleLog(g, log, sequence, head)
    ensures PointedLog(g, Overlay(log, Single(0, Update(log[0], head, sequence, head))), head, tx, sequence)
  {
    hide Prepared, StaleLog, Start, Sequence, HeadField, Update, Distinct, Writable;
    var sb := Update(log[0], head, sequence, head);
    UpdateReads(log[0], head, sequence, head);
    PreparedElsewhere(g, log, head, tx, sequence, 0, sb);
    StaleElsewhere(g, log, sequence, head, 0, sb);
  }

  lemma TickPointing(g: Geometry, s: Sys)
    requires Inv(g, s) && Sound(g, s) && s.pc.Pointing?
    ensures Inv(g, TakeTick(g, s))
  {
    hide Loads, Holds, Freed, Settle, Overlay, Writable, Entries, Prepared, PointedLog, StaleLog, Update, Distinct,
      Start, Sequence, HeadField;
    var t := TakeTick(g, s);
    SuperPoints(g, s.disk.log, s.head, s.logged, s.sequence);
    UpdateLoads(g, s.disk.log[0], s.head, s.sequence, s.head);
    FlushKeepsHome(g, s, t);
    FlushShape(g, s, t);
  }

  lemma StaleElsewhere(g: Geometry, log: seq<Block>, sequence: nat, head: nat, k: nat, x: Block)
    requires |log| == g.maxlen && StaleLog(g, log, sequence, head) && (k < g.first || Stale(x, sequence))
    ensures StaleLog(g, Overlay(log, Single(k, x)), sequence, head)
  {
    hide Stale;
  }

  lemma CommitWritten(g: Geometry, log: seq<Block>, head: nat, tx: seq<Entry>, sequence: nat)
    requires g.Valid() && |log| == g.maxlen && sequence < U32 && PointedLog(g, log, head, tx, sequence)
    ensures var c := CommitAt(g, head, |tx|); var r := Overlay(log, Single(c, CommitBlock(g, sequence)));
      InLog(g, c) && InLog(g, g.Advance(c)) && CommittedLog(g, r, tx, sequence + 1, g.Advance(c)) && r[0] == log[0]
  {
    hide CommitBlock, Prepared, IsCommit, Stale, StaleLog, Start, Sequence, Distinct, CommitAt, Loggable, Addressable;
    var c := CommitAt(g, head, |tx|);
    HeadIn(g, log, head, tx, sequence);
    CommitIn(g, head, |tx|);
    CommitBlockIsCommit(g, sequence);
    CommitIsStale(g, sequence);
    PreparedElsewhere(g, log, head, tx, sequence, c, CommitBlock(g, sequence));
    StaleElsewhere(g, log, sequence, head, c, CommitBlock(g, sequence));
    CommitLanded(g, log, Overlay(log, Single(c, CommitBlock(g, sequence))), head, tx, sequence, c);
  }

  lemma CommitIn(g: Geometry, head: nat, n: nat)
    requires g.Valid() && InLog(g, head) && Fits(g, n)
    ensures InLog(g, CommitAt(g, head, n)) && CommitAt(g, head, n) != head && InLog(g, g.Advance(CommitAt(g, head, n)))
  {
    PositionsDiffer(g, head, 0, n + 1);
  }

  lemma CommitLanded(g: Geometry, log: seq<Block>, r: seq<Block>, head: nat, tx: seq<Entry>, sequence: nat, c: nat)
    requires g.Valid() && |log| == |r| == g.maxlen && sequence < U32 && PointedLog(g, log, head, tx, sequence)
    requires c == CommitAt(g, head, |tx|) && InLog(g, c) && r[0] == log[0] && IsCommit(g, r[c], sequence)
    requires Prepared(g, r, head, tx, sequence) && StaleLog(g, r, sequence, head)
    ensures CommittedLog(g, r, tx, sequence + 1, g.Advance(c))
  {
    hide Prepared, IsCommit, StaleLog, Start, Sequence, Distinct, Writable, CommitAt;
  }

  lemma HeadIn(g: Geometry, log: seq<Block>, head: nat, tx: seq<Entry>, sequence: nat)
    requires g.Valid() && |log| == g.maxlen && sequence < U32 && Writable(g, tx) && Prepared(g, log, head, tx, sequence)
    ensures InLog(g, head)
  {}

  lemma TickCommitting(g: Geometry, s: Sys)
    requires Inv(g, s) && Sound(g, s) && s.pc.Committing?
    ensures Inv(g, TakeTick(g, s))
  {
    hide Loads, Holds, Freed, Settle, Writable, Entries, PointedLog, CommittedLog, CommitBlock, CommitAt, Overlay;
    var t := TakeTick(g, s);
    CommitWritten(g, s.disk.log, s.head, s.logged, s.sequence);
    PointedBound(g, s.disk.log, s.head, s.logged, s.sequence);
    FlushKeepsHome(g, s, t);
    FlushShape(g, s, t);
  }

  lemma PointedBound(g: Geometry, log: seq<Block>, head: nat, tx: seq<Entry>, sequence: nat)
    requires g.Valid() && |log| == g.maxlen && sequence < U32 && PointedLog(g, log, head, tx, sequence)
    ensures sequence + 1 < U32
  {}

  lemma TickDurable(g: Geometry, s: Sys)
    requires Inv(g, s) && Sound(g, s) && s.pc.Durable?
    ensures Inv(g, TakeTick(g, s))
  {
    hide Loads, Holds, Freed, Writable, Entries, LogInv, WriteDescriptor, WriteSuper, WriteCommit, PassCommit, Flush,
      Copies;
    var t := s.(held := {}, tx := [], pc := Released);
    ReleaseLog(g, s, t);
    Release(g, s, t);
  }

  lemma ReleaseLog(g: Geometry, s: Sys, t: Sys)
    requires Shape(g, s) && LogInv(g, s) && s.pc.Durable? && t == s.(held := {}, tx := [], pc := Released)
    ensures LogInv(g, t) && Writable(g, s.logged) && Distinct(s.logged)
  {
    hide CommittedLog, Loads, Writable, Distinct;
    CommittedCarries(g, s.disk.log, s.logged, s.sequence, s.head);
  }

  lemma CommittedCarries(g: Geometry, log: seq<Block>, tx: seq<Entry>, sequence: nat, head: nat)
    requires g.Valid() && |log| == g.maxlen && CommittedLog(g, log, tx, sequence, head)
    ensures Writable(g, tx) && Distinct(tx)
  {
    hide Prepared, IsCommit, StaleLog, Start, Sequence, Writable, Distinct;
  }

  lemma Release(g: Geometry, s: Sys, t: Sys)
    requires Shape(g, s) && Holds(g, s) && s.pc.Durable? && Writable(g, s.logged) && Distinct(s.logged)
    requires t == s.(held := {}, tx := [], pc := Released)
    ensures Holds(g, t) && Freed(g, t)
  {
    hide Loads, Be32, Fits;
    forall i | 0 <= i < |t.logged| ensures ReleasedOk(g, t, t.logged[i]) {
      assert s.tx[i] in s.tx && HeldOk(g, s, s.tx[i]);
    }
  }

  /** Past a committed transaction, every log block is older than the next number. */
  lemma AllOlder(g: Geometry, log: seq<Block>, head: nat, tx: seq<Entry>, sequence: nat, next: nat)
    requires g.Valid() && |log| == g.maxlen && sequence + 1 < U32 && Writable(g, tx) && InLog(g, head)
    requires log[head] == DescriptorBlock(g, tx, sequence) && StaleLog(g, log, sequence, head)
    ensures StaleLog(g, log, sequence + 1, next)
  {
    hide DescriptorBlock, Be32, Header, SumOk, TagArea;
    forall k | g.first <= k < g.maxlen ensures Stale(log[k], sequence + 1) {
      if k == head {
        DescriptorShape(g, tx, sequence);
        HeaderReads(log[head], DESCRIPTOR, sequence);
      } else {
        assert Stale(log[k], sequence);
      }
    }
  }

  lemma CommittedMeans(g: Geometry, log: seq<Block>, tx: seq<Entry>, sequence: nat, head: nat)
    requires g.Valid() && |log| == g.maxlen && CommittedLog(g, log, tx, sequence, head)
    ensures 1 <= sequence < U32 && InLog(g, Start(log[0])) && Writable(g, tx) && Distinct(tx)
    ensures Prepared(g, log, Start(log[0]), tx, sequence - 1)
    ensures log[Start(log[0])] == DescriptorBlock(g, tx, sequence - 1) && StaleLog(g, log, sequence - 1, Start(log[0]))
  {
    hide DescriptorBlock, IsCommit, Logged, StaleLog, Start, Sequence, Writable, Distinct;
  }

  /** Clearing the superblock leaves an empty log whose blocks are all older than the next number. */
  lemma ClearedLog(g: Geometry, log: seq<Block>, tx: seq<Entry>, sequence: nat, head: nat)
    requires g.Valid() && |log| == g.maxlen && CommittedLog(g, log, tx, sequence, head) && InLog(g, head)
      && sequence < U32
    ensures EmptyLog(g, Overlay(log, Single(0, Update(log[0], 0, sequence, head))), sequence, head)
  {
    hide DescriptorBlock, CommittedLog, Update, StaleLog, Start, Sequence, HeadField, Writable, Distinct, Prepared;
    CommittedMeans(g, log, tx, sequence, head);
    UpdateReads(log[0], 0, sequence, head);
    AllOlder(g, log, Start(log[0]), tx, sequence - 1, head);
    StaleElsewhere(g, log, sequence, head, 0, Update(log[0], 0, sequence, head));
  }

  lemma TickClearing(g: Geometry, s: Sys)
    requires Inv(g, s) && Sound(g, s) && s.pc.Clearing?
    ensures Inv(g, TakeTick(g, s))
  {
    hide Loads, Holds, Freed, Settle, Writable, Entries, CommittedLog, EmptyLog, Update;
    var t := TakeTick(g, s);
    ClearedLog(g, s.disk.log, s.logged, s.sequence, s.head);
    UpdateLoads(g, s.disk.log[0], 0, s.sequence, s.head);
    FlushKeepsHome(g, s, t);
    FlushShape(g, s, t);
  }

  // ---- all of them ------------------------------------------------------------------------------

  lemma TickKeeps(g: Geometry, s: Sys)
    requires Inv(g, s) && Sound(g, s) && !s.pc.Idle? && !s.pc.Released? && !s.pc.Cleared?
    ensures Inv(g, TakeTick(g, s))
  {
    hide Inv, Sound, TakeTick;
    match s.pc
    case Ordering => TickOrdering(g, s);
    case Ordered => TickOrdered(g, s);
    case Describing => TickDescribing(g, s);
    case Described => TickDescribed(g, s);
    case Copying => TickCopying(g, s);
    case Copied => TickCopied(g, s);
    case Pointing => TickPointing(g, s);
    case Pointed => TickPointed(g, s);
    case Committing => TickCommitting(g, s);
    case Durable => TickDurable(g, s);
    case Checkpointing => TickCheckpointing(g, s);
    case Checkpointed => TickCheckpointed(g, s);
    case Clearing => TickClearing(g, s);
    case Draining => TickDraining(g, s);
  }

  /** Every step keeps the invariant. */
  lemma StepKeeps(g: Geometry, s: Sys, l: Label)
    requires Inv(g, s) && Enabled(g, s, l)
    ensures Sound(g, s) && Inv(g, Take(g, s, l))
  {
    hide Inv, Sound, TakeTick, Covers, CoversHeld, Targets, Fits, Written, Be32;
    InvIsSound(g, s);
    match l
    case MetaWrite(b, image) => MetaWriteKeeps(g, s, b, image);
    case DataWrite(b, image) => DataWriteKeeps(g, s, b, image);
    case Evict(b, count) => EvictKeeps(g, s, b, count);
    case Sync(pages) => SyncKeeps(g, s, pages);
    case Checkpoint(pages) => CheckpointKeeps(g, s, pages);
    case Tick => TickKeeps(g, s);
  }
}
