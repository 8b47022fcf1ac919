/** Cache eviction beside an open transaction: the batched write-back ignores holds. */
module JournalEvict {
  import opened Bytes
  import opened JournalFormat
  import opened JournalSuper
  import opened JournalLog
  import opened JournalCommit
  import opened JournalSteps
  import opened JournalCrash
  import opened JournalLeak

  const BATCH: nat := 256

  /** Pages an eviction of `b` writes: `b` and the dirty pages right after it, held or not. */
  function RunFrom(cache: map<nat, Block>, b: nat, limit: nat): (n: nat)
    ensures forall k: nat :: InRun(b, n, k) ==> k in cache
    decreases limit
  {
    if limit == 0 || b !in cache then 0 else 1 + RunFrom(cache, b + 1, limit - 1)
  }

  /** The cache after evicting dirty page `b`. */
  ghost function Evicted(s: Sys, b: nat): Sys {
    Spilt(s, b, RunFrom(s.cache, b, BATCH))
  }

  /** No changed block of the transaction is in the run. */
  ghost predicate SparesTransaction(s: Sys, b: nat) {
    forall k: nat :: InRun(b, RunFrom(s.cache, b, BATCH), k) && k in s.held && k in s.before ==>
      s.cache[k] == s.before[k]
  }

  /** An eviction is one of the moves of a commit from which held pages may escape. */
  lemma EvictionLeaks(g: Geometry, s: Sys, b: nat)
    requires Inv(g, s) && Holding(s.pc) && b in s.cache && b !in s.held
    ensures LeakInv(g, Evicted(s, b)) && Changed(Evicted(s, b)) == Changed(s) && AllUnderway(Evicted(s, b))
  {
    hide Inv, LeakInv, Changed, RunFrom, AllUnderway;
    var n := RunFrom(s.cache, b, BATCH);
    InvIsLeak(g, s);
    SpillKeeps(g, s, b, n);
    SpillFrame(g, s, b, n);
    LeakUnderway(g, Evicted(s, b));
  }

  /** A block of the transaction is old on the medium, and on its way only in the run. */
  lemma HeldEvicted(g: Geometry, s: Sys, b: nat, i: nat)
    requires Inv(g, s) && Holding(s.pc) && b in s.cache && b !in s.held && i < |Changed(s)|
    ensures var t, e := Evicted(s, b), Changed(s)[i];
      e.target in s.held && e.target in s.before && e.target in s.cache && e.image == s.cache[e.target]
      && e.target < |t.disk.home| && t.disk.home[e.target] == s.before[e.target]
      && (Written(t.homePending, e.target) <==> InRun(b, RunFrom(s.cache, b, BATCH), e.target))
  {
    hide Loads, LogInv, Freed, Be32, Fits, RunPages, RunFrom;
    var n, e := RunFrom(s.cache, b, BATCH), Changed(s)[i];
    assert e.target == s.tx[i] && s.tx[i] in s.tx && HeldOk(g, s, e.target);
    RunWritten(s.cache, b, n);
    WrittenConcat(s.homePending, RunPages(s.cache, b, n), e.target);
  }

  lemma SparedStaysOld(g: Geometry, s: Sys, b: nat, i: nat, k: nat)
    requires Inv(g, s) && Holding(s.pc) && b in s.cache && b !in s.held && SparesTransaction(s, b)
    ensures !CanBeNew(Evicted(s, b), i, k)
  {
    hide Inv, Changed, Sector, RunFrom, RunPages, Written;
    EvictionLeaks(g, s, b);
    if i < |Changed(s)| { HeldEvicted(g, s, b, i); }
  }

  /** A changed block in the run has a changed sector. */
  lemma RunChanges(g: Geometry, s: Sys, b: nat) returns (i: nat, k: nat)
    requires Inv(g, s) && Holding(s.pc) && b in s.cache && b !in s.held && !SparesTransaction(s, b)
    ensures Differs(Changed(s), s.before, i, k) && InRun(b, RunFrom(s.cache, b, BATCH), Changed(s)[i].target)
  {
    hide Loads, LogInv, Freed, Be32, Fits, RunFrom, Sector;
    var t: nat :|
      InRun(b, RunFrom(s.cache, b, BATCH), t) && t in s.held && t in s.before && s.cache[t] != s.before[t];
    assert HeldOk(g, s, t);
    i :| 0 <= i < |s.tx| && s.tx[i] == t;
    assert Changed(s)[i] == Entry(t, s.cache[t]);
    if forall m: nat :: m < 8 ==> Sector(s.before[t], m) == Sector(s.cache[t], m) {
      SectorsDecide(s.before[t], s.cache[t]);
    }
    k :| k < 8 && Sector(s.before[t], k) != Sector(s.cache[t], k);
  }

  lemma EvictionMixes(g: Geometry, s: Sys, b: nat)
    requires Inv(g, s) && Holding(s.pc) && b in s.cache && b !in s.held
    ensures Mixable(Evicted(s, b)) <==> !SparesTransaction(s, b) && !OneSector(Changed(s), s.before)
  {
    hide Inv, Changed, Sector, RunFrom, Written, SparesTransaction, OneSector, AllUnderway, CanBeNew, CanBeOld;
    EvictionLeaks(g, s, b);
    if SparesTransaction(s, b) {
      forall i: nat, k: nat ensures !CanBeNew(Evicted(s, b), i, k) { SparedStaysOld(g, s, b, i, k); }
    } else if OneSector(Changed(s), s.before) {
      OneSectorUnmixed(Evicted(s, b));
    } else {
      var i, k := RunChanges(g, s, b);
      HeldEvicted(g, s, b, i);
      ExposedMixes(Evicted(s, b), i, k);
    }
  }

  lemma EvictedCertain(g: Geometry, s: Sys, b: nat)
    ensures Certain(g, Evicted(s, b)) <==> Certain(g, s)
  {
    hide RunFrom, RunPages, CommitAt, IsCommit, Torn;
    var t, c := Evicted(s, b), CommitAt(g, s.head, |s.logged|);
    if c < |s.disk.log| {
      assert forall x: Block :: MayBe(t, c, x) <==> MayBe(s, c, x);
    }
  }

  /** Every cut after the eviction leaves all of the transaction or none of it. */
  ghost predicate EvictionIsAtomic(g: Geometry, s: Sys, b: nat) {
    forall d: Disk :: Crash(Evicted(s, b), d) ==> Mountable(g, d) && (Old(s, View(g, d)) || New(s, View(g, d)))
  }

  lemma SameTransaction(s: Sys, t: Sys, v: seq<Block>)
    requires Changed(t) == Changed(s) && t.before == s.before
    ensures (Old(t, v) <==> Old(s, v)) && (New(t, v) <==> New(s, v))
  {
    hide Changed;
  }

  lemma EvictionIsCut(g: Geometry, s: Sys, b: nat)
    requires Changed(Evicted(s, b)) == Changed(s)
    ensures EvictionIsAtomic(g, s, b) <==> CrashAtomic(g, Evicted(s, b))
  {
    hide Crash, Changed, Old, New, View, Mountable, RunFrom, RunPages;
    var t := Evicted(s, b);
    forall d: Disk | Mountable(g, d)
      ensures (Old(t, View(g, d)) <==> Old(s, View(g, d))) && (New(t, View(g, d)) <==> New(s, View(g, d)))
    {
      SameTransaction(s, t, View(g, d));
    }
  }

  /** As long as the transaction is held, evicting a dirty page keeps it all or nothing if and only if the run of dirty
      pages that goes with it contains no changed block of the transaction, or the transaction changes one sector in
      all, or its commit block is valid whatever the cut does to it. */
  lemma EvictionAtomicIff(g: Geometry, s: Sys, b: nat)
    requires Inv(g, s) && Holding(s.pc) && b in s.cache && b !in s.held
    ensures EvictionIsAtomic(g, s, b)
      <==> SparesTransaction(s, b) || OneSector(Changed(s), s.before) || Certain(g, s)
  {
    hide Inv, LeakInv, Changed, EvictionIsAtomic, CrashAtomic, SparesTransaction, OneSector, Mixable, MayBe,
      AllUnderway;
    EvictionLeaks(g, s, b);
    EvictionIsCut(g, s, b);
    LeakAtomicIff(g, Evicted(s, b));
    EvictionMixes(g, s, b);
    EvictedCertain(g, s, b);
  }

  /** Before the commit points at its log nothing of the transaction may show, and does not, if and only if the run
      contains no changed block of it. */
  lemma EvictionSafeIff(g: Geometry, s: Sys, b: nat)
    requires Inv(g, s) && Unpointed(s.pc) && b in s.cache && b !in s.held
    ensures (forall d: Disk :: Crash(Evicted(s, b), d) ==> Mountable(g, d) && Old(s, View(g, d)))
      <==> SparesTransaction(s, b)
  {
    hide Inv, Crash, Evicted, Old, New, View, Mountable, SparesTransaction;
    if SparesTransaction(s, b) {
      forall d: Disk | Crash(Evicted(s, b), d) ensures Mountable(g, d) && Old(s, View(g, d)) {
        UnpointedView(g, s, b, d);
        SparedIsOld(g, s, b, d);
      }
    } else {
      var d := ExposedIsNotOld(g, s, b);
      UnpointedView(g, s, b, d);
    }
  }

  lemma UnpointedView(g: Geometry, s: Sys, b: nat, d: Disk)
    requires Inv(g, s) && Unpointed(s.pc) && b in s.cache && b !in s.held && Crash(Evicted(s, b), d)
    ensures Mountable(g, d) && View(g, d) == d.home
  {
    hide Inv, LeakInv, Crash, Old, New, View, RunFrom, RunPages, Mountable, Changed, AllUnderway;
    EvictionLeaks(g, s, b);
    LeakView(g, Evicted(s, b), d);
    LogCut(Evicted(s, b), s, d);
    CutBeforePointing(g, s, Disk(s.disk.home, d.log));
    ViewEmpty(g, d);
  }

  /** A run that spares the transaction leaves the home blocks old. */
  lemma SparedIsOld(g: Geometry, s: Sys, b: nat, d: Disk)
    requires Inv(g, s) && Holding(s.pc) && b in s.cache && b !in s.held
    requires SparesTransaction(s, b) && Crash(Evicted(s, b), d)
    ensures Old(s, d.home)
  {
    hide Inv, LeakInv, Crash, Sector, RunFrom, Changed, AllUnderway, SparesTransaction, CanBeNew;
    var t := Evicted(s, b);
    EvictionLeaks(g, s, b);
    forall i | 0 <= i < |Changed(s)|
      ensures var k := Changed(s)[i].target; k in s.before && k < |d.home| && d.home[k] == s.before[k]
    {
      var k := Changed(s)[i].target;
      SectorFate(t, d, i, 0);
      forall l: nat | l < 8 ensures Sector(d.home[k], l) == Sector(s.before[k], l) {
        SparedStaysOld(g, s, b, i, l);
        SectorFate(t, d, i, l);
      }
      SectorsDecide(d.home[k], s.before[k]);
    }
  }

  lemma ExposedIsNotOld(g: Geometry, s: Sys, b: nat) returns (d: Disk)
    requires Inv(g, s) && Holding(s.pc) && b in s.cache && b !in s.held && !SparesTransaction(s, b)
    ensures Crash(Evicted(s, b), d) && !Old(s, d.home)
  {
    hide Inv, LeakInv, Crash, Sector, RunFrom, Changed, AllUnderway, SparesTransaction, WithSector, Written;
    var t := Evicted(s, b);
    EvictionLeaks(g, s, b);
    var i, k := RunChanges(g, s, b);
    HeldEvicted(g, s, b, i);
    NothingLanded(t);
    assert t.disk == Disk(t.disk.home, t.disk.log);
    OneLandedIsCrash(t, i, k, t.disk.log);
    d := Disk(OneLanded(t, i, k), t.disk.log);
    assert Sector(d.home[Changed(s)[i].target], k) == Sector(Changed(s)[i].image, k);
  }
}
