/** The circular log around one transaction: positions, tearing, and what a scan finds. */
module JournalLog {
  import opened Bytes
  import opened JournalFormat
  import opened JournalRecovery

  // ---- positions ------------------------------------------------------------------

  predicate InLog(g: Geometry, at: nat) {
    g.first <= at < g.maxlen
  }

  lemma {:induction false} Position(g: Geometry, at: nat, k: nat)
    requires g.Valid() && InLog(g, at) && k <= g.maxlen - g.first
    ensures AdvanceBy(g, at, k) == if at + k < g.maxlen then at + k else at + k - (g.maxlen - g.first)
    decreases k
  {
    if k > 0 {
      if at + 1 == g.maxlen {
        Position(g, g.first, k - 1);
      } else {
        Position(g, at + 1, k - 1);
      }
    }
  }

  /** The block `k` places after `at`. */
  lemma PositionsDiffer(g: Geometry, at: nat, i: nat, j: nat)
    requires g.Valid() && InLog(g, at) && i < j < g.maxlen - g.first
    ensures InLog(g, AdvanceBy(g, at, i)) && InLog(g, AdvanceBy(g, at, j))
    ensures AdvanceBy(g, at, i) != AdvanceBy(g, at, j)
  {
    Position(g, at, i);
    Position(g, at, j);
  }

  /** A transaction of n blocks occupies a descriptor, n images and a commit block. */
  function CommitAt(g: Geometry, head: nat, n: nat): nat {
    AdvanceBy(g, head, n + 1)
  }

  predicate Fits(g: Geometry, n: nat) {
    1 <= n <= 127 && n + 2 <= g.maxlen - g.first
  }

  // ---- tearing ---------------------------------------------------------------------

  function Sector(b: Block, k: nat): seq<Byte>
    requires k < 8
  {
    b[512 * k..512 * k + 512]
  }

  /** Every 512-byte sector is the earlier one or the later one. */
  ghost predicate Torn(before: Block, after: Block, got: Block) {
    forall k: nat :: k < 8 ==> Sector(got, k) == Sector(before, k) || Sector(got, k) == Sector(after, k)
  }

  lemma SectorsDecide(a: Block, b: Block)
    requires forall k: nat :: k < 8 ==> Sector(a, k) == Sector(b, k)
    ensures a == b
  {
    forall i | 0 <= i < BLOCK ensures a[i] == b[i] {
      var k := i / 512;
      assert Sector(a, k) == Sector(b, k);
      assert a[i] == Sector(a, k)[i - 512 * k] && b[i] == Sector(b, k)[i - 512 * k];
    }
  }

  lemma TornSame(b: Block, got: Block)
    requires Torn(b, b, got)
    ensures got == b
  {
    SectorsDecide(got, b);
  }

  /** A write that only changes the first sector is all or nothing. */
  lemma TornFirstSector(before: Block, after: Block, got: Block)
    requires Torn(before, after, got) && before[512..] == after[512..]
    ensures got == before || got == after
  {
    forall k: nat | 1 <= k < 8 ensures Sector(before, k) == Sector(after, k) {
      assert Sector(before, k) == before[512..][512 * k - 512..512 * k];
      assert Sector(after, k) == after[512..][512 * k - 512..512 * k];
    }
    if Sector(got, 0) == Sector(before, 0) {
      SectorsDecide(got, before);
    } else {
      SectorsDecide(got, after);
    }
  }

  lemma HeaderInSector(a: Block, b: Block)
    requires Sector(a, 0) == Sector(b, 0)
    ensures Be32(a, 0) == Be32(b, 0) && Be32(a, 4) == Be32(b, 4) && Be32(a, 8) == Be32(b, 8)
  {
    SubSlice(a, 0, 512, 0, 4); SubSlice(a, 0, 512, 4, 8); SubSlice(a, 0, 512, 8, 12);
    SubSlice(b, 0, 512, 0, 4); SubSlice(b, 0, 512, 4, 8); SubSlice(b, 0, 512, 8, 12);
  }

  // ---- left-over blocks ----------------------------------------------------------------

  /** A block that cannot be mistaken for part of transaction `sequence`, its commit aside. */
  predicate Stale(b: Block, sequence: nat) {
    Be32(b, 0) == MAGIC ==> Be32(b, 8) < sequence || (Be32(b, 8) == sequence && Kind(b) == COMMIT)
  }

  ghost predicate StaleLog(g: Geometry, log: seq<Block>, sequence: nat, head: nat)
    requires |log| == g.maxlen
  {
    forall i :: g.first <= i < g.maxlen && i != head ==> Stale(log[i], sequence)
  }

  lemma StaleTorn(before: Block, after: Block, got: Block, sequence: nat)
    requires Torn(before, after, got) && Stale(before, sequence) && Stale(after, sequence)
    ensures Stale(got, sequence)
  {
    if Sector(got, 0) == Sector(before, 0) {
      HeaderInSector(got, before);
    } else {
      HeaderInSector(got, after);
    }
  }

  lemma CommitIsStale(g: Geometry, sequence: nat)
    requires sequence < U32
    ensures Stale(CommitBlock(g, sequence), sequence)
  {
    hide CommitBlock, SumOk;
    CommitBlockIsCommit(g, sequence);
  }

  // ---- scanning one transaction -------------------------------------------------------------

  ghost predicate Writable(g: Geometry, tx: seq<Entry>) {
    Loggable(g, tx) && Addressable(g, tx) && Fits(g, |tx|)
  }

  /** Descriptor and images of a transaction are in place from `head`. */
  ghost predicate Prepared(g: Geometry, log: seq<Block>, head: nat, tx: seq<Entry>, sequence: nat)
    requires g.Valid() && |log| == g.maxlen && sequence < U32 && Writable(g, tx)
  {
    InLog(g, head) && log[head] == DescriptorBlock(g, tx, sequence) && Logged(g, log, g.Advance(head), tx)
  }

  /** A scan from a prepared transaction finds it, whole, when its commit block is valid, and
      nothing otherwise; it never runs on into older blocks. */
  lemma ScanPrepared(g: Geometry, log: seq<Block>, head: nat, tx: seq<Entry>, sequence: nat)
    requires g.Valid() && |log| == g.maxlen && sequence + 1 < U32 && Writable(g, tx)
    requires Prepared(g, log, head, tx, sequence) && StaleLog(g, log, sequence, head)
    ensures var c := CommitAt(g, head, |tx|);
      InLog(g, c) && InLog(g, g.Advance(c)) && c != head
      && Committed(g, log, head, sequence, 0, 0, [])
         == if IsCommit(g, log[c], sequence) then [Tx(sequence, Writes(tx), g.Advance(c))] else []
  {
    hide DescriptorBlock, SumOk, Be32, ReadTags, Logged;
    var n, c := |tx|, CommitAt(g, head, |tx|);
    PositionsDiffer(g, head, 0, n + 1);
    PositionsDiffer(g, head, 0, 1);
    var d := log[head];
    DescriptorRoundTrip(g, log, tx, sequence, g.Advance(head), 1);
    assert Next(g, log, head, sequence, 0, 0) == More(Writes(tx), c, n + 1, 0);
    assert Stale(log[c], sequence);
    var next := Next(g, log, c, sequence, n + 1, 0);
    assert next == if IsCommit(g, log[c], sequence) then Commit(g.Advance(c), n + 2) else End;
    if IsCommit(g, log[c], sequence) {
      FollowingIsOld(g, log, g.Advance(c), head, sequence, tx);
      ScanStops(g, log, g.Advance(c), sequence + 1, n + 2);
    }
    ScanUnfolds(g, log, head, c, sequence, tx);
  }

  lemma FollowingIsOld(g: Geometry, log: seq<Block>, at: nat, head: nat, sequence: nat, tx: seq<Entry>)
    requires g.Valid() && |log| == g.maxlen && sequence + 1 < U32 && Writable(g, tx)
    requires Prepared(g, log, head, tx, sequence) && StaleLog(g, log, sequence, head) && InLog(g, at)
    ensures !HasHeader(log[at], sequence + 1)
  {
    hide DescriptorBlock, SumOk, Be32, Logged, Header;
    if at == head {
      DescriptorShape(g, tx, sequence);
      HeaderReads(log[head], DESCRIPTOR, sequence);
    } else {
      assert Stale(log[at], sequence);
    }
  }

  lemma ScanStops(g: Geometry, log: seq<Block>, at: nat, sequence: nat, consumed: nat)
    requires g.Valid() && |log| == g.maxlen && at < g.maxlen && sequence < U32 && !HasHeader(log[at], sequence)
    ensures Committed(g, log, at, sequence, consumed, 0, []) == []
  {}

  lemma ScanUnfolds(g: Geometry, log: seq<Block>, head: nat, c: nat, sequence: nat, tx: seq<Entry>)
    requires g.Valid() && |log| == g.maxlen && head < g.maxlen && c < g.maxlen && sequence + 1 < U32
    requires |tx| + 2 <= g.maxlen - g.first
    requires Next(g, log, head, sequence, 0, 0) == More(Writes(tx), c, |tx| + 1, 0)
    requires Next(g, log, c, sequence, |tx| + 1, 0) == if IsCommit(g, log[c], sequence)
      then Commit(g.Advance(c), |tx| + 2) else End
    requires IsCommit(g, log[c], sequence) ==> Committed(g, log, g.Advance(c), sequence + 1, |tx| + 2, 0, []) == []
    ensures Committed(g, log, head, sequence, 0, 0, [])
         == if IsCommit(g, log[c], sequence) then [Tx(sequence, Writes(tx), g.Advance(c))] else []
  {
    hide Next, IsCommit;
    assert [] + Writes(tx) == Writes(tx);
    assert Committed(g, log, head, sequence, 0, 0, []) == Committed(g, log, c, sequence, |tx| + 1, 0, [] + Writes(tx));
  }

  // ---- what replaying it does -------------------------------------------------------------

  ghost predicate Distinct(tx: seq<Entry>) {
    forall i, j :: 0 <= i < j < |tx| ==> tx[i].target != tx[j].target
  }

  ghost predicate Targets(tx: seq<Entry>, b: nat) {
    exists i :: 0 <= i < |tx| && tx[i].target == b
  }

  /** Replaying one transaction puts every image in its place and leaves the rest alone. */
  lemma ReplayOne(g: Geometry, home: seq<Block>, tx: seq<Entry>, sequence: nat, next: nat)
    requires |home| == g.fsBlocks && Loggable(g, tx) && Distinct(tx)
    ensures var txs := [Tx(sequence, Writes(tx), next)];
      Replayable(home, txs) && |Replay(home, txs, 0)| == |home|
      && (forall i :: 0 <= i < |tx| ==> Replay(home, txs, 0)[tx[i].target] == tx[i].image)
      && (forall b: nat :: b < |home| && !Targets(tx, b) ==> Replay(home, txs, 0)[b] == home[b])
  {
    var events := Writes(tx);
    var txs := [Tx(sequence, events, next)];
    forall e | e in events ensures e.Write? && e.target < |home| {
      var i :| 0 <= i < |events| && events[i] == e;
      assert tx[i] in tx;
    }
    forall b: nat ensures !Revoked(txs, 0, b) {
      assert Revoke(b) !in events;
    }
    forall i | 0 <= i < |tx| ensures Replay(home, txs, 0)[tx[i].target] == tx[i].image {
      ReplayLast(home, txs, 0, 0, i, tx[i].target);
    }
    forall b: nat | b < |home| && !Targets(tx, b) ensures Replay(home, txs, 0)[b] == home[b] {
      ReplayUntouched(home, txs, 0, b);
    }
  }
}
