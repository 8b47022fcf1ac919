/** Recovery of a JBD2 log: which transactions count as committed, and what replaying them means. */
module JournalRecovery {
  import opened Bytes
  import opened JournalFormat

  /** A complete, checksummed transaction; `next` is the log block after its commit block. */
  datatype Tx = Tx(sequence: nat, events: seq<Event>, next: nat)

  // ---- revoke blocks -----------------------------------------------------------

  function RecordBytes(g: Geometry): nat {
    if g.wide then 8 else 4
  }

  predicate RevokeShapeOk(g: Geometry, b: Block) {
    var count := Be32(b, 12);
    16 <= count <= TAIL && (count - 16) % RecordBytes(g) == 0
  }

  function RevokeCount(g: Geometry, b: Block): nat
    requires RevokeShapeOk(g, b)
  {
    (Be32(b, 12) - 16) / RecordBytes(g)
  }

  function RevokeTarget(g: Geometry, b: Block, i: nat): nat {
    if g.wide then U32 * Be32(b, 16 + 8 * i) + Be32(b, 20 + 8 * i) else Be32(b, 16 + 4 * i)
  }

  function RevokeEvents(g: Geometry, b: Block): (r: seq<Event>)
    requires RevokeShapeOk(g, b)
    ensures |r| == RevokeCount(g, b)
  {
    seq(RevokeCount(g, b), i requires 0 <= i => Revoke(RevokeTarget(g, b, i)))
  }

  // ---- the committed transactions of a log -------------------------------------------

  /** What the log block at `at` contributes: nothing (the log ends here), some events, or a commit. */
  datatype Step = End | More(events: seq<Event>, at: nat, consumed: nat, records: nat) | Commit(at: nat, consumed: nat)

  function Next(g: Geometry, log: seq<Block>, at: nat, sequence: nat, consumed: nat, records: nat): (r: Step)
    requires g.Valid() && |log| == g.maxlen && at < g.maxlen && sequence < U32
  {
    var b := log[at];
    var past := g.Advance(at);
    if !HasHeader(b, sequence) then End
    else if Kind(b) == DESCRIPTOR then
      match ReadDescriptor(g, log, b, sequence, past, consumed + 1)
      case Malformed => End
      case Parsed(events, a, c) => More(events, a, c, records)
    else if Kind(b) == REVOKE then
      if SumOk(g, b, TAIL) && RevokeShapeOk(g, b) && RevokeCount(g, b) + records <= g.maxlen then
        More(RevokeEvents(g, b), past, consumed + 1, records + RevokeCount(g, b))
      else End
    else if Kind(b) == COMMIT && SumOk(g, b, 16) then Commit(past, consumed + 1)
    else End
  }

  lemma {:induction false} TagsMoveOn(g: Geometry, log: seq<Block>, d: Block, sequence: nat, off: nat, at: nat,
    consumed: nat)
    requires g.Valid() && |log| == g.maxlen && at < g.maxlen && sequence < U32
    ensures var r := ReadTags(g, log, d, sequence, off, at, consumed);
      r.Parsed? ==> consumed < r.consumed <= g.maxlen && r.at < g.maxlen
                    && forall e :: e in r.events ==> e.Write? && e.target < g.fsBlocks
    decreases BLOCK - off
  {
    hide Geometry.DataSum, Be32;
    var r := ReadTags(g, log, d, sequence, off, at, consumed);
    if r.Parsed? {
      var flags := Be32(d, off + 4);
      if flags / 8 % 2 != 1 {
        TagsMoveOn(g, log, d, sequence, if flags / 2 % 2 == 1 then off + 16 else off + 32, g.Advance(at), consumed + 1);
      }
    }
  }

  lemma NextMovesOn(g: Geometry, log: seq<Block>, at: nat, sequence: nat, consumed: nat, records: nat)
    requires g.Valid() && |log| == g.maxlen && at < g.maxlen && sequence < U32 && consumed < g.maxlen
    ensures var s := Next(g, log, at, sequence, consumed, records);
      !s.End? ==> consumed < s.consumed <= g.maxlen && s.at < g.maxlen
    ensures var s := Next(g, log, at, sequence, consumed, records);
      s.More? ==> forall e :: e in s.events ==> e.Write? ==> e.target < g.fsBlocks
  {
    hide Geometry.DataSum, Be32, ReadTags, SumOk;
    TagsMoveOn(g, log, log[at], sequence, 12, g.Advance(at), consumed + 1);
  }

  /** The transactions that end in a valid commit block, read in log order from `at`;
      `open` holds the events of the transaction being read. */
  function Committed(g: Geometry, log: seq<Block>, at: nat, sequence: nat, consumed: nat, records: nat,
    open: seq<Event>): seq<Tx>
    requires g.Valid() && |log| == g.maxlen && at < g.maxlen && sequence < U32
    decreases g.maxlen - consumed
  {
    if consumed >= g.maxlen then []
    else
      NextMovesOn(g, log, at, sequence, consumed, records);
      match Next(g, log, at, sequence, consumed, records)
      case End => []
      case More(events, a, c, n) => Committed(g, log, a, sequence, c, n, open + events)
      case Commit(a, c) => [Tx(sequence, open, a)] + Committed(g, log, a, (sequence + 1) % U32, c, records, [])
  }

  // ---- what replay means ------------------------------------------------------------------

  /** A write of transaction i is cancelled by a revoke in that or any later committed transaction. */
  predicate Revoked(txs: seq<Tx>, i: nat, target: nat) {
    exists k :: i <= k < |txs| && Revoke(target) in txs[k].events
  }

  predicate InRange(events: seq<Event>, size: nat) {
    forall e :: e in events && e.Write? ==> e.target < size
  }

  /** Apply one transaction's surviving writes, in order. */
  function Apply(home: seq<Block>, txs: seq<Tx>, i: nat, events: seq<Event>): (r: seq<Block>)
    requires InRange(events, |home|)
    ensures |r| == |home|
    decreases |events|
  {
    if events == [] then home
    else
      var e := events[0];
      Apply(if e.Write? && !Revoked(txs, i, e.target) then home[e.target := e.image] else home, txs, i, events[1..])
  }

  function Replay(home: seq<Block>, txs: seq<Tx>, i: nat): (r: seq<Block>)
    requires forall t :: t in txs ==> InRange(t.events, |home|)
    ensures |r| == |home|
    decreases |txs| - i
  {
    if i >= |txs| then home else Replay(Apply(home, txs, i, txs[i].events), txs, i + 1)
  }

  /** Event j of a transaction is a write of block b that no revoke cancels. */
  predicate Survives(txs: seq<Tx>, i: nat, events: seq<Event>, j: int, b: nat) {
    0 <= j < |events| && events[j].Write? && events[j].target == b && !Revoked(txs, i, b)
  }

  lemma {:induction false} ApplyUntouched(home: seq<Block>, txs: seq<Tx>, i: nat, events: seq<Event>, b: nat)
    requires InRange(events, |home|) && b < |home|
    requires forall j :: !Survives(txs, i, events, j, b)
    ensures Apply(home, txs, i, events)[b] == home[b]
    decreases |events|
  {
    if events != [] {
      assert !Survives(txs, i, events, 0, b);
      forall j ensures !Survives(txs, i, events[1..], j, b) {
        assert !Survives(txs, i, events, j + 1, b);
      }
      var e := events[0];
      ApplyUntouched(if e.Write? && !Revoked(txs, i, e.target) then home[e.target := e.image] else home, txs, i,
        events[1..], b);
    }
  }

  lemma {:induction false} ApplyLast(home: seq<Block>, txs: seq<Tx>, i: nat, events: seq<Event>, j: nat, b: nat)
    requires InRange(events, |home|) && b < |home|
    requires Survives(txs, i, events, j, b) && forall k :: j < k ==> !Survives(txs, i, events, k, b)
    ensures Apply(home, txs, i, events)[b] == events[j].image
    decreases |events|
  {
    var e := events[0];
    var h := if e.Write? && !Revoked(txs, i, e.target) then home[e.target := e.image] else home;
    forall k | j < k + 1 ensures !Survives(txs, i, events[1..], k, b) || k + 1 == j {
      assert !Survives(txs, i, events, k + 1, b) || k + 1 <= j;
    }
    if j == 0 {
      ApplyUntouched(h, txs, i, events[1..], b);
    } else {
      assert Survives(txs, i, events[1..], j - 1, b);
      ApplyLast(h, txs, i, events[1..], j - 1, b);
    }
  }

  ghost predicate Replayable(home: seq<Block>, txs: seq<Tx>) {
    forall t :: t in txs ==> InRange(t.events, |home|)
  }

  /** A block that no surviving write names keeps its contents. */
  lemma {:induction false} ReplayUntouched(home: seq<Block>, txs: seq<Tx>, i: nat, b: nat)
    requires Replayable(home, txs) && b < |home|
    requires forall k, j :: i <= k < |txs| ==> !Survives(txs, k, txs[k].events, j, b)
    ensures Replay(home, txs, i)[b] == home[b]
    decreases |txs| - i
  {
    if i < |txs| {
      ApplyUntouched(home, txs, i, txs[i].events, b);
      ReplayUntouched(Apply(home, txs, i, txs[i].events), txs, i + 1, b);
    }
  }

  /** Otherwise it ends with the image of its last surviving write. */
  lemma {:induction false} ReplayLast(home: seq<Block>, txs: seq<Tx>, i: nat, k: nat, j: nat, b: nat)
    requires Replayable(home, txs) && b < |home|
    requires i <= k < |txs| && Survives(txs, k, txs[k].events, j, b)
    requires forall n :: j < n ==> !Survives(txs, k, txs[k].events, n, b)
    requires forall m, n :: k < m < |txs| ==> !Survives(txs, m, txs[m].events, n, b)
    ensures Replay(home, txs, i)[b] == txs[k].events[j].image
    decreases |txs| - i
  {
    var h := Apply(home, txs, i, txs[i].events);
    if i == k {
      ApplyLast(home, txs, i, txs[i].events, j, b);
      ReplayUntouched(h, txs, i + 1, b);
    } else {
      ReplayLast(h, txs, i + 1, k, j, b);
    }
  }

  /** The blocks a replay writes. */
  ghost predicate Overwrites(txs: seq<Tx>, i: nat, b: nat) {
    exists k, j :: i <= k < |txs| && Survives(txs, k, txs[k].events, j, b)
  }

  lemma {:induction false} ApplyForgets(x: seq<Block>, y: seq<Block>, txs: seq<Tx>, i: nat, events: seq<Event>, b: nat)
    requires |x| == |y| && InRange(events, |x|) && b < |x|
    requires x[b] == y[b] || exists j :: Survives(txs, i, events, j, b)
    ensures Apply(x, txs, i, events)[b] == Apply(y, txs, i, events)[b]
    decreases |events|
  {
    if events != [] {
      var e := events[0];
      var writes := e.Write? && !Revoked(txs, i, e.target);
      var x', y' := if writes then x[e.target := e.image] else x, if writes then y[e.target := e.image] else y;
      if x'[b] != y'[b] {
        var j :| Survives(txs, i, events, j, b);
        assert Survives(txs, i, events[1..], j - 1, b);
      }
      ApplyForgets(x', y', txs, i, events[1..], b);
    }
  }

  /** Replay is blind: its result does not depend on what it overwrites. */
  lemma {:induction false} ReplayForgets(x: seq<Block>, y: seq<Block>, txs: seq<Tx>, i: nat)
    requires |x| == |y| && Replayable(x, txs)
    requires forall b :: 0 <= b < |x| && !Overwrites(txs, i, b) ==> x[b] == y[b]
    ensures Replay(x, txs, i) == Replay(y, txs, i)
    decreases |txs| - i
  {
    if i < |txs| {
      var x', y' := Apply(x, txs, i, txs[i].events), Apply(y, txs, i, txs[i].events);
      forall b | 0 <= b < |x| && !Overwrites(txs, i + 1, b) ensures x'[b] == y'[b] {
        if x[b] != y[b] {
          var k, j :| i <= k < |txs| && Survives(txs, k, txs[k].events, j, b);
          assert k == i;
        }
        ApplyForgets(x, y, txs, i, txs[i].events, b);
      }
      ReplayForgets(x', y', txs, i + 1);
    }
  }

  /** Replaying over any partially replayed home gives the same result: recovery may crash and
      start over at any point. */
  lemma ReplayAgain(home: seq<Block>, torn: seq<Block>, txs: seq<Tx>)
    requires |home| == |torn| && Replayable(home, txs)
    requires forall b :: 0 <= b < |home| && !Overwrites(txs, 0, b) ==> torn[b] == home[b]
    ensures Replay(torn, txs, 0) == Replay(home, txs, 0)
    ensures Replay(Replay(home, txs, 0), txs, 0) == Replay(home, txs, 0)
  {
    ReplayForgets(torn, home, txs, 0);
    var done := Replay(home, txs, 0);
    forall b | 0 <= b < |home| && !Overwrites(txs, 0, b) ensures done[b] == home[b] {
      ReplayUntouched(home, txs, 0, b);
    }
    ReplayForgets(done, home, txs, 0);
  }
}
