/** The three recovery passes over a log, as loops, against the meaning of the log. */
module JournalPasses {
  import opened Bytes
  import opened JournalFormat
  import opened JournalRecovery

  datatype Pass = ScanPass | RevokePass | ReplayPass

  // ---- the revoke table ----------------------------------------------------------

  /** Is `left` at or after `right` in 32-bit sequence arithmetic? */
  predicate TidGeq(left: nat, right: nat) {
    (left - right) % U32 < U32 / 2
  }

  /** Revoke table: block number to the latest sequence that revoked it. */
  function SetRevoke(table: map<nat, nat>, block: nat, sequence: nat): map<nat, nat> {
    if block in table && !TidGeq(sequence, table[block]) then table else table[block := sequence]
  }

  predicate IsRevoked(table: map<nat, nat>, block: nat, sequence: nat) {
    block in table && TidGeq(table[block], sequence)
  }

  function Collect(table: map<nat, nat>, sequence: nat, events: seq<Event>): map<nat, nat>
    decreases |events|
  {
    if events == [] then table
    else
      var rest := Collect(table, sequence, events[..|events| - 1]);
      var e := events[|events| - 1];
      if e.Revoke? then SetRevoke(rest, e.target, sequence) else rest
  }

  function CollectAll(txs: seq<Tx>): map<nat, nat> {
    if txs == [] then map[]
    else Collect(CollectAll(txs[..|txs| - 1]), txs[|txs| - 1].sequence, txs[|txs| - 1].events)
  }

  /** Consecutive sequence numbers modulo 2^32, few enough to be told apart. */
  ghost predicate Numbered(txs: seq<Tx>, sequence: nat) {
    |txs| <= 65536 && forall i :: 0 <= i < |txs| ==> txs[i].sequence == SeqAt(sequence, i)
  }

  function SeqAt(sequence: nat, i: nat): (s: nat)
    ensures s < U32
  {
    (sequence + i) % U32
  }

  lemma TidOrder(sequence: nat, i: nat, k: nat)
    requires i <= 65536 && k <= 65536
    ensures TidGeq((sequence + k) % U32, (sequence + i) % U32) <==> i <= k
  {
    var x, y := sequence + k, sequence + i;
    var q := x / U32 - y / U32;
    assert x % U32 - y % U32 == (k - i) - q * U32;
    if i <= k {
      ModShift(k - i, q);
    } else {
      ModShift(k - i + U32, q + 1);
      assert (k - i + U32) - (q + 1) * U32 == (k - i) - q * U32;
    }
  }

  lemma ModShift(x: int, q: int)
    requires 0 <= x < U32
    ensures (x - q * U32) % U32 == x
  {
    var y := x - q * U32;
    assert y == U32 * (y / U32) + y % U32;
    assert x - y % U32 == U32 * (q + y / U32);
  }

  lemma {:induction false} CollectMeaning(table: map<nat, nat>, sequence: nat, n: nat, events: seq<Event>, b: nat,
    prev: nat)
    requires prev <= n <= 65536
    requires b in table ==> table[b] == (sequence + prev) % U32
    ensures var r := Collect(table, (sequence + n) % U32, events);
      if Revoke(b) in events then b in r && r[b] == (sequence + n) % U32
      else (b in r <==> b in table) && (b in table ==> r[b] == table[b])
    decreases |events|
  {
    if events != [] {
      var init, e := events[..|events| - 1], events[|events| - 1];
      assert events == init + [e];
      CollectMeaning(table, sequence, n, init, b, prev);
      TidOrder(sequence, prev, n);
      TidOrder(sequence, n, n);
    }
  }

  lemma {:induction false} CollectAllMeaning(txs: seq<Tx>, sequence: nat, b: nat) returns (last: nat)
    requires Numbered(txs, sequence)
    ensures last <= |txs|
    ensures var r := CollectAll(txs);
      if b in r then last < |txs| && r[b] == (sequence + last) % U32 && Revoke(b) in txs[last].events
                     && forall k :: last < k < |txs| ==> Revoke(b) !in txs[k].events
      else forall k :: 0 <= k < |txs| ==> Revoke(b) !in txs[k].events
  {
    last := 0;
    if txs != [] {
      var n := |txs| - 1;
      last := CollectAllMeaning(txs[..n], sequence, b);
      CollectMeaning(CollectAll(txs[..n]), sequence, n, txs[n].events, b, last);
      if Revoke(b) in txs[n].events { last := n; }
    }
  }

  /** The table answers exactly whether a later or equal committed transaction revoked the block. */
  lemma TableMeaning(txs: seq<Tx>, sequence: nat, i: nat, b: nat)
    requires Numbered(txs, sequence) && i < |txs|
    ensures IsRevoked(CollectAll(txs), b, txs[i].sequence) <==> Revoked(txs, i, b)
  {
    var last := CollectAllMeaning(txs, sequence, b);
    if b in CollectAll(txs) {
      TidOrder(sequence, i, last);
    }
  }

  // ---- facts about the committed list ------------------------------------------------

  lemma {:induction false} CommittedFew(g: Geometry, log: seq<Block>, at: nat, sequence: nat, consumed: nat,
                                        records: nat, open: seq<Event>)
    requires g.Valid() && |log| == g.maxlen && at < g.maxlen && sequence < U32
    ensures var txs := Committed(g, log, at, sequence, consumed, records, open);
      |txs| + consumed <= g.maxlen || txs == []
    decreases g.maxlen - consumed
  {
    hide Next;
    if consumed < g.maxlen {
      NextMovesOn(g, log, at, sequence, consumed, records);
      match Next(g, log, at, sequence, consumed, records)
      case End =>
      case More(events, a, c, n) => CommittedFew(g, log, a, sequence, c, n, open + events);
      case Commit(a, c) => CommittedFew(g, log, a, (sequence + 1) % U32, c, records, []);
    }
  }

  lemma {:induction false} CommittedInOrder(g: Geometry, log: seq<Block>, at: nat, sequence: nat, consumed: nat,
                                            records: nat, open: seq<Event>, i: nat)
    requires g.Valid() && |log| == g.maxlen && at < g.maxlen && sequence < U32
    requires i < |Committed(g, log, at, sequence, consumed, records, open)|
    ensures Committed(g, log, at, sequence, consumed, records, open)[i].sequence == SeqAt(sequence, i)
    decreases g.maxlen - consumed
  {
    hide Next, SeqAt;
    NextMovesOn(g, log, at, sequence, consumed, records);
    match Next(g, log, at, sequence, consumed, records)
    case End =>
    case More(events, a, c, n) => CommittedInOrder(g, log, a, sequence, c, n, open + events, i);
    case Commit(a, c) =>
      if i == 0 {
        SeqAtZero(sequence);
      } else {
        CommittedInOrder(g, log, a, (sequence + 1) % U32, c, records, [], i - 1);
        ModSucc(sequence, i - 1);
      }
  }

  lemma {:induction false} CommittedInRange(g: Geometry, log: seq<Block>, at: nat, sequence: nat, consumed: nat,
                                            records: nat, open: seq<Event>, i: nat)
    requires g.Valid() && |log| == g.maxlen && at < g.maxlen && sequence < U32 && InRange(open, g.fsBlocks)
    requires i < |Committed(g, log, at, sequence, consumed, records, open)|
    ensures var t := Committed(g, log, at, sequence, consumed, records, open)[i];
      InRange(t.events, g.fsBlocks) && t.next < g.maxlen
    decreases g.maxlen - consumed
  {
    hide Next;
    NextMovesOn(g, log, at, sequence, consumed, records);
    match Next(g, log, at, sequence, consumed, records)
    case End =>
    case More(events, a, c, n) =>
      assert InRange(open + events, g.fsBlocks);
      CommittedInRange(g, log, a, sequence, c, n, open + events, i);
    case Commit(a, c) =>
      if i > 0 { CommittedInRange(g, log, a, (sequence + 1) % U32, c, records, [], i - 1); }
  }

  /** Committed transactions are consecutively numbered, few enough, and name blocks of the filesystem only. */
  lemma CommittedNumbered(g: Geometry, log: seq<Block>, at: nat, sequence: nat, consumed: nat, records: nat,
                          open: seq<Event>)
    requires g.Valid() && |log| == g.maxlen && at < g.maxlen && sequence < U32
    requires InRange(open, g.fsBlocks)
    ensures var txs := Committed(g, log, at, sequence, consumed, records, open);
      |txs| + consumed <= g.maxlen || txs == []
    ensures var txs := Committed(g, log, at, sequence, consumed, records, open);
      forall i :: 0 <= i < |txs| ==> txs[i].sequence == SeqAt(sequence, i)
    ensures var txs := Committed(g, log, at, sequence, consumed, records, open);
      forall t :: t in txs ==> InRange(t.events, g.fsBlocks) && t.next < g.maxlen
  {
    hide Committed, SeqAt, InRange;
    var txs := Committed(g, log, at, sequence, consumed, records, open);
    CommittedFew(g, log, at, sequence, consumed, records, open);
    forall i | 0 <= i < |txs|
      ensures txs[i].sequence == SeqAt(sequence, i) && InRange(txs[i].events, g.fsBlocks) && txs[i].next < g.maxlen
    {
      CommittedInOrder(g, log, at, sequence, consumed, records, open, i);
      CommittedInRange(g, log, at, sequence, consumed, records, open, i);
    }
  }

  lemma SeqAtZero(s: nat)
    requires s < U32
    ensures SeqAt(s, 0) == s
  {}

  lemma ModSucc(s: nat, i: nat)
    ensures SeqAt((s + 1) % U32, i) == SeqAt(s, i + 1)
  {
    var q := (s + 1) / U32;
    assert s + 1 == U32 * q + (s + 1) % U32;
    var x := (s + 1) % U32 + i;
    ModAdd(x, q);
  }

  lemma ModAdd(x: nat, q: nat)
    ensures (x + U32 * q) % U32 == x % U32
  {
    var y := x + U32 * q;
    assert y == U32 * (y / U32) + y % U32;
    assert x == U32 * (x / U32) + x % U32;
    assert U32 * (y / U32 - q - x / U32) == x % U32 - y % U32;
  }

  predicate RevokesInRange(events: seq<Event>, size: nat) {
    forall e :: e in events && e.Revoke? ==> e.target < size
  }

  ghost predicate AllRevokesInRange(txs: seq<Tx>, size: nat) {
    forall t :: t in txs ==> RevokesInRange(t.events, size)
  }

  lemma {:induction false} ApplyConcat(home: seq<Block>, txs: seq<Tx>, i: nat, x: seq<Event>, y: seq<Event>)
    requires InRange(x, |home|) && InRange(y, |home|)
    ensures InRange(x + y, |home|) && Apply(home, txs, i, x + y) == Apply(Apply(home, txs, i, x), txs, i, y)
    decreases |x|
  {
    if x == [] {
      assert x + y == y;
    } else {
      var e := x[0];
      assert (x + y)[1..] == x[1..] + y;
      ApplyConcat(if e.Write? && !Revoked(txs, i, e.target) then home[e.target := e.image] else home, txs, i, x[1..],
        y);
    }
  }

  lemma {:induction false} ApplyRevokes(home: seq<Block>, txs: seq<Tx>, i: nat, events: seq<Event>)
    requires forall e :: e in events ==> e.Revoke?
    ensures Apply(home, txs, i, events) == home
    decreases |events|
  {
    if events != [] {
      assert events[0] in events;
      ApplyRevokes(home, txs, i, events[1..]);
    }
  }

  lemma {:induction false} CollectConcat(table: map<nat, nat>, sequence: nat, x: seq<Event>, y: seq<Event>)
    ensures Collect(table, sequence, x + y) == Collect(Collect(table, sequence, x), sequence, y)
    decreases |y|
  {
    if y == [] {
      assert x + y == x;
    } else {
      assert (x + y)[..|x + y| - 1] == x + y[..|y| - 1];
      CollectConcat(table, sequence, x, y[..|y| - 1]);
    }
  }

  lemma {:induction false} CollectWrites(table: map<nat, nat>, sequence: nat, events: seq<Event>)
    requires forall e :: e in events ==> e.Write?
    ensures Collect(table, sequence, events) == table
    decreases |events|
  {
    if events != [] {
      assert events[|events| - 1] in events;
      CollectWrites(table, sequence, events[..|events| - 1]);
    }
  }

  function CountRevokes(events: seq<Event>): nat {
    if events == [] then 0 else CountRevokes(events[..|events| - 1]) + if events[|events| - 1].Revoke? then 1 else 0
  }

  function TotalRevokes(txs: seq<Tx>): nat {
    if txs == [] then 0 else TotalRevokes(txs[..|txs| - 1]) + CountRevokes(txs[|txs| - 1].events)
  }

  lemma {:induction false} CountConcat(x: seq<Event>, y: seq<Event>)
    ensures CountRevokes(x + y) == CountRevokes(x) + CountRevokes(y)
    decreases |y|
  {
    if y == [] {
      assert x + y == x;
    } else {
      assert (x + y)[..|x + y| - 1] == x + y[..|y| - 1];
      CountConcat(x, y[..|y| - 1]);
    }
  }

  lemma {:induction false} CountOfKind(events: seq<Event>)
    ensures (forall e :: e in events ==> e.Write?) ==> CountRevokes(events) == 0
    ensures (forall e :: e in events ==> e.Revoke?) ==> CountRevokes(events) == |events|
  {
    if events != [] {
      CountOfKind(events[..|events| - 1]);
      assert events[|events| - 1] in events;
    }
  }

  lemma {:induction false} TotalGrows(txs: seq<Tx>, i: nat)
    requires i < |txs|
    ensures TotalRevokes(txs[..i]) + CountRevokes(txs[i].events) <= TotalRevokes(txs)
    decreases |txs|
  {
    var n := |txs| - 1;
    if i < n {
      assert txs[..n][..i] == txs[..i];
      TotalGrows(txs[..n], i);
    }
  }

  /** A transaction's events start with those already read. */
  lemma {:induction false} OpenIsPrefix(g: Geometry, log: seq<Block>, at: nat, sequence: nat, consumed: nat,
                                        records: nat, open: seq<Event>)
    requires g.Valid() && |log| == g.maxlen && at < g.maxlen && sequence < U32
    ensures var txs := Committed(g, log, at, sequence, consumed, records, open);
      txs != [] ==> open <= txs[0].events
    decreases g.maxlen - consumed
  {
    hide Next;
    if consumed < g.maxlen {
      NextMovesOn(g, log, at, sequence, consumed, records);
      var s := Next(g, log, at, sequence, consumed, records);
      if s.More? {
        OpenIsPrefix(g, log, s.at, sequence, s.consumed, s.records, open + s.events);
      }
    }
  }

  // ---- the passes ---------------------------------------------------------------------

  class Recovery {
    const g: Geometry
    const log: seq<Block>    // replay targets lie outside the log, so the log is only read
    const start: nat
    const sequence: nat
    var endSequence: nat
    var head: nat
    var scanRecords: nat
    var revokes: map<nat, nat>
    var home: seq<Block>

    constructor (g: Geometry, log: seq<Block>, start: nat, sequence: nat, home: seq<Block>)
      requires g.Valid() && |log| == g.maxlen && g.first <= start < g.maxlen && sequence < U32 && |home| == g.fsBlocks
      ensures Valid() && this.g == g && this.log == log && this.start == start && this.sequence == sequence
      ensures this.home == home && revokes == map[] && scanRecords == 0
    {
      this.g, this.log, this.start, this.sequence := g, log, start, sequence;
      this.endSequence, this.head, this.scanRecords, this.revokes, this.home := sequence, start, 0, map[], home;
    }

    ghost predicate Valid()
      reads this
    {
      g.Valid() && |log| == g.maxlen && g.first <= start < g.maxlen && sequence < U32 && |home| == g.fsBlocks
    }

    ghost function Txs(): (txs: seq<Tx>)
      requires g.Valid() && |log| == g.maxlen && start < g.maxlen && sequence < U32
    {
      Committed(g, log, start, sequence, 0, 0, [])
    }

    lemma TxsFacts()
      requires g.Valid() && |log| == g.maxlen && start < g.maxlen && sequence < U32
      ensures Numbered(Txs(), sequence)
      ensures forall t :: t in Txs() ==> InRange(t.events, g.fsBlocks) && t.next < g.maxlen
    {
      hide Committed, SeqAt;
      CommittedNumbered(g, log, start, sequence, 0, 0, []);
    }

    /** Write one logged image home unless a revoke cancels it. */
    method ReplayBlock(target: nat, image: Block, seqno: nat, ghost i: nat)
      requires Valid() && target < g.fsBlocks
      requires i < |Txs()| && seqno == Txs()[i].sequence && revokes == CollectAll(Txs())
      modifies this`home
      ensures Valid() && home == Apply(old(home), Txs(), i, [Write(target, image)])
    {
      TxsFacts();
      TableMeaning(Txs(), sequence, i, target);
      if !IsRevoked(revokes, target, seqno) {
        home := home[target := image];
      }
      ghost var e := [Write(target, image)];
      assert e[1..] == [];
    }

    /** One descriptor block: walk its tags and the log blocks they name. */
    method ProcessDescriptor(d: Block, seqno: nat, at: nat, consumed: nat, pass: Pass, ghost i: nat)
        returns (ok: bool, at': nat, consumed': nat)
      requires Valid() && at < g.maxlen && seqno < U32
      requires pass.ReplayPass? ==> i < |Txs()| && seqno == Txs()[i].sequence && revokes == CollectAll(Txs())
      modifies this`home
      ensures Valid()
      ensures !pass.ReplayPass? ==> home == old(home)
      ensures var r := ReadDescriptor(g, log, d, seqno, at, consumed);
        (pass.ScanPass? ==> ok == r.Parsed?)
        && (r.Parsed? ==> ok && at' == r.at && consumed' == r.consumed && InRange(r.events, |home|))
        && (r.Parsed? && pass.ReplayPass? ==> home == Apply(old(home), Txs(), i, r.events))
    {
      hide Geometry.DataSum, Be32, SumOk, Apply, Committed, Numbered, CollectAll, Geometry.Advance, Escaped, TagTarget;
      ghost var r := ReadDescriptor(g, log, d, seqno, at, consumed);
      ok, at', consumed' := false, at, consumed;
      if !SumOk(g, d, TAIL) { return; }
      var off := 12;
      ghost var done: seq<Event> := [];
      AdvanceStays(g);
      ApplyNone(home, Txs(), i);
      while true
        invariant Valid() && at' < g.maxlen
        invariant !pass.ReplayPass? ==> home == old(home)
        invariant InRange(done, g.fsBlocks)
        invariant pass.ReplayPass? ==> home == Apply(old(home), Txs(), i, done)
        invariant pass.ScanPass? || r.Parsed? ==> r == Prepend(done, ReadTags(g, log, d, seqno, off, at', consumed'))
        decreases BLOCK - off
      {
        if off + 16 > TAIL { return; }
        var target, flags, checksum := TagTarget(g, d, off), Be32(d, off + 4), Be32(d, off + 12);
        off := off + 16;
        if flags >= 16 { return; }
        if flags / 2 % 2 != 1 {
          if off + 16 > TAIL { return; }
          off := off + 16;
        }
        if target >= g.fsBlocks { return; }
        if consumed' >= g.maxlen { return; }
        var data := log[at'];
        at' := g.Advance(at');
        consumed' := consumed' + 1;
        if pass.ScanPass? || pass.ReplayPass? {
          if g.DataSum(seqno, data) != checksum { return; }
        }
        var image := if flags % 2 == 1 then Escaped(data) else data;
        if pass.ReplayPass? {
          ApplyConcat(old(home), Txs(), i, done, [Write(target, image)]);
          ReplayBlock(target, image, seqno, i);
        }
        ghost var before := done;
        done := done + [Write(target, image)];
        if flags / 8 % 2 == 1 {
          ok := true;
          return;
        }
        PrependStep(before, Write(target, image), ReadTags(g, log, d, seqno, off, at', consumed'));
      }
    }

    /** One revoke block: count its records while scanning, enter them in the revoke pass. */
    method ProcessRevoke(b: Block, seqno: nat, pass: Pass) returns (ok: bool)
      requires Valid() && seqno < U32 && scanRecords <= g.maxlen
      requires pass.RevokePass? && RevokeShapeOk(g, b) ==> |revokes| + RevokeCount(g, b) <= scanRecords
      modifies this`scanRecords, this`revokes
      ensures var fine := SumOk(g, b, TAIL) && RevokeShapeOk(g, b);
        (pass.ScanPass? ==>
          ok == (fine && RevokeCount(g, b) + old(scanRecords) <= g.maxlen)
          && scanRecords == old(scanRecords) + (if ok then RevokeCount(g, b) else 0)
          && revokes == old(revokes))
        && (!pass.ScanPass? ==> scanRecords == old(scanRecords))
        && (pass.ReplayPass? ==> ok == fine && revokes == old(revokes))
        && (pass.RevokePass? && fine ==>
          ok == RevokesInRange(RevokeEvents(g, b), g.fsBlocks)
          && (ok ==> revokes == Collect(old(revokes), seqno, RevokeEvents(g, b))
                     && |revokes| <= old(|revokes|) + RevokeCount(g, b)))
    {
      hide SumOk, Be32, RevokeTarget;
      ok := false;
      if !SumOk(g, b, TAIL) || !RevokeShapeOk(g, b) { return; }
      var records := RevokeCount(g, b);
      if pass.ScanPass? {
        if records > g.maxlen - scanRecords { return; }
        scanRecords := scanRecords + records;
        return true;
      }
      if !pass.RevokePass? { return true; }
      ghost var events := RevokeEvents(g, b);
      for n := 0 to records
        invariant revokes == Collect(old(revokes), seqno, events[..n])
        invariant |revokes| <= old(|revokes|) + n && scanRecords == old(scanRecords)
        invariant RevokesInRange(events[..n], g.fsBlocks)
      {
        var target := RevokeTarget(g, b, n);
        assert events[n] == Revoke(target) && events[n] in events;
        if target >= g.fsBlocks { return; }
        if target !in revokes && |revokes| >= scanRecords { return; }
        revokes := SetRevoke(revokes, target, seqno);
        assert events[..n + 1][..n] == events[..n];
        assert events[..n + 1] == events[..n] + [events[n]];
      }
      assert events[..records] == events;
      ok := true;
    }

    ghost predicate ScannedEnd()
      requires Valid()
      reads this
    {
      endSequence == SeqAt(sequence, |Txs()|)
      && head == (if Txs() == [] then start else Txs()[|Txs()| - 1].next)
      && TotalRevokes(Txs()) <= scanRecords <= g.maxlen
    }

    /** One metadata block of the log, whatever its kind. */
    method ProcessBlock(b: Block, seqno: nat, at: nat, consumed: nat, pass: Pass, ghost i: nat, ghost records: nat)
        returns (fine: bool, commit: bool, at': nat, consumed': nat)
      requires Valid() && at < g.maxlen && b == log[at] && seqno < U32 && consumed < g.maxlen && scanRecords <= g.maxlen
      requires pass.ScanPass? ==> scanRecords == records
      requires var s := Next(g, log, at, seqno, consumed, records);
        pass.RevokePass? && s.More? ==> |revokes| + CountRevokes(s.events) <= scanRecords
      requires pass.RevokePass? ==> !Next(g, log, at, seqno, consumed, records).End?
      requires pass.ReplayPass? ==> i < |Txs()| && seqno == Txs()[i].sequence && revokes == CollectAll(Txs())
      modifies this`scanRecords, this`revokes, this`home
      ensures Valid()
      ensures !pass.ScanPass? ==> scanRecords == old(scanRecords)
      ensures !pass.RevokePass? ==> revokes == old(revokes)
      ensures !pass.ReplayPass? ==> home == old(home)
      ensures var s := Next(g, log, at, seqno, consumed, records);
        (pass.ScanPass? ==> fine == !s.End? && (s.More? ==> scanRecords == s.records)
                            && (!s.More? ==> scanRecords == old(scanRecords)))
        && (!s.End? && fine ==> at' == s.at && consumed' == s.consumed && commit == s.Commit?)
        && (s.Commit? ==> fine && revokes == old(revokes) && home == old(home))
        && (s.More? && pass.RevokePass? ==>
             fine == RevokesInRange(s.events, g.fsBlocks)
             && (fine ==>
                   revokes == Collect(old(revokes), seqno, s.events)
                   && |revokes| <= old(|revokes|) + CountRevokes(s.events)))
        && (s.More? && pass.ReplayPass? ==>
             fine && InRange(s.events, |home|) && home == Apply(old(home), Txs(), i, s.events))
    {
      hide SumOk, Be32, ReadTags, Apply, Collect, RevokeEvents, CollectAll, Committed;
      fine, commit, at', consumed' := false, false, g.Advance(at), consumed + 1;
      if !HasHeader(b, seqno) { return; }
      if Kind(b) == DESCRIPTOR {
        TagsMoveOn(g, log, b, seqno, 12, at', consumed');
        ghost var d := ReadDescriptor(g, log, b, seqno, at', consumed');
        if d.Parsed? {
          CountOfKind(d.events);
          CollectWrites(revokes, seqno, d.events);
        }
        fine, at', consumed' := ProcessDescriptor(b, seqno, at', consumed', pass, i);
      } else if Kind(b) == REVOKE {
        if RevokeShapeOk(g, b) {
          RevokeEventsKind(g, b);
          CountOfKind(RevokeEvents(g, b));
          ApplyRevokes(home, Txs(), i, RevokeEvents(g, b));
        }
        fine := ProcessRevoke(b, seqno, pass);
      } else if Kind(b) == COMMIT {
        fine := SumOk(g, b, 16);
        commit := true;
      }
    }

    /** Walk the log once: find its committed end, collect revokes, or replay. */
    method RunPass(pass: Pass) returns (ok: bool, truncated: bool)
      requires Valid()
      requires pass.ScanPass? ==> scanRecords == 0
      requires !pass.ScanPass? ==> ScannedEnd()
      requires pass.RevokePass? ==> revokes == map[]
      requires pass.ReplayPass? ==> revokes == CollectAll(Txs())
      modifies this
      ensures Valid() && ScannedEnd()
      ensures pass.ScanPass? ==> ok && revokes == old(revokes)
      ensures !pass.ScanPass? ==> !truncated
      ensures !pass.ReplayPass? ==> home == old(home)
      ensures pass.RevokePass? ==> ok == AllRevokesInRange(Txs(), g.fsBlocks) && (ok ==> revokes == CollectAll(Txs()))
      ensures pass.ReplayPass? ==> ok && Replayable(old(home), Txs()) && home == Replay(old(home), Txs(), 0)
    {
      hide Committed, Next, Progress, CollectAll, TotalRevokes, CountRevokes, RevokesInRange, AllRevokesInRange,
        Replay, Replayable;
      hide InRange, Apply, Collect, SeqAt;
      TxsFacts();
      ghost var txs := Txs();
      var at: nat, seqno: nat, end: nat, consumed: nat := start, sequence, start, 0;
      truncated := false;
      ghost var i: nat, open: seq<Event>, records: nat, base := 0, [], 0, home;
      ProgressStart(pass, txs, seqno, scanRecords, revokes, home);
      SeqAtZero(sequence);
      while consumed < g.maxlen
        invariant Valid() && at < g.maxlen && i <= |txs| && seqno == SeqAt(sequence, i)
        invariant txs[i..] == Committed(g, log, at, seqno, consumed, records, open)
        invariant end == (if i == 0 then start else txs[i - 1].next)
        invariant pass.ScanPass? ==> scanRecords <= g.maxlen
        invariant !pass.ScanPass? ==> ScannedEnd() && (i == |txs| ==> open == [])
        invariant !pass.RevokePass? ==> revokes == old(revokes)
        invariant !pass.ReplayPass? ==> home == old(home)
        invariant Progress(pass, txs, i, open, records, base, seqno, scanRecords, revokes, home, old(home))
        decreases g.maxlen - consumed
      {
        SequencesDiffer(sequence, i, |txs|);
        if !pass.ScanPass? && seqno == endSequence { break; }
        Follow(g, log, txs, i, at, seqno, consumed, records, open);
        ghost var step := Next(g, log, at, seqno, consumed, records);
        if step.More? && i < |txs| {
          ProgressBudget(pass, txs, i, open, records, base, seqno, scanRecords, revokes, home, old(home), step.events);
        }
        ProgressScan(pass, txs, i, open, records, base, seqno, scanRecords, revokes, home, old(home));
        ghost var table, image := revokes, home;
        var fine, commit;
        fine, commit, at, consumed := ProcessBlock(log[at], seqno, at, consumed, pass, i, records);
        if !fine {
          if !pass.ScanPass? {
            OutOfRange(txs, i, open, step.events, g.fsBlocks);
            return false, false;
          }
          truncated := true;
          break;
        }
        if commit {
          ProgressCommit(pass, txs, i, open, records, base, seqno, scanRecords, revokes, home, old(home));
          seqno := (seqno + 1) % U32;
          end := at;
          NextSequence(sequence, i);
          i, open, base := i + 1, [], home;
        } else {
          ProgressMore(pass, txs, i, open, records, base, seqno, scanRecords, table, image, old(home),
                       step.events, step.records, revokes, home);
          open, records := open + step.events, step.records;
        }
      }
      if i < |txs| { LogExhausted(g, log, txs, i, at, seqno, consumed, records, open); }
      ProgressEnd(pass, txs, i, open, records, base, seqno, scanRecords, revokes, home, old(home));
      if pass.ScanPass? {
        endSequence, head := seqno, end;
        return true, truncated;
      }
      return seqno == endSequence, false;
    }

    /** Scan, collect revokes, replay.  Fails exactly when a committed revoke names a block outside
        the filesystem, and then nothing has been written. */
    method Recover() returns (ok: bool)
      requires Valid() && scanRecords == 0 && revokes == map[]
      modifies this
      ensures Valid() && ScannedEnd()
      ensures ok == AllRevokesInRange(Txs(), g.fsBlocks)
      ensures Replayable(old(home), Txs()) && home == if ok then Replay(old(home), Txs(), 0) else old(home)
    {
      hide Txs, ScannedEnd, AllRevokesInRange, Replay, CollectAll;
      TxsFacts();
      var truncated;
      ok, truncated := RunPass(ScanPass);
      ok, truncated := RunPass(RevokePass);
      if ok {
        ok, truncated := RunPass(ReplayPass);
      }
    }
  }

  /** What a pass has established after i whole transactions and the events `open` of the next. */
  ghost predicate Progress(pass: Pass, txs: seq<Tx>, i: nat, open: seq<Event>, records: nat, base: seq<Block>,
    seqno: nat, scanRecords: nat, table: map<nat, nat>, home: seq<Block>, before: seq<Block>)
  {
    i <= |txs| && |base| == |home| == |before| && InRange(open, |home|) && Replayable(home, txs)
    && (pass.ScanPass? ==> scanRecords == records == TotalRevokes(txs[..i]) + CountRevokes(open))
    && (pass.RevokePass? ==> table == Collect(CollectAll(txs[..i]), seqno, open)
                             && |table| <= TotalRevokes(txs[..i]) + CountRevokes(open)
                             && AllRevokesInRange(txs[..i], |home|) && RevokesInRange(open, |home|))
    && (pass.ReplayPass? ==> home == Apply(base, txs, i, open) && Replay(before, txs, 0) == Replay(base, txs, i))
  }

  lemma ProgressStart(pass: Pass, txs: seq<Tx>, seqno: nat, scanRecords: nat, table: map<nat, nat>, home: seq<Block>)
    requires Replayable(home, txs) && (pass.ScanPass? ==> scanRecords == 0) && (pass.RevokePass? ==> table == map[])
    ensures Progress(pass, txs, 0, [], 0, home, seqno, scanRecords, table, home, home)
  {
    PassStart(home, txs, seqno);
  }

  lemma ProgressScan(pass: Pass, txs: seq<Tx>, i: nat, open: seq<Event>, records: nat, base: seq<Block>, seqno: nat,
                     scanRecords: nat, table: map<nat, nat>, home: seq<Block>, before: seq<Block>)
    requires Progress(pass, txs, i, open, records, base, seqno, scanRecords, table, home, before)
    ensures pass.ScanPass? ==> scanRecords == records
  {}

  lemma ProgressBudget(pass: Pass, txs: seq<Tx>, i: nat, open: seq<Event>, records: nat, base: seq<Block>, seqno: nat,
                       scanRecords: nat, table: map<nat, nat>, home: seq<Block>, before: seq<Block>, events: seq<Event>)
    requires Progress(pass, txs, i, open, records, base, seqno, scanRecords, table, home, before)
    requires i < |txs| && open + events <= txs[i].events
    ensures pass.RevokePass? ==> |table| + CountRevokes(events) <= TotalRevokes(txs)
  {
    CountConcat(open, events);
    Budget(txs, i, open + events);
  }

  lemma ProgressCommit(pass: Pass, txs: seq<Tx>, i: nat, open: seq<Event>, records: nat, base: seq<Block>, seqno: nat,
                       scanRecords: nat, table: map<nat, nat>, home: seq<Block>, before: seq<Block>)
    requires Progress(pass, txs, i, open, records, base, seqno, scanRecords, table, home, before)
    requires i < |txs| && txs[i].events == open && txs[i].sequence == seqno
    ensures Progress(pass, txs, i + 1, [], records, home, (seqno + 1) % U32, scanRecords, table, home, before)
  {
    CommitTaken(txs, i, seqno, open, base);
    PassStart(home, txs, seqno);
    CollectNone(table, (seqno + 1) % U32);
    ApplyNone(home, txs, i + 1);
    if pass.RevokePass? {
      forall t | t in txs[..i + 1] ensures RevokesInRange(t.events, |home|) {
        assert t in txs[..i] || t == txs[i];
      }
    }
  }

  lemma ProgressMore(pass: Pass, txs: seq<Tx>, i: nat, open: seq<Event>, records: nat, base: seq<Block>, seqno: nat,
                     scanRecords: nat, table: map<nat, nat>, home: seq<Block>, before: seq<Block>,
                     events: seq<Event>, records': nat, table': map<nat, nat>, home': seq<Block>)
    requires Progress(pass, txs, i, open, records, base, seqno, if pass.ScanPass? then records else scanRecords,
      table, home, before)
    requires InRange(events, |home|) && |home'| == |home| && records' == records + CountRevokes(events)
    requires pass.ScanPass? ==> scanRecords == records'
    requires pass.RevokePass? ==> table' == Collect(table, seqno, events) && RevokesInRange(events, |home|)
                                  && |table'| <= |table| + CountRevokes(events)
    requires pass.ReplayPass? ==> home' == Apply(home, txs, i, events)
    ensures Progress(pass, txs, i, open + events, records', base, seqno, scanRecords, table', home', before)
  {
    MoreTaken(base, txs, i, seqno, open, events, |home|);
  }

  lemma ProgressEnd(pass: Pass, txs: seq<Tx>, i: nat, open: seq<Event>, records: nat, base: seq<Block>, seqno: nat,
                    scanRecords: nat, table: map<nat, nat>, home: seq<Block>, before: seq<Block>)
    requires Progress(pass, txs, i, open, records, base, seqno, scanRecords, table, home, before) && i == |txs|
    requires !pass.ScanPass? ==> open == []
    ensures pass.ScanPass? ==> TotalRevokes(txs) <= scanRecords
    ensures pass.RevokePass? ==> table == CollectAll(txs) && AllRevokesInRange(txs, |home|)
    ensures pass.ReplayPass? ==> Replayable(before, txs) && home == Replay(before, txs, 0)
  {
    assert txs[..i] == txs;
    CollectNone(CollectAll(txs), seqno);
    ApplyNone(base, txs, i);
  }

  lemma NextCounts(g: Geometry, log: seq<Block>, at: nat, sequence: nat, consumed: nat, records: nat)
    requires g.Valid() && |log| == g.maxlen && at < g.maxlen && sequence < U32
    ensures var s := Next(g, log, at, sequence, consumed, records);
      s.More? ==> s.records == records + CountRevokes(s.events) && (records <= g.maxlen ==> s.records <= g.maxlen)
  {
    hide SumOk, Be32, ReadTags, RevokeEvents, CountRevokes;
    var b := log[at];
    TagsMoveOn(g, log, b, sequence, 12, g.Advance(at), consumed + 1);
    var d := ReadDescriptor(g, log, b, sequence, g.Advance(at), consumed + 1);
    if d.Parsed? { CountOfKind(d.events); }
    if RevokeShapeOk(g, b) {
      RevokeEventsKind(g, b);
      CountOfKind(RevokeEvents(g, b));
    }
  }

  /** The next block decides what the remaining committed transactions are. */
  lemma Follow(g: Geometry, log: seq<Block>, txs: seq<Tx>, i: nat, at: nat, seqno: nat, consumed: nat, records: nat,
    open: seq<Event>)
    requires g.Valid() && |log| == g.maxlen && at < g.maxlen && seqno < U32 && consumed < g.maxlen && i <= |txs|
    requires txs[i..] == Committed(g, log, at, seqno, consumed, records, open)
    ensures var s := Next(g, log, at, seqno, consumed, records);
      (s.End? ==> i == |txs|)
      && (s.More? ==> s.at < g.maxlen && consumed < s.consumed && InRange(s.events, g.fsBlocks)
                      && txs[i..] == Committed(g, log, s.at, seqno, s.consumed, s.records, open + s.events)
                      && (i < |txs| ==> open + s.events <= txs[i].events)
                      && s.records == records + CountRevokes(s.events)
                      && (records <= g.maxlen ==> s.records <= g.maxlen))
      && (s.Commit? ==> s.at < g.maxlen && consumed < s.consumed && i < |txs| && txs[i] == Tx(seqno, open, s.at)
                        && txs[i + 1..] == Committed(g, log, s.at, (seqno + 1) % U32, s.consumed, records, []))
  {
    hide Next, CountRevokes;
    NextMovesOn(g, log, at, seqno, consumed, records);
    NextCounts(g, log, at, seqno, consumed, records);
    var s := Next(g, log, at, seqno, consumed, records);
    if s.More? {
      OpenIsPrefix(g, log, s.at, seqno, s.consumed, s.records, open + s.events);
    } else if s.Commit? {
      var rest := Committed(g, log, s.at, (seqno + 1) % U32, s.consumed, records, []);
      assert txs[i..] == [Tx(seqno, open, s.at)] + rest;
      assert txs[i] == txs[i..][0] && txs[i + 1..] == txs[i..][1..];
    }
  }

  lemma LogExhausted(g: Geometry, log: seq<Block>, txs: seq<Tx>, i: nat, at: nat, seqno: nat, consumed: nat,
    records: nat, open: seq<Event>)
    requires g.Valid() && |log| == g.maxlen && at < g.maxlen && seqno < U32 && consumed >= g.maxlen && i <= |txs|
    requires txs[i..] == Committed(g, log, at, seqno, consumed, records, open)
    ensures i == |txs|
  {}

  lemma NextSequence(s: nat, i: nat)
    ensures (SeqAt(s, i) + 1) % U32 == SeqAt(s, i + 1)
  {
    var q := (s + i) / U32;
    assert s + i == U32 * q + (s + i) % U32;
    ModAdd((s + i) % U32 + 1, q);
  }

  lemma OutOfRange(txs: seq<Tx>, i: nat, open: seq<Event>, events: seq<Event>, size: nat)
    requires i < |txs| && open + events <= txs[i].events && !RevokesInRange(events, size)
    ensures !AllRevokesInRange(txs, size)
  {
    var e :| e in events && e.Revoke? && e.target >= size;
    assert e in open + events;
    assert e in txs[i].events && txs[i] in txs;
  }

  lemma CommitTaken(txs: seq<Tx>, i: nat, seqno: nat, open: seq<Event>, base: seq<Block>)
    requires i < |txs| && txs[i].events == open && txs[i].sequence == seqno && Replayable(base, txs)
    ensures CollectAll(txs[..i + 1]) == Collect(CollectAll(txs[..i]), seqno, open)
    ensures TotalRevokes(txs[..i + 1]) == TotalRevokes(txs[..i]) + CountRevokes(open)
    ensures Replay(base, txs, i) == Replay(Apply(base, txs, i, open), txs, i + 1)
  {
    assert txs[..i + 1][..i] == txs[..i];
  }

  lemma MoreTaken(base: seq<Block>, txs: seq<Tx>, i: nat, seqno: nat, open: seq<Event>, events: seq<Event>, size: nat)
    requires i <= |txs| && |base| == size && InRange(open, size) && InRange(events, size)
    ensures InRange(open + events, size)
    ensures Apply(base, txs, i, open + events) == Apply(Apply(base, txs, i, open), txs, i, events)
    ensures Collect(CollectAll(txs[..i]), seqno, open + events)
      == Collect(Collect(CollectAll(txs[..i]), seqno, open), seqno, events)
    ensures CountRevokes(open + events) == CountRevokes(open) + CountRevokes(events)
    ensures RevokesInRange(open + events, size) == (RevokesInRange(open, size) && RevokesInRange(events, size))
  {
    ApplyConcat(base, txs, i, open, events);
    CollectConcat(CollectAll(txs[..i]), seqno, open, events);
    CountConcat(open, events);
    forall e | e in open || e in events ensures e in open + events {}
  }

  lemma PassStart(home: seq<Block>, txs: seq<Tx>, sequence: nat)
    ensures Apply(home, txs, 0, []) == home && Collect(CollectAll(txs[..0]), sequence, []) == map[]
    ensures TotalRevokes(txs[..0]) == 0 && CountRevokes([]) == 0
    ensures forall n: nat :: RevokesInRange([], n)
  {}

  lemma Budget(txs: seq<Tx>, i: nat, part: seq<Event>)
    requires i < |txs| && part <= txs[i].events
    ensures TotalRevokes(txs[..i]) + CountRevokes(part) <= TotalRevokes(txs)
  {
    var e := txs[i].events;
    assert e == part + e[|part|..];
    CountConcat(part, e[|part|..]);
    TotalGrows(txs, i);
  }

  lemma RevokeEventsKind(g: Geometry, b: Block)
    requires RevokeShapeOk(g, b)
    ensures forall e :: e in RevokeEvents(g, b) ==> e.Revoke?
  {}

  lemma CollectNone(table: map<nat, nat>, sequence: nat)
    ensures Collect(table, sequence, []) == table
  {}

  lemma SequencesDiffer(s: nat, i: nat, n: nat)
    requires i <= n <= 65536
    ensures SeqAt(s, i) == SeqAt(s, n) <==> i == n
  {
    TidOrder(s, n, i);
    TidOrder(s, i, n);
    if (s + i) % U32 == (s + n) % U32 {
      assert TidGeq((s + i) % U32, (s + n) % U32);
    }
  }

  lemma AdvanceStays(g: Geometry)
    requires g.Valid()
    ensures forall at: nat :: at < g.maxlen ==> g.Advance(at) < g.maxlen
  {}

  lemma ApplyNone(home: seq<Block>, txs: seq<Tx>, i: nat)
    ensures Apply(home, txs, i, []) == home
  {}

  ghost function Prepend(done: seq<Event>, d: Descriptor): Descriptor {
    match d
    case Malformed => Malformed
    case Parsed(events, a, c) => Parsed(done + events, a, c)
  }

  lemma PrependStep(done: seq<Event>, e: Event, d: Descriptor)
    ensures Prepend(done, Prepend([e], d)) == Prepend(done + [e], d)
  {
    if d.Parsed? {
      assert done + ([e] + d.events) == (done + [e]) + d.events;
    }
  }
}
