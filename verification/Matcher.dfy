/** Waiting for markers in a child's output, chunk by chunk, and answering each with its line. */
module Matcher {
  import opened Basics
  import opened Bytes

  type Text = seq<Byte>

  const NEWLINE: Byte := 10
  const KEEP: nat := 16384

  // ---- searching ------------------------------------------------------------------

  predicate OccursAt(s: Text, m: Text, i: int) {
    0 <= i && At(s, i, m)
  }

  lemma IndexFirst(s: Text, m: Text, i: nat)
    ensures forall k: int :: i <= k && (Index(s, m, i).None? || k < Index(s, m, i).value) ==> !OccursAt(s, m, k)
  {
    forall k: int | i <= k && (Index(s, m, i).None? || k < Index(s, m, i).value) ensures !OccursAt(s, m, k) {
      if OccursAt(s, m, k) { IndexNoEarlier(s, m, i, k); }
    }
  }

  /** `s.find(m, i)`: the first occurrence at or after i, or -1. */
  function FindFrom(s: Text, m: Text, i: nat): (r: int)
    requires i <= |s|
    ensures r == -1 || (i <= r && OccursAt(s, m, r))
    ensures forall k :: i <= k && (r < 0 || k < r) ==> !OccursAt(s, m, k)
  {
    IndexFirst(s, m, i);
    match Index(s, m, i)
    case None => -1
    case Some(k) => k
  }

  // ---- the reference: one search over the whole stream ---------------------------------

  /** How many markers have been passed, and where the last one ended. */
  datatype Progress = Progress(count: nat, pos: nat)

  function Greedy(stream: Text, markers: seq<Text>, k: nat, pos: nat): (r: Progress)
    requires k <= |markers| && pos <= |stream|
    ensures k <= r.count <= |markers| && pos <= r.pos <= |stream|
    decreases |markers| - k
  {
    if k == |markers| then Progress(k, pos)
    else
      var r := FindFrom(stream, markers[k], pos);
      if r < 0 then Progress(k, pos) else Greedy(stream, markers, k + 1, r + |markers[k]|)
  }

  lemma GreedyNext(stream: Text, markers: seq<Text>, k: nat, pos: nat)
    requires k < |markers| && pos <= |stream|
    ensures var r := FindFrom(stream, markers[k], pos);
      if r < 0 then Greedy(stream, markers, k, pos) == Progress(k, pos)
      else r + |markers[k]| <= |stream|
           && Greedy(stream, markers, k, pos) == Greedy(stream, markers, k + 1, r + |markers[k]|)
  {}

  /** More output never changes what has already been found. */
  lemma {:induction false} GreedyExtends(stream: Text, more: Text, markers: seq<Text>, k: nat, pos: nat)
    requires k <= |markers| && pos <= |stream|
    ensures var r := Greedy(stream, markers, k, pos);
      Greedy(stream + more, markers, k, pos) == Greedy(stream + more, markers, r.count, r.pos)
    decreases |markers| - k
  {
    hide Greedy, FindFrom, OccursAt;
    if k == |markers| {
      GreedyDone(stream, markers, pos);
    } else {
      GreedyNext(stream, markers, k, pos);
      var r := FindFrom(stream, markers[k], pos);
      if r >= 0 {
        FindExtends(stream, more, markers[k], pos);
        GreedyNext(stream + more, markers, k, pos);
        GreedyExtends(stream, more, markers, k + 1, r + |markers[k]|);
      }
    }
  }

  lemma OccursExtends(s: Text, more: Text, m: Text, i: int)
    requires i + |m| <= |s|
    ensures OccursAt(s + more, m, i) == OccursAt(s, m, i)
  {
    if 0 <= i { assert (s + more)[i..i + |m|] == s[i..i + |m|]; }
  }

  lemma FindIs(s: Text, m: Text, i: nat, r: nat)
    requires i <= |s| && i <= r && OccursAt(s, m, r) && forall k :: i <= k < r ==> !OccursAt(s, m, k)
    ensures FindFrom(s, m, i) == r
  {
    var f := FindFrom(s, m, i);
    assert f >= 0 && !(f < r) && !(r < f);
  }

  lemma FindExtends(s: Text, more: Text, m: Text, i: nat)
    requires i <= |s| && FindFrom(s, m, i) >= 0
    ensures FindFrom(s + more, m, i) == FindFrom(s, m, i)
  {
    var r := FindFrom(s, m, i);
    OccursExtends(s, more, m, r);
    forall k | i <= k < r ensures !OccursAt(s + more, m, k) {
      OccursExtends(s, more, m, k);
    }
    FindIs(s + more, m, i, r);
  }

  /** Searching a suffix is searching the whole from where the suffix starts. */
  lemma FindInSuffix(s: Text, m: Text, start: nat)
    requires start <= |s|
    ensures var f := FindFrom(s[start..], m, 0);
      FindFrom(s, m, start) == if f < 0 then -1 else start + f
  {
    var t := s[start..];
    var f := FindFrom(t, m, 0);
    forall k | start <= k ensures OccursAt(s, m, k) == OccursAt(t, m, k - start) {
      if k + |m| <= |s| { assert t[k - start..k - start + |m|] == s[k..k + |m|]; }
    }
    if f >= 0 {
      FindIs(s, m, start, start + f);
    } else {
      assert forall k :: start <= k ==> !OccursAt(s, m, k);
    }
  }

  // ---- optimality ---------------------------------------------------------------------------

  /** Ordered, non-overlapping occurrences of markers j, j+1, ... from pos on. */
  predicate Embeds(stream: Text, markers: seq<Text>, j: nat, pos: nat, at: seq<nat>)
    decreases |at|
  {
    at == [] || (j < |markers| && pos <= at[0] && OccursAt(stream, markers[j], at[0])
                 && Embeds(stream, markers, j + 1, at[0] + |markers[j]|, at[1..]))
  }

  lemma FindNotAfter(s: Text, m: Text, i: nat, a: nat)
    requires i <= |s| && i <= a && OccursAt(s, m, a)
    ensures i <= FindFrom(s, m, i) <= a && a + |m| <= |s|
  {}

  /** Taking the first occurrence stays ahead of every other choice. */
  lemma {:induction false} GreedyStaysAhead(stream: Text, markers: seq<Text>, j: nat, pos: nat, early: nat,
    at: seq<nat>)
    requires j <= |markers| && early <= pos <= |stream| && Embeds(stream, markers, j, pos, at)
    ensures Greedy(stream, markers, j, early).count >= j + |at|
    decreases |at|
  {
    hide OccursAt, FindFrom, Greedy;
    if at != [] {
      var r := FindFrom(stream, markers[j], early);
      FindNotAfter(stream, markers[j], early, at[0]);
      GreedyNext(stream, markers, j, early);
      GreedyStaysAhead(stream, markers, j + 1, at[0] + |markers[j]|, r + |markers[j]|, at[1..]);
    }
  }

  lemma {:induction false} GreedyEmbeds(stream: Text, markers: seq<Text>, j: nat, pos: nat, n: nat)
    returns (at: seq<nat>)
    requires j <= |markers| && pos <= |stream| && j + n <= Greedy(stream, markers, j, pos).count
    ensures |at| == n && Embeds(stream, markers, j, pos, at)
    decreases n
  {
    if n == 0 {
      at := [];
    } else {
      var r := FindFrom(stream, markers[j], pos);
      var rest := GreedyEmbeds(stream, markers, j + 1, r + |markers[j]|, n - 1);
      at := [r] + rest;
      assert at[1..] == rest;
    }
  }

  /** The search passes k markers if and only if the stream contains the first k of them in order
      and without overlap. */
  lemma GreedyIsOptimal(stream: Text, markers: seq<Text>, k: nat)
    ensures Greedy(stream, markers, 0, 0).count >= k
      <==> exists at: seq<nat> :: |at| == k && Embeds(stream, markers, 0, 0, at)
  {
    if Greedy(stream, markers, 0, 0).count >= k {
      var at := GreedyEmbeds(stream, markers, 0, 0, k);
    }
    forall at: seq<nat> | |at| == k && Embeds(stream, markers, 0, 0, at)
      ensures Greedy(stream, markers, 0, 0).count >= k
    {
      GreedyStaysAhead(stream, markers, 0, 0, 0, at);
    }
  }

  // ---- the streaming session -----------------------------------------------------------------

  datatype Exchange = Exchange(marker: Text, line: Text)

  function Markers(steps: seq<Exchange>): (r: seq<Text>)
    ensures |r| == |steps|
  {
    seq(|steps|, i requires 0 <= i < |steps| => steps[i].marker)
  }

  function Answers(steps: seq<Exchange>): (r: seq<Text>)
    ensures |r| == |steps|
  {
    seq(|steps|, i requires 0 <= i < |steps| => steps[i].line)
  }

  /** The bytes written for some lines: each with its newline. */
  function Lines(lines: seq<Text>): Text {
    if lines == [] then [] else Lines(lines[..|lines| - 1]) + lines[|lines| - 1] + [NEWLINE]
  }

  function UpTo(n: nat): (r: seq<nat>)
    ensures |r| == n
  {
    seq(n, i => i)
  }

  function Longest(markers: seq<Text>): (n: nat)
    ensures forall m :: m in markers ==> |m| <= n
  {
    if markers == [] then 0
    else
      var rest := Longest(markers[1..]);
      if |markers[0]| > rest then |markers[0]| else rest
  }

  /** `max((len(m) for m in expected), default=1)`. */
  function MaxMarker(markers: seq<Text>): nat {
    if markers == [] then 1 else Longest(markers)
  }

  /** How much unmatched output is kept. */
  function Limit(markers: seq<Text>): (n: nat)
    ensures n >= KEEP && forall m :: m in markers ==> 2 * |m| <= n
  {
    if 2 * MaxMarker(markers) > KEEP then 2 * MaxMarker(markers) else KEEP
  }

  /** No occurrence of m can start in [pos, start), in this stream or in any extension of it. */
  ghost predicate RuledOut(stream: Text, m: Text, pos: nat, start: nat) {
    forall i: int :: pos <= i < start ==> CannotStart(stream, m, i)
  }

  predicate CannotStart(stream: Text, m: Text, i: int) {
    i + |m| <= |stream| && !OccursAt(stream, m, i)
  }

  lemma RuledOutExtends(stream: Text, more: Text, m: Text, pos: nat, start: nat)
    requires RuledOut(stream, m, pos, start)
    ensures RuledOut(stream + more, m, pos, start)
  {
    forall i: int | pos <= i < start ensures CannotStart(stream + more, m, i) {
      assert CannotStart(stream, m, i);
      OccursExtends(stream, more, m, i);
    }
  }

  /** Searching the kept tail finds what searching from the last match would find. */
  lemma FindInTail(stream: Text, m: Text, pos: nat, start: nat)
    requires pos <= start <= |stream| && RuledOut(stream, m, pos, start)
    ensures var f := FindFrom(stream[start..], m, 0);
      FindFrom(stream, m, pos) == if f < 0 then -1 else start + f
  {
    FindInSuffix(stream, m, start);
    var r := FindFrom(stream, m, start);
    forall k: int | pos <= k && (r < 0 || k < r) ensures !OccursAt(stream, m, k) {
      if k < start { assert CannotStart(stream, m, k); }
    }
    if r >= 0 { FindIs(stream, m, pos, r); }
  }

  /** One turn of the search, as the kept tail sees it. */
  lemma GreedyTakes(stream: Text, markers: seq<Text>, k: nat, pos: nat, start: nat)
    requires k < |markers| && pos <= start <= |stream| && RuledOut(stream, markers[k], pos, start)
    ensures var f := FindFrom(stream[start..], markers[k], 0);
      if f < 0 then Greedy(stream, markers, k, pos) == Progress(k, pos) && FindFrom(stream, markers[k], pos) < 0
      else start + f + |markers[k]| <= |stream|
           && Greedy(stream, markers, k, pos) == Greedy(stream, markers, k + 1, start + f + |markers[k]|)
  {
    hide RuledOut;
    FindInTail(stream, markers[k], pos, start);
  }

  class Session {
    const expected: seq<Text>
    const sendLines: seq<Text>
    const steps: seq<Exchange>
    var tail: Text
    var markerIndex: nat
    var sent: bool
    var sentSteps: seq<nat>
    var stdin: Text            // bytes handed to the child

    ghost var stream: Text     // all output so far
    ghost var pos: nat         // end of the last match in the stream
    ghost var start: nat       // where the kept tail begins in the stream

    /** `tail` and `markerIndex` summarise the whole stream. */
    ghost predicate Valid()
      reads this
    {
      pos <= start <= |stream| && tail == stream[start..] && markerIndex <= |expected|
      && (if stream == [] then markerIndex == 0 && pos == 0
          else Greedy(stream, expected, 0, 0) == Progress(markerIndex, pos))
      && (markerIndex < |expected| ==> RuledOut(stream, expected[markerIndex], pos, start))
      && SendsValid()
    }

    ghost predicate SendsValid()
      reads this
    {
      (steps != [] ==> expected == Markers(steps) && sendLines == [])
      && (sent ==> markerIndex == |expected|)
      && |sentSteps| <= markerIndex && (steps == [] ==> sentSteps == [])
      && |sentSteps| <= |steps| && sentSteps == UpTo(|sentSteps|)
      && stdin == (if steps != [] then Lines(Answers(steps)[..|sentSteps|]) else if sent then Lines(sendLines) else [])
    }

    /** Step options, when present, replace plain --expect and --send-line options. */
    constructor (expectOptions: seq<Text>, sendOptions: seq<Text>, stepOptions: seq<Exchange>)
      ensures Valid() && stream == [] && stdin == [] && !sent && sentSteps == []
      ensures steps == stepOptions
      ensures expected == (if stepOptions != [] then Markers(stepOptions) else expectOptions)
      ensures sendLines == (if stepOptions != [] then [] else sendOptions)
    {
      steps := stepOptions;
      expected := if stepOptions != [] then Markers(stepOptions) else expectOptions;
      sendLines := if stepOptions != [] then [] else sendOptions;
      tail, markerIndex, sent, sentSteps, stdin := [], 0, false, [], [];
      stream, pos, start := [], 0, 0;
    }

    /** Take in one chunk: advance through the markers found, then drop what no marker can need. */
    method OnChunk(chunk: Text)
      requires Valid() && chunk != []
      modifies this`tail, this`markerIndex, this`stream, this`pos, this`start
      ensures Valid() && stream == old(stream) + chunk && markerIndex >= old(markerIndex)
    {
      hide SendsValid, Greedy, RuledOut;
      GreedyExtends(stream, chunk, expected, 0, 0);
      if markerIndex < |expected| { RuledOutExtends(stream, chunk, expected[markerIndex], pos, start); }
      SameTail(stream, chunk, start);
      tail := tail + chunk;
      stream := stream + chunk;
      Advance();
      Trim();
      SendsFrame();
    }

    method Advance()
      requires pos <= start <= |stream| && tail == stream[start..] && markerIndex <= |expected|
      requires markerIndex < |expected| ==> RuledOut(stream, expected[markerIndex], pos, start)
      modifies this`tail, this`markerIndex, this`pos, this`start
      ensures pos <= start <= |stream| && tail == stream[start..] && old(markerIndex) <= markerIndex <= |expected|
      ensures Greedy(stream, expected, old(markerIndex), old(pos)) == Progress(markerIndex, pos)
      ensures markerIndex < |expected| ==> RuledOut(stream, expected[markerIndex], pos, start)
                                           && FindFrom(stream, expected[markerIndex], pos) < 0
    {
      hide RuledOut, OccursAt, Greedy, FindFrom;
      while markerIndex < |expected|
        invariant pos <= start <= |stream| && tail == stream[start..] && old(markerIndex) <= markerIndex <= |expected|
        invariant Greedy(stream, expected, old(markerIndex), old(pos)) == Greedy(stream, expected, markerIndex, pos)
        invariant markerIndex < |expected| ==> RuledOut(stream, expected[markerIndex], pos, start)
        decreases |expected| - markerIndex
      {
        var marker := expected[markerIndex];
        GreedyTakes(stream, expected, markerIndex, pos, start);
        var offset := FindFrom(tail, marker, 0);
        if offset < 0 { break; }
        SuffixOfSuffix(stream, start, offset + |marker|);
        tail := tail[offset + |marker|..];
        pos := start + offset + |marker|;
        start := pos;
        markerIndex := markerIndex + 1;
        if markerIndex < |expected| { NothingRuledOut(stream, expected[markerIndex], pos); }
      }
      GreedyDone(stream, expected, pos);
    }

    method Trim()
      requires pos <= start <= |stream| && tail == stream[start..] && markerIndex <= |expected|
      requires markerIndex < |expected| ==> RuledOut(stream, expected[markerIndex], pos, start)
                                            && FindFrom(stream, expected[markerIndex], pos) < 0
      modifies this`tail, this`start
      ensures pos <= start <= |stream| && tail == stream[start..]
      ensures markerIndex < |expected| ==> RuledOut(stream, expected[markerIndex], pos, start)
    {
      var limit := Limit(expected);
      if |tail| > limit {
        if markerIndex < |expected| { assert expected[markerIndex] in expected; }
        SuffixOfSuffix(stream, start, |tail| - limit);
        tail := tail[|tail| - limit..];
        start := |stream| - limit;
      }
    }

    twostate lemma SendsFrame()
      requires old(SendsValid()) && old(markerIndex) <= markerIndex <= |expected|
      requires sent == old(sent) && sentSteps == old(sentSteps) && stdin == old(stdin)
      ensures SendsValid()
    {}

    /** Write what the markers passed so far have earned. */
    method Pump()
      requires Valid()
      modifies this`sent, this`sentSteps, this`stdin
      ensures Valid()
      ensures steps != [] ==> stdin == Lines(Answers(steps)[..markerIndex])
      ensures steps == [] ==> sent == (markerIndex == |expected|) && stdin == if sent then Lines(sendLines) else []
      ensures old(stdin) <= stdin
    {
      hide Greedy, RuledOut, Lines;
      if markerIndex == |expected| && !sent { SendBatch(); }
      if steps != [] { SendSteps(); }
    }

    method SendBatch()
      requires SendsValid() && markerIndex == |expected| && !sent
      modifies this`sent, this`stdin
      ensures SendsValid() && sent && (steps != [] ==> stdin == old(stdin)) && (steps == [] ==> old(stdin) == [])
    {
      var before := stdin;
      for i := 0 to |sendLines|
        invariant stdin == before + Lines(sendLines[..i])
      {
        assert sendLines[..i + 1][..i] == sendLines[..i];
        stdin := stdin + sendLines[i] + [NEWLINE];
        assert before + Lines(sendLines[..i]) + sendLines[i] + [NEWLINE] == before + Lines(sendLines[..i + 1]);
      }
      assert sendLines[..|sendLines|] == sendLines;
      sent := true;
    }

    method SendSteps()
      requires SendsValid() && steps != [] && markerIndex <= |expected|
      modifies this`sentSteps, this`stdin
      ensures SendsValid() && |sentSteps| == markerIndex && old(stdin) <= stdin
    {
      hide Lines, UpTo, Markers;
      for index := 0 to markerIndex
        invariant index <= |sentSteps| <= markerIndex
        invariant SendsValid() && old(stdin) <= stdin
      {
        if index < |sentSteps| || index >= |steps| { continue; }
        NextAnswer(steps, index);
        stdin := stdin + steps[index].line + [NEWLINE];
        sentSteps := sentSteps + [index];
      }
    }

    /** One turn of the loop: at most one read, then the writes.  An empty read changes nothing. */
    method Turn(chunk: Text)
      requires Valid()
      modifies this`tail, this`markerIndex, this`stream, this`pos, this`start, this`sent, this`sentSteps, this`stdin
      ensures Valid() && stream == old(stream) + chunk
      ensures steps != [] ==> stdin == Lines(Answers(steps)[..markerIndex])
      ensures steps == [] ==> stdin == if markerIndex == |expected| then Lines(sendLines) else []
      ensures old(stdin) <= stdin
    {
      hide Greedy, RuledOut, SendsValid, Lines;
      if chunk != [] { OnChunk(chunk); } else { assert stream + chunk == stream; }
      Pump();
    }

    /** A whole run over any chunking of the output. */
    method Run(chunks: seq<Text>)
      requires Valid() && stream == [] && stdin == []
      modifies this`tail, this`markerIndex, this`stream, this`pos, this`start, this`sent, this`sentSteps, this`stdin
      ensures Valid() && stream == Joined(chunks)
      ensures stream != [] ==> markerIndex == Greedy(Joined(chunks), expected, 0, 0).count
      ensures chunks != [] && steps != [] ==> stdin == Lines(Answers(steps)[..markerIndex])
      ensures chunks != [] && steps == [] ==> stdin == if markerIndex == |expected| then Lines(sendLines) else []
    {
      hide Greedy, RuledOut, Lines, UpTo;
      for i := 0 to |chunks|
        invariant Valid() && stream == Joined(chunks[..i])
        invariant i > 0 && steps != [] ==> stdin == Lines(Answers(steps)[..markerIndex])
        invariant i > 0 && steps == [] ==> stdin == if markerIndex == |expected| then Lines(sendLines) else []
      {
        assert chunks[..i + 1][..i] == chunks[..i];
        Turn(chunks[i]);
      }
      assert chunks[..|chunks|] == chunks;
    }
  }

  lemma NextAnswer(steps: seq<Exchange>, n: nat)
    requires n < |steps|
    ensures Lines(Answers(steps)[..n + 1]) == Lines(Answers(steps)[..n]) + steps[n].line + [NEWLINE]
    ensures UpTo(n + 1) == UpTo(n) + [n]
  {
    assert Answers(steps)[..n + 1][..n] == Answers(steps)[..n];
  }

  function Joined(chunks: seq<Text>): Text {
    if chunks == [] then [] else Joined(chunks[..|chunks| - 1]) + chunks[|chunks| - 1]
  }

  lemma SameTail(stream: Text, chunk: Text, start: nat)
    requires start <= |stream|
    ensures stream[start..] + chunk == (stream + chunk)[start..]
  {}

  lemma SuffixOfSuffix(s: Text, a: nat, b: nat)
    requires a + b <= |s|
    ensures s[a..][b..] == s[a + b..]
  {}

  lemma GreedyDone(stream: Text, markers: seq<Text>, pos: nat)
    requires pos <= |stream|
    ensures Greedy(stream, markers, |markers|, pos) == Progress(|markers|, pos)
  {}

  lemma NothingRuledOut(stream: Text, m: Text, pos: nat)
    ensures RuledOut(stream, m, pos, pos)
  {}
}
