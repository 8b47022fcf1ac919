/** A console session with a board: wait for the boot signature, send the commands once, wait for the answers, close. */
module Console {
  import opened Basics
  import opened Bytes

  // ---- the serial write loop -----------------------------------------------------------------

  /** What one os.write can do; `late` says whether the deadline has passed. */
  datatype WriteEvent = Wrote(n: nat) | Blocked(late: bool) | Broken

  datatype WriteEnd = Returned | Stalled | Errored | Writing

  /** Over any behaviour of the port: all the data on return, and a proper prefix of it on any failure. */
  method SerialWrite(data: seq<Byte>, events: seq<WriteEvent>) returns (end: WriteEnd, sent: seq<Byte>)
    ensures sent <= data
    ensures end == Returned <==> sent == data
    ensures end == Stalled ==> exists i :: 0 <= i < |events| && events[i] == Blocked(true)
  {
    sent := [];
    var rest, i := data, 0;
    while rest != []
      invariant 0 <= i <= |events| && data == sent + rest
      decreases |events| - i
    {
      if i == |events| {
        return Writing, sent;
      }
      match events[i] {
        case Blocked(late) =>
          if late {
            return Stalled, sent;
          }
        case Broken =>
          return Errored, sent;
        case Wrote(n) =>
          var k := Min(n, |rest|);
          sent, rest := sent + rest[..k], rest[k..];
      }
      i := i + 1;
    }
    end := Returned;
  }

  // ---- patterns --------------------------------------------------------------------------------------

  predicate Found(text: string, p: string) {
    Has(text, p)
  }

  function Missing(patterns: seq<string>, text: string): (r: seq<string>)
    ensures r == [] <==> forall p :: p in patterns ==> Found(text, p)
  {
    if patterns == [] then []
    else (if Found(text, patterns[0]) then [] else [patterns[0]]) + Missing(patterns[1..], text)
  }

  /** What has been seen stays seen. */
  lemma StillFound(text: string, more: string, p: string)
    requires Found(text, p)
    ensures Found(text + more, p)
  {
    var k := Index(text, p, 0).value;
    assert (text + more)[k..k + |p|] == text[k..k + |p|];
    IndexNoEarlier(text + more, p, 0, k);
  }

  lemma StillNoneMissing(patterns: seq<string>, text: string, more: string)
    requires Missing(patterns, text) == []
    ensures Missing(patterns, text + more) == []
  {
    forall p | p in patterns
      ensures Found(text + more, p)
    {
      StillFound(text, more, p);
    }
  }

  // ---- the session -------------------------------------------------------------------------------------

  /** One read of the transport: what it returned and whether the deadline has passed after it, or an exception. */
  datatype Poll = Heard(chunk: string, late: bool) | ReadFails

  datatype Target = Target(patterns: seq<string>, commands: seq<string>, answers: seq<string>, waits: bool)

  /** Everything the session cannot know: the reset, the reads, the write, and whether the durations parse. */
  datatype World = World(resetFails: bool, durationsFail: bool, boot: seq<Poll>, first: Poll, settle: Poll,
    write: WriteEnd, replies: seq<Poll>)

  datatype Result = Ok | Failed(stage: string, missing: seq<string>) | Raised | Running

  function Payload(commands: seq<string>): string {
    if commands == [] then [] else commands[0] + "\n" + Payload(commands[1..])
  }

  /** A write, and the transcript as it was then. */
  datatype Sent = Sent(data: string, seen: string)

  class Session {
    var text: string
    var writes: seq<Sent>
    var closed: bool

    constructor ()
      ensures text == [] && writes == [] && !closed
    {
      text, writes, closed := [], [], false;
    }

    method Pump(poll: Poll) returns (raised: bool)
      modifies this`text
      ensures raised == poll.ReadFails?
      ensures text == old(text) + if poll.Heard? then poll.chunk else []
    {
      if poll.ReadFails? {
        return true;
      }
      if poll.chunk != [] {
        text := text + poll.chunk;
      }
      raised := false;
    }

    /** Reads until nothing is missing any more, which does not stop the session, or until time is up, which does. */
    method Await(stage: string, patterns: seq<string>, polls: seq<Poll>) returns (stop: bool, r: Result)
      modifies this`text
      ensures old(text) <= text
      ensures !stop ==> Missing(patterns, text) == []
      ensures stop ==> r == Raised || r == Running || r == Failed(stage, Missing(patterns, text))
      ensures stop && r.Failed? ==> r.missing != []
    {
      for i := 0 to |polls|
        invariant old(text) <= text
      {
        var raised := Pump(polls[i]);
        if raised {
          return true, Raised;
        }
        if Missing(patterns, text) == [] {
          return false, Ok;
        }
        if polls[i].late {
          return true, Failed(stage, Missing(patterns, text));
        }
      }
      return true, Running;
    }

    ghost predicate SentOk(t: Target)
      reads this
    {
      |writes| <= 1 && forall s :: s in writes ==>
        t.commands != [] && s.data == Payload(t.commands) && Missing(t.patterns, s.seen) == [] && s.seen <= text
    }

    /** Until the boot signature has been seen and the board has settled. */
    method Boot(t: Target, w: World) returns (stop: bool, r: Result)
      modifies this`text
      ensures !stop ==> Missing(t.patterns, text) == []
      ensures stop ==> r == Raised || r == Running || r == Failed("console_check", Missing(t.patterns, text))
      ensures stop && r.Failed? ==> r.missing != []
    {
      hide Missing;
      r := Raised;
      if t.patterns != [] {
        if w.durationsFail {
          return true, Raised;
        }
        stop, r := Await("console_check", t.patterns, w.boot);
        if stop {
          return;
        }
      } else {
        stop := Pump(w.first);
        if stop {
          return true, Raised;
        }
      }
      ghost var booted := text;
      if !t.waits && t.commands != [] {
        stop := Pump(w.settle);
        if stop {
          return true, Raised;
        }
        StillNoneMissing(t.patterns, booted, w.settle.chunk);
      }
    }

    /** Everything before the transport is closed. */
    method Attempt(t: Target, w: World) returns (r: Result)
      requires text == [] && writes == []
      modifies this`text, this`writes
      ensures SentOk(t)
      ensures r.Ok? ==> Missing(t.patterns, text) == []
      ensures r.Ok? && t.commands != [] ==> Missing(t.answers, text) == [] && |writes| == 1
      ensures r.Failed? ==> r.missing != []
      ensures r.Failed? ==> r.missing == if writes == [] then Missing(t.patterns, text) else Missing(t.answers, text)
    {
      hide Missing, Payload;
      if w.resetFails {
        return Raised;
      }
      var stop, early := Boot(t, w);
      if stop {
        return early;
      }
      if t.commands != [] {
        ghost var seen := text;
        writes := [Sent(Payload(t.commands), text)];
        if !w.write.Returned? || w.durationsFail {
          return if w.write.Writing? then Running else Raised;
        }
        stop, early := Await("expect", t.answers, w.replies);
        StillNoneMissing(t.patterns, seen, text[|seen|..]);
        assert seen + text[|seen|..] == text;
        if stop {
          return early;
        }
      }
      r := Ok;
    }

    /** The whole session: closed on every way out. */
    method Run(t: Target, w: World) returns (r: Result)
      requires text == [] && writes == [] && !closed
      modifies this
      ensures closed <==> !r.Running?
      ensures SentOk(t)
      ensures r.Ok? ==> forall p :: p in t.patterns ==> Found(text, p)
      ensures r.Ok? && t.commands != [] ==> forall p :: p in t.answers ==> Found(text, p)
      ensures r.Failed? ==> r.missing != []
    {
      r := Attempt(t, w);
      if !r.Running? {
        closed := true;
      }
    }
  }
}
