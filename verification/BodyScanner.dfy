/** The five-state scan that cuts a C function body out of a source file, against a grammar of bodies. */
module BodyScanner {
  import opened Basics

  // ---- what a body is -------------------------------------------------------------------------

  /** One character of a literal: itself, or a backslash and any character. */
  datatype Unit = Plain(c: char) | Escaped(c: char)

  datatype Token =
    | Code(c: char)
    | BlockComment(text: string)
    | LineComment(text: string)
    | Literal(quote: char, units: seq<Unit>)
    | Braces(inner: Body)

  datatype Body = End | Then(head: Token, rest: Body)

  function RenderUnits(us: seq<Unit>): string {
    if us == [] then []
    else (match us[0] case Plain(c) => [c] case Escaped(c) => ['\\', c]) + RenderUnits(us[1..])
  }

  function RenderToken(t: Token): string {
    match t
    case Code(c) => [c]
    case BlockComment(text) => "/*" + text + "*/"
    case LineComment(text) => "//" + text + "\n"
    case Literal(quote, units) => [quote] + RenderUnits(units) + [quote]
    case Braces(inner) => "{" + Render(inner) + "}"
  }

  function Render(b: Body): string {
    match b
    case End => []
    case Then(t, rest) => RenderToken(t) + Render(rest)
  }

  predicate Closes(s: string) {
    |s| >= 2 && s[0] == '*' && s[1] == '/'
  }

  predicate NoClose(text: string) {
    forall k :: 0 <= k < |text| ==> !Closes(text[k..])
  }

  predicate OpensComment(s: string) {
    |s| >= 2 && s[0] == '/' && (s[1] == '/' || s[1] == '*')
  }

  predicate UnitOk(quote: char, u: Unit) {
    u.Plain? ==> u.c != quote && u.c != '\\'
  }

  /** `rest` is the text after the token: a slash of code must not open a comment there. */
  predicate TokenOk(t: Token, rest: string) {
    match t
    case Code(c) => c != '{' && c != '}' && c != '"' && c != '\'' && !OpensComment([c] + rest)
    case BlockComment(text) => NoClose(text)
    case LineComment(text) => '\n' !in text
    case Literal(quote, units) => (quote == '"' || quote == '\'') && forall u :: u in units ==> UnitOk(quote, u)
    case Braces(inner) => BodyOk(inner)
  }

  /** A body is read up to the brace that closes it. */
  predicate BodyOk(b: Body) {
    match b
    case End => true
    case Then(t, rest) => TokenOk(t, Render(rest) + "}") && BodyOk(rest)
  }

  // ---- the scan -----------------------------------------------------------------------------------

  datatype Mode = InCode | InBlock | InLine | InString | InChar

  function Bump(k: nat, r: Option<nat>): Option<nat> {
    if r.None? then None else Some(k + r.value)
  }

  function Drop(s: string, k: nat): string {
    if k <= |s| then s[k..] else []
  }

  function QuoteOf(m: Mode): char {
    if m == InString then '"' else '\''
  }

  /** How far before the brace that brings `depth` to zero, or nothing when there is none. */
  function Scan(s: string, m: Mode, depth: nat): Option<nat>
    requires depth > 0
    decreases |s|
  {
    if s == [] then None
    else match m
      case InCode =>
        if OpensComment(s) then Bump(2, Scan(s[2..], if s[1] == '*' then InBlock else InLine, depth))
        else if s[0] == '"' then Bump(1, Scan(s[1..], InString, depth))
        else if s[0] == '\'' then Bump(1, Scan(s[1..], InChar, depth))
        else if s[0] == '{' then Bump(1, Scan(s[1..], InCode, depth + 1))
        else if s[0] == '}' && depth == 1 then Some(0)
        else if s[0] == '}' then Bump(1, Scan(s[1..], InCode, depth - 1))
        else Bump(1, Scan(s[1..], InCode, depth))
      case InBlock =>
        if Closes(s) then Bump(2, Scan(s[2..], InCode, depth)) else Bump(1, Scan(s[1..], InBlock, depth))
      case InLine => Bump(1, Scan(s[1..], if s[0] == '\n' then InCode else InLine, depth))
      case _ =>
        if s[0] == '\\' then Bump(2, Scan(Drop(s, 2), m, depth))
        else Bump(1, Scan(s[1..], if s[0] == QuoteOf(m) then InCode else m, depth))
  }

  // ---- every well-formed body is scanned through -------------------------------------------------

  lemma {:induction false} ScanBlock(text: string, tail: string, depth: nat)
    requires NoClose(text) && depth > 0
    ensures Scan(text + "*/" + tail, InBlock, depth) == Bump(|text| + 2, Scan(tail, InCode, depth))
    decreases |text|
  {
    var s := text + "*/" + tail;
    if text == [] {
      assert s[2..] == tail;
    } else {
      assert !Closes(s) by {
        assert text[0..] == text;
        if |text| == 1 { assert s[1] == '*'; } else { assert s[1] == text[1]; }
      }
      assert s[1..] == text[1..] + "*/" + tail;
      assert NoClose(text[1..]) by {
        forall k | 0 <= k < |text[1..]| ensures !Closes(text[1..][k..]) { assert text[1..][k..] == text[k + 1..]; }
      }
      ScanBlock(text[1..], tail, depth);
    }
  }

  lemma {:induction false} ScanLine(text: string, tail: string, depth: nat)
    requires '\n' !in text && depth > 0
    ensures Scan(text + "\n" + tail, InLine, depth) == Bump(|text| + 1, Scan(tail, InCode, depth))
    decreases |text|
  {
    var s := text + "\n" + tail;
    if text == [] {
      assert s[1..] == tail;
    } else {
      assert s[1..] == text[1..] + "\n" + tail;
      ScanLine(text[1..], tail, depth);
    }
  }

  lemma {:induction false} ScanUnits(m: Mode, us: seq<Unit>, tail: string, depth: nat)
    requires (m == InString || m == InChar) && depth > 0
    requires forall u :: u in us ==> UnitOk(QuoteOf(m), u)
    ensures Scan(RenderUnits(us) + [QuoteOf(m)] + tail, m, depth)
      == Bump(|RenderUnits(us)| + 1, Scan(tail, InCode, depth))
    decreases |us|
  {
    var s := RenderUnits(us) + [QuoteOf(m)] + tail;
    if us == [] {
      assert s[1..] == tail;
    } else {
      assert UnitOk(QuoteOf(m), us[0]);
      var k := if us[0].Plain? then 1 else 2;
      assert s[k..] == RenderUnits(us[1..]) + [QuoteOf(m)] + tail;
      ScanUnits(m, us[1..], tail, depth);
    }
  }

  lemma {:induction false} ScanToken(t: Token, tail: string, depth: nat)
    requires TokenOk(t, tail) && depth > 0
    ensures Scan(RenderToken(t) + tail, InCode, depth) == Bump(|RenderToken(t)|, Scan(tail, InCode, depth))
    decreases t
  {
    var s := RenderToken(t) + tail;
    match t {
      case Code(c) => assert s == [c] + tail; assert s[1..] == tail;
      case BlockComment(text) => assert s[2..] == text + "*/" + tail; ScanBlock(text, tail, depth);
      case LineComment(text) => assert s[2..] == text + "\n" + tail; ScanLine(text, tail, depth);
      case Literal(quote, units) =>
        var m := if quote == '"' then InString else InChar;
        assert s[1..] == RenderUnits(units) + [quote] + tail;
        ScanUnits(m, units, tail, depth);
      case Braces(inner) =>
        assert s[1..] == Render(inner) + ("}" + tail);
        ScanBody(inner, tail, depth + 1);
        assert ("}" + tail)[1..] == tail;
    }
  }

  lemma {:induction false} ScanBody(b: Body, tail: string, depth: nat)
    requires BodyOk(b) && depth > 0
    ensures Scan(Render(b) + ("}" + tail), InCode, depth) == Bump(|Render(b)|, Scan("}" + tail, InCode, depth))
    decreases b
  {
    match b {
      case End => assert Render(b) + ("}" + tail) == "}" + tail;
      case Then(t, rest) =>
        assert Render(b) + ("}" + tail) == RenderToken(t) + (Render(rest) + ("}" + tail));
        LongerRest(t, Render(rest), tail);
        ScanToken(t, Render(rest) + ("}" + tail), depth);
        ScanBody(rest, tail, depth);
    }
  }

  /** Only the next character matters to a token, so a longer text after it changes nothing. */
  lemma LongerRest(t: Token, near: string, tail: string)
    requires TokenOk(t, near + "}")
    ensures TokenOk(t, near + ("}" + tail))
  {
    if t.Code? {
      assert ([t.c] + (near + "}"))[1] == ([t.c] + (near + ("}" + tail)))[1];
    }
  }

  // ---- whatever is scanned through is a well-formed body ----------------------------------------

  lemma {:induction false} ParseBlock(s: string, depth: nat) returns (text: string, tail: string)
    requires depth > 0 && Scan(s, InBlock, depth).Some?
    ensures s == text + "*/" + tail && NoClose(text) && Scan(tail, InCode, depth).Some?
    decreases |s|
  {
    if Closes(s) {
      text, tail := [], s[2..];
    } else {
      var text1;
      text1, tail := ParseBlock(s[1..], depth);
      text := [s[0]] + text1;
      forall k | 0 <= k < |text|
        ensures !Closes(text[k..])
      {
        if k > 0 { assert text[k..] == text1[k - 1..]; }
      }
    }
  }

  lemma {:induction false} ParseLine(s: string, depth: nat) returns (text: string, tail: string)
    requires depth > 0 && Scan(s, InLine, depth).Some?
    ensures s == text + "\n" + tail && '\n' !in text && Scan(tail, InCode, depth).Some?
    decreases |s|
  {
    if s[0] == '\n' {
      text, tail := [], s[1..];
    } else {
      var text1;
      text1, tail := ParseLine(s[1..], depth);
      text := [s[0]] + text1;
    }
  }

  lemma {:induction false} ParseUnits(s: string, m: Mode, depth: nat) returns (us: seq<Unit>, tail: string)
    requires depth > 0 && (m == InString || m == InChar) && Scan(s, m, depth).Some?
    ensures s == RenderUnits(us) + [QuoteOf(m)] + tail && Scan(tail, InCode, depth).Some?
    ensures forall u :: u in us ==> UnitOk(QuoteOf(m), u)
    decreases |s|
  {
    if s[0] == QuoteOf(m) {
      us, tail := [], s[1..];
    } else {
      var k := if s[0] == '\\' then 2 else 1;
      var us1;
      us1, tail := ParseUnits(Drop(s, k), m, depth);
      var u := if k == 2 then Escaped(s[1]) else Plain(s[0]);
      us := [u] + us1;
      assert us[1..] == us1;
    }
  }

  lemma ParseComment(s: string, depth: nat) returns (t: Token, tail: string)
    requires depth > 0 && Scan(s, InCode, depth).Some? && OpensComment(s)
    ensures s == RenderToken(t) + tail && TokenOk(t, tail) && Scan(tail, InCode, depth).Some?
  {
    var text;
    if s[1] == '*' {
      text, tail := ParseBlock(s[2..], depth);
      t := BlockComment(text);
    } else {
      text, tail := ParseLine(s[2..], depth);
      t := LineComment(text);
    }
  }

  lemma ParseLiteral(s: string, depth: nat) returns (t: Token, tail: string)
    requires depth > 0 && Scan(s, InCode, depth).Some? && (s[0] == '"' || s[0] == '\'')
    ensures s == RenderToken(t) + tail && TokenOk(t, tail) && Scan(tail, InCode, depth).Some?
  {
    var us;
    us, tail := ParseUnits(s[1..], if s[0] == '"' then InString else InChar, depth);
    t := Literal(s[0], us);
  }

  /** The token the scan reads first, when the first character is no closing brace. */
  lemma {:induction false} ParseToken(s: string, depth: nat) returns (t: Token, tail: string)
    requires depth > 0 && Scan(s, InCode, depth).Some? && s[0] != '}'
    ensures s == RenderToken(t) + tail && TokenOk(t, tail) && Scan(tail, InCode, depth).Some?
    decreases |s|, 0
  {
    if OpensComment(s) {
      t, tail := ParseComment(s, depth);
    } else if s[0] == '"' || s[0] == '\'' {
      t, tail := ParseLiteral(s, depth);
    } else if s[0] == '{' {
      var inner;
      inner, tail := ParseBody(s[1..], depth + 1);
      t := Braces(inner);
      ScanBody(inner, tail, depth + 1);
      assert ("}" + tail)[1..] == tail;
    } else {
      t, tail := Code(s[0]), s[1..];
    }
  }

  lemma {:induction false} ParseBody(s: string, depth: nat) returns (b: Body, tail: string)
    requires depth > 0 && Scan(s, InCode, depth).Some?
    ensures s == Render(b) + ("}" + tail) && BodyOk(b)
    decreases |s|, 1
  {
    if s[0] == '}' {
      b, tail := End, s[1..];
    } else {
      var t, near := ParseToken(s, depth);
      var rest;
      rest, tail := ParseBody(near, depth);
      b := Then(t, rest);
      ShorterRest(t, Render(rest), tail);
    }
  }

  lemma ShorterRest(t: Token, near: string, tail: string)
    requires TokenOk(t, near + ("}" + tail))
    ensures TokenOk(t, near + "}")
  {
    if t.Code? {
      assert ([t.c] + (near + "}"))[1] == ([t.c] + (near + ("}" + tail)))[1];
    }
  }

  // ---- the two together --------------------------------------------------------------------------

  /** The text begins with a body and the brace that closes it. */
  ghost predicate BodyAt(s: string, b: Body) {
    BodyOk(b) && Render(b) + "}" <= s
  }

  /** The scan stops after n characters exactly when those characters are a body and a closing brace follows. */
  lemma ScanIffBody(s: string, n: nat)
    ensures Scan(s, InCode, 1) == Some(n) <==> exists b :: BodyAt(s, b) && |Render(b)| == n
  {
    if Scan(s, InCode, 1) == Some(n) {
      var b, tail := ParseBody(s, 1);
      ScanBody(b, tail, 1);
      assert BodyAt(s, b) && |Render(b)| == n;
    }
    if b :| BodyAt(s, b) && |Render(b)| == n {
      var tail := s[n + 1..];
      assert s == Render(b) + ("}" + tail);
      ScanBody(b, tail, 1);
    }
  }

  /** A text begins with at most one body. */
  lemma BodyUnique(s: string, b: Body, c: Body)
    requires BodyAt(s, b) && BodyAt(s, c)
    ensures Render(b) == Render(c)
  {
    ScanIffBody(s, |Render(b)|);
    ScanIffBody(s, |Render(c)|);
    assert Render(b) == s[..|Render(b)|] && Render(c) == s[..|Render(c)|];
  }

  // ---- the loop --------------------------------------------------------------------------------------

  /** What the scan of the whole text still has to find, seen from position i. */
  ghost predicate Pending(source: string, start: nat, i: nat, m: Mode, depth: nat)
    requires start < |source|
  {
    if depth == 0 then i == start && m == InCode
    else start < i && Scan(source[start + 1..], InCode, 1) == Bump(i - start - 1, Scan(Drop(source, i), m, depth))
  }

  datatype Step = Step(mode: Mode, up: nat, down: nat, width: nat)

  /** One turn of the loop: the new mode, braces opened and closed, characters passed. */
  function StepOf(m: Mode, ch: char, next: Option<char>): (r: Step)
    ensures r.down <= 1 && (r.down == 1 <==> m == InCode && ch == '}')
  {
    match m
    case InCode =>
      if ch == '/' && next == Some('*') then Step(InBlock, 0, 0, 2)
      else if ch == '/' && next == Some('/') then Step(InLine, 0, 0, 2)
      else if ch == '"' then Step(InString, 0, 0, 1)
      else if ch == '\'' then Step(InChar, 0, 0, 1)
      else if ch == '{' then Step(InCode, 1, 0, 1)
      else if ch == '}' then Step(InCode, 0, 1, 1)
      else Step(InCode, 0, 0, 1)
    case InBlock => if ch == '*' && next == Some('/') then Step(InCode, 0, 0, 2) else Step(InBlock, 0, 0, 1)
    case InLine => Step(if ch == '\n' then InCode else InLine, 0, 0, 1)
    case _ => if ch == '\\' then Step(m, 0, 0, 2) else Step(if ch == QuoteOf(m) then InCode else m, 0, 0, 1)
  }

  function Peek(source: string, i: nat): Option<char> {
    if i < |source| then Some(source[i]) else None
  }

  lemma ScanStep(s: string, m: Mode, depth: nat)
    requires s != [] && depth > 0
    ensures var t := StepOf(m, s[0], Peek(s, 1));
      Scan(s, m, depth) == if depth + t.up == t.down then Some(0)
        else Bump(t.width, Scan(Drop(s, t.width), t.mode, depth + t.up - t.down))
  {
  }

  lemma DropDrop(s: string, i: nat, k: nat)
    ensures Drop(Drop(s, i), k) == Drop(s, i + k)
  {
  }

  ghost predicate Stepped(source: string, start: nat, i: nat, depth: nat, t: Step)
    requires start < |source|
  {
    && t.down <= depth + t.up && depth + t.up > 0
    && if depth + t.up == t.down then start < i && Scan(source[start + 1..], InCode, 1) == Some(i - start - 1)
       else Pending(source, start, i + t.width, t.mode, depth + t.up - t.down)
  }

  lemma PendingOpen(source: string, start: nat)
    requires start < |source| && source[start] == '{'
    ensures Stepped(source, start, start, 0, StepOf(InCode, source[start], Peek(source, start + 1)))
  {
    hide Scan;
  }

  lemma PendingInside(source: string, start: nat, i: nat, m: Mode, depth: nat)
    requires start < |source| && i < |source| && depth > 0 && Pending(source, start, i, m, depth)
    ensures Stepped(source, start, i, depth, StepOf(m, source[i], Peek(source, i + 1)))
  {
    hide Scan, StepOf, Drop;
    var s := Drop(source, i);
    DropAt(source, i);
    ScanStep(s, m, depth);
    DropDrop(source, i, StepOf(m, s[0], Peek(s, 1)).width);
  }

  lemma DropAt(s: string, i: nat)
    requires i < |s|
    ensures Drop(s, i) != [] && Drop(s, i)[0] == s[i] && Peek(Drop(s, i), 1) == Peek(s, i + 1)
  {
  }

  /** A turn of the loop either reaches the closing brace or keeps what is pending. */
  lemma PendingStep(source: string, start: nat, i: nat, m: Mode, depth: nat)
    requires start < |source| && source[start] == '{' && i < |source| && Pending(source, start, i, m, depth)
    ensures Stepped(source, start, i, depth, StepOf(m, source[i], Peek(source, i + 1)))
  {
    hide Scan, StepOf, Stepped;
    if depth == 0 { PendingOpen(source, start); } else { PendingInside(source, start, i, m, depth); }
  }

  lemma PendingStart(source: string, start: nat)
    requires start < |source|
    ensures Pending(source, start, start, InCode, 0)
  {
  }

  ghost predicate HasBody(s: string) {
    exists b :: BodyAt(s, b)
  }

  lemma Found(s: string, n: nat)
    requires Scan(s, InCode, 1) == Some(n)
    ensures n <= |s| && exists b :: BodyAt(s, b) && Render(b) == s[..n]
  {
    hide Scan;
    ScanIffBody(s, n);
    var b :| BodyAt(s, b) && |Render(b)| == n;
  }

  lemma Unclosed(source: string, start: nat, i: nat, m: Mode, depth: nat)
    requires start < |source| <= i && Pending(source, start, i, m, depth)
    ensures !HasBody(source[start + 1..])
  {
    var s := source[start + 1..];
    if b :| BodyAt(s, b) {
      ScanIffBody(s, |Render(b)|);
    }
  }

  /** `start` is the brace that opens the body; `None` stands for the unclosed-body error. */
  method CutBody(source: string, start: nat) returns (r: Option<string>)
    requires start < |source| && source[start] == '{'
    ensures r.Some? ==> exists b :: BodyAt(source[start + 1..], b) && Render(b) == r.value
    ensures r.None? ==> !HasBody(source[start + 1..])
  {
    hide Scan, Pending, BodyAt, Render, HasBody;
    var depth, i, m := 0, start, InCode;
    PendingStart(source, start);
    while i < |source|
      invariant 0 <= depth && start <= i && Pending(source, start, i, m, depth)
      decreases |source| - i
    {
      PendingStep(source, start, i, m, depth);
      var ch := source[i];
      var next := Peek(source, i + 1);
      match m {
        case InCode =>
          if ch == '/' && next == Some('*') {
            m := InBlock;
            i := i + 2;
            continue;
          }
          if ch == '/' && next == Some('/') {
            m := InLine;
            i := i + 2;
            continue;
          }
          if ch == '"' {
            m := InString;
          } else if ch == '\'' {
            m := InChar;
          } else if ch == '{' {
            depth := depth + 1;
          } else if ch == '}' {
            depth := depth - 1;
            if depth == 0 {
              Found(source[start + 1..], i - start - 1);
              return Some(source[start + 1..][..i - start - 1]);
            }
          }
        case InBlock =>
          if ch == '*' && next == Some('/') {
            m := InCode;
            i := i + 2;
            continue;
          }
        case InLine =>
          if ch == '\n' {
            m := InCode;
          }
        case _ =>
          if ch == '\\' {
            i := i + 2;
            continue;
          }
          if ch == QuoteOf(m) {
            m := InCode;
          }
      }
      i := i + 1;
    }
    Unclosed(source, start, i, m, depth);
    r := None;
  }
}
