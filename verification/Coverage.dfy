/** The rewriter of the system-call coverage table: parse, reorder, regenerate, and check. */
module Coverage {
  import opened Basics

  function Begin(): (s: string)
    ensures |s| == 37 && s[0] == '<' && s[1] == '!' && s[2] == '-' && s[28] == 'B'
    ensures '\n' !in s
  {
    "<!-- LINUX_SYSCALL_COVERAGE_BEGIN -->"
  }

  function End(): (s: string)
    ensures |s| == 35 && s[0] == '<' && s[28] == 'E'
    ensures '\n' !in s
  {
    "<!-- LINUX_SYSCALL_COVERAGE_END -->"
  }

  function Titles(): (s: string)
    ensures |s| > 2 && s[2] != '`' && '<' !in s && '\n' !in s
  {
    "| Syscall | Area | Level |" + " Smoke Gate | Notes |"
  }

  function Rule(): (s: string)
    ensures |s| > 2 && s[2] != '`' && '<' !in s && '\n' !in s
  {
    "| --- | --- | --- | --- | --- |"
  }

  // ---- lines --------------------------------------------------------------------------------------

  /** Each line and its newline. */
  function Text(ls: seq<string>): string {
    if ls == [] then [] else ls[0] + "\n" + Text(ls[1..])
  }

  predicate OneLine(s: string) {
    '\n' !in s
  }

  predicate AllOneLine(ls: seq<string>) {
    forall i :: 0 <= i < |ls| ==> OneLine(ls[i])
  }

  /** The lines that end in a newline, and the last one, which does not. */
  datatype Split = Split(full: seq<string>, last: string)

  function Lines(s: string): Split
    decreases |s|
  {
    match Index(s, "\n", 0)
    case None => Split([], s)
    case Some(k) => var r := Lines(s[k + 1..]); Split([s[..k]] + r.full, r.last)
  }

  lemma NewlineAt(s: string, k: nat)
    ensures At(s, k, "\n") <==> k < |s| && s[k] == '\n'
  {
  }

  lemma FirstNewline(s: string, rest: string)
    requires OneLine(s)
    ensures Index(s + "\n" + rest, "\n", 0) == Some(|s|) && Index(s, "\n", 0) == None
  {
    var t := s + "\n" + rest;
    forall i: nat
      ensures i < |s| ==> !At(t, i, "\n")
    {
      NewlineAt(t, i);
    }
    NewlineAt(t, |s|);
    IndexIs(t, "\n", 0, |s|);
    if Index(s, "\n", 0).Some? { NewlineAt(s, Index(s, "\n", 0).value); }
  }

  lemma NoNewline(s: string)
    requires Index(s, "\n", 0) == None
    ensures OneLine(s)
  {
    hide Index, At;
    if k: nat :| k < |s| && s[k] == '\n' {
      NewlineAt(s, k);
      IndexNoEarlier(s, "\n", 0, k);
    }
  }

  lemma BeforeNewline(s: string, k: nat)
    requires Index(s, "\n", 0) == Some(k)
    ensures k < |s| && s == s[..k] + "\n" + s[k + 1..] && OneLine(s[..k])
  {
    hide Index, At;
    NewlineAt(s, k);
    if i: nat :| i < k && s[i] == '\n' {
      NewlineAt(s, i);
      IndexNoEarlier(s, "\n", 0, i);
    }
  }

  lemma TextNone(last: string)
    ensures Text([]) + last == last
  {
  }

  lemma TextCons(line: string, ls: seq<string>, last: string)
    ensures Text([line] + ls) + last == line + "\n" + (Text(ls) + last)
  {
    assert ([line] + ls)[1..] == ls;
  }

  lemma {:induction false} LinesOfText(ls: seq<string>, last: string)
    requires AllOneLine(ls) && OneLine(last)
    ensures Lines(Text(ls) + last) == Split(ls, last)
    decreases |ls|
  {
    if ls == [] {
      FirstNewline(last, []);
      assert Text(ls) + last == last;
    } else {
      var rest := Text(ls[1..]) + last;
      var s := ls[0] + "\n" + rest;
      assert Text(ls) + last == s;
      FirstNewline(ls[0], rest);
      assert s[..|ls[0]|] == ls[0] && s[|ls[0]| + 1..] == rest;
      LinesOfText(ls[1..], last);
    }
  }

  lemma {:induction false} TextOfLines(s: string)
    ensures var r := Lines(s); AllOneLine(r.full) && OneLine(r.last) && Text(r.full) + r.last == s
    decreases |s|
  {
    hide Index, At, Text;
    match Index(s, "\n", 0) {
      case None => NoNewline(s); TextNone(s);
      case Some(k) =>
        BeforeNewline(s, k);
        TextOfLines(s[k + 1..]);
        var r := Lines(s[k + 1..]);
        TextCons(s[..k], r.full, r.last);
    }
  }

  // ---- where a marker is among lines ------------------------------------------------------------

  /** A pattern within one line that no earlier line has is found in the first line that has it. */
  lemma {:induction false} FirstInLines(ls: seq<string>, r: string, tail: string, pat: string, j: nat)
    requires AllOneLine(ls) && OneLine(pat) && pat != []
    requires (forall i :: 0 <= i < |ls| ==> !Has(ls[i], pat)) && Index(r, pat, 0) == Some(j)
    ensures Index(Text(ls) + (r + tail), pat, 0) == Some(|Text(ls)| + j)
    decreases |ls|
  {
    hide Index;
    var s := Text(ls) + (r + tail);
    var at := |Text(ls)| + j;
    if ls == [] {
      assert s == r + tail;
      forall i: nat | i < j
        ensures !At(s, i, pat)
      {
        if At(s, i, pat) {
          assert At(r, i, pat);
          IndexNoEarlier(r, pat, 0, i);
        }
      }
    } else {
      var line, rest := ls[0], Text(ls[1..]) + (r + tail);
      FirstInLines(ls[1..], r, tail, pat, j);
      assert s == line + "\n" + rest;
      forall i: nat | i < at
        ensures !At(s, i, pat)
      {
        if At(s, i, pat) {
          PastLine(line, rest, pat, i);
          IndexNoEarlier(rest, pat, 0, i - |line| - 1);
        }
      }
    }
    assert At(s, at, pat) by { TextTail(ls, r, tail, pat, j); }
    IndexIs(s, pat, 0, at);
  }

  lemma TextTail(ls: seq<string>, r: string, tail: string, pat: string, j: nat)
    requires At(r, j, pat)
    ensures At(Text(ls) + (r + tail), |Text(ls)| + j, pat)
  {
    var s := Text(ls) + (r + tail);
    assert s[|Text(ls)| + j..|Text(ls)| + j + |pat|] == r[j..j + |pat|];
  }

  /** A pattern without newline is not in a line that lacks it, nor across its end. */
  lemma PastLine(line: string, rest: string, pat: string, i: nat)
    requires OneLine(line) && OneLine(pat) && pat != [] && !Has(line, pat)
    requires At(line + "\n" + rest, i, pat)
    ensures |line| < i && At(rest, i - |line| - 1, pat)
  {
    hide Index;
    var s := line + "\n" + rest;
    assert forall j :: i <= j < i + |pat| ==> s[j] == pat[j - i];
    assert s[|line|] == '\n';
    assert !(i <= |line| < i + |pat|);
    if i + |pat| <= |line| {
      assert At(line, i, pat);
      IndexNoEarlier(line, pat, 0, i);
    } else {
      assert rest[i - |line| - 1..i - |line| - 1 + |pat|] == s[i..i + |pat|];
    }
  }

  // ---- rows ---------------------------------------------------------------------------------------

  /** The name of a table row: a bar, then the name in backticks, then a bar. */
  function RowName(line: string): Option<string> {
    if !At(line, 0, "| `") then None
    else match Index(line, "`", 3)
      case None => None
      case Some(k) => if k > 3 && At(line, k, "` |") then Some(line[3..k]) else None
  }

  /** Row texts by name; a later row replaces an earlier one of the same name. */
  function Rows(ls: seq<string>): map<string, string> {
    if ls == [] then map[]
    else
      var m, line := Rows(ls[..|ls| - 1]), ls[|ls| - 1];
      match RowName(line)
      case None => m
      case Some(n) => m[n := line]
  }

  predicate Covers(rows: map<string, string>, names: seq<string>) {
    (forall n :: n in names ==> n in rows) && (forall n :: n in rows ==> n in names)
  }

  /** The row texts in the order of the names. */
  function Body(names: seq<string>, rows: map<string, string>): (ls: seq<string>)
    requires forall n :: n in names ==> n in rows
    ensures |ls| == |names| && forall i :: 0 <= i < |names| ==> ls[i] == rows[names[i]]
  {
    seq(|names|, i requires 0 <= i < |names| => assert names[i] in names; rows[names[i]])
  }

  function Table(names: seq<string>, rows: map<string, string>): seq<string>
    requires forall n :: n in names ==> n in rows
  {
    [Begin(), Titles(), Rule()] + if names == [] then [""] else Body(names, rows)
  }

  function Generated(names: seq<string>, rows: map<string, string>): string
    requires forall n :: n in names ==> n in rows
  {
    Text(Table(names, rows)) + End()
  }

  // ---- the run ----------------------------------------------------------------------------------------

  /** The document with its markers found: what is before, the block, and what is after. */
  datatype Parsed = NoBlock | Block(before: string, block: string, after: string)

  function Parse(doc: string): Parsed {
    match Index(doc, Begin(), 0)
    case None => NoBlock
    case Some(start) =>
      match Index(doc, End(), start)
      case None => NoBlock
      case Some(e) => Block(doc[..start], doc[start..e + |End()|], doc[e + |End()|..])
  }

  function RowsOf(block: string): map<string, string> {
    var ls := Lines(block);
    Rows(ls.full + [ls.last])
  }

  datatype Outcome = NoMarkers | Mismatch | Unchanged | Drift | Written(doc: string)

  function Run(check: bool, names: seq<string>, doc: string): Outcome {
    match Parse(doc)
    case NoBlock => NoMarkers
    case Block(before, block, after) =>
      var rows := RowsOf(block);
      if !Covers(rows, names) then Mismatch
      else
        var updated := before + (Generated(names, rows) + after);
        if updated == doc then Unchanged else if check then Drift else Written(updated)
  }

  // ---- the rows of a generated block are the rows it was made from -------------------------------------

  lemma {:induction false} RowsFrom(ls: seq<string>, n: string)
    requires n in Rows(ls)
    ensures Rows(ls)[n] in ls && RowName(Rows(ls)[n]) == Some(n)
    decreases |ls|
  {
    hide RowName;
    var k := |ls| - 1;
    if RowName(ls[k]) != Some(n) { RowsFrom(ls[..k], n); }
  }

  lemma RowsSkip(ls: seq<string>, line: string)
    ensures Rows(ls + [line]) == match RowName(line) case None => Rows(ls) case Some(n) => Rows(ls)[n := line]
  {
    hide RowName;
    assert (ls + [line])[..|ls + [line]| - 1] == ls;
  }

  predicate NoRows(ls: seq<string>) {
    forall i :: 0 <= i < |ls| ==> RowName(ls[i]) == None
  }

  lemma {:induction false} RowsOfPlain(ls: seq<string>)
    requires NoRows(ls)
    ensures Rows(ls) == map[]
    decreases |ls|
  {
    hide RowName;
    if ls != [] { RowsOfPlain(ls[..|ls| - 1]); }
  }

  /** Lines that are the rows of `names`, behind lines that are none, give the rows back. */
  lemma {:induction false} RowsOfBody(plain: seq<string>, names: seq<string>, rows: map<string, string>)
    requires NoRows(plain) && forall n :: n in names ==> n in rows
    requires forall n :: n in rows ==> RowName(rows[n]) == Some(n)
    ensures var m := Rows(plain + Body(names, rows));
      m.Keys == (set n | n in names) && forall n :: n in m ==> m[n] == rows[n]
    decreases |names|
  {
    hide RowName, Rows;
    if names == [] {
      assert plain + Body(names, rows) == plain;
      RowsOfPlain(plain);
    } else {
      var k := |names| - 1;
      var front := names[..k];
      RowsOfBody(plain, front, rows);
      assert plain + Body(names, rows) == (plain + Body(front, rows)) + [rows[names[k]]];
      RowsSkip(plain + Body(front, rows), rows[names[k]]);
      assert names == front + [names[k]];
    }
  }

  lemma HeadIsPlain()
    ensures NoRows([Begin(), Titles(), Rule()]) && NoRows([Begin(), Titles(), Rule(), ""]) && RowName(End()) == None
  {
    hide Begin, End, Titles, Rule, RowName;
    NotARow(Begin(), 0);
    NotARow(End(), 0);
    NotARow(Titles(), 2);
    NotARow(Rule(), 2);
    EmptyIsNoRow();
  }

  lemma EmptyIsNoRow()
    ensures RowName("") == None
  {
  }

  lemma NotARow(line: string, k: nat)
    requires k < 3 && k < |line| && line[k] != "| `"[k]
    ensures RowName(line) == None
  {
  }

  lemma SameMap(m: map<string, string>, rows: map<string, string>, names: seq<string>)
    requires m.Keys == (set n | n in names) && Covers(rows, names) && forall n :: n in m ==> m[n] == rows[n]
    ensures m == rows
  {
    assert forall n :: n in m.Keys <==> n in rows;
  }

  /** Reading a generated block gives back the rows it was generated from. */
  lemma RowsOfGenerated(names: seq<string>, rows: map<string, string>)
    requires Covers(rows, names) && forall n :: n in rows ==> RowName(rows[n]) == Some(n)
    ensures Rows(Table(names, rows) + [End()]) == rows
  {
    hide RowName, Rows;
    var head := [Begin(), Titles(), Rule()];
    var t := Table(names, rows);
    HeadIsPlain();
    RowsSkip(t, End());
    if names == [] {
      assert t == [Begin(), Titles(), Rule(), ""];
      RowsOfPlain(t);
      assert rows == map[];
    } else {
      RowsOfBody(head, names, rows);
      SameMap(Rows(t), rows, names);
    }
  }

  // ---- what parsing a document says about its block -------------------------------------------------------

  /** A block ends with its only end marker: no full line has one, and the last line has it at its end. */
  lemma {:induction false} LinesLack(ls: seq<string>, last: string, pat: string)
    requires AllOneLine(ls) && OneLine(last) && OneLine(pat) && pat != []
    requires var s := Text(ls) + last; |pat| <= |s| && Index(s, pat, 0) == Some(|s| - |pat|)
    ensures forall i :: 0 <= i < |ls| ==> !Has(ls[i], pat)
    ensures |pat| <= |last| && Index(last, pat, 0) == Some(|last| - |pat|)
    decreases |ls|
  {
    hide Index;
    var s := Text(ls) + last;
    if ls == [] {
      assert s == last;
    } else {
      var line, rest := ls[0], Text(ls[1..]) + last;
      assert s == line + "\n" + rest;
      LineLacks(line, rest, pat);
      LinesLack(ls[1..], last, pat);
      forall i | 0 <= i < |ls|
        ensures !Has(ls[i], pat)
      {
        if i > 0 { assert ls[i] == ls[1..][i - 1]; }
      }
    }
  }

  lemma LineLacks(line: string, rest: string, pat: string)
    requires OneLine(line) && OneLine(pat) && pat != []
    requires var s := line + "\n" + rest; |pat| <= |s| && Index(s, pat, 0) == Some(|s| - |pat|)
    ensures !Has(line, pat) && |pat| <= |rest| && Index(rest, pat, 0) == Some(|rest| - |pat|)
  {
    hide Index;
    var s := line + "\n" + rest;
    var e := |s| - |pat|;
    if Has(line, pat) {
      var j := Index(line, pat, 0).value;
      assert At(s, j, pat);
      IndexNoEarlier(s, pat, 0, j);
    }
    PastLine(line, rest, pat, e);
    forall i: nat | i < |rest| - |pat|
      ensures !At(rest, i, pat)
    {
      if At(rest, i, pat) {
        assert At(s, |line| + 1 + i, pat);
        IndexNoEarlier(s, pat, 0, |line| + 1 + i);
      }
    }
    IndexIs(rest, pat, 0, |rest| - |pat|);
  }

  lemma BlockIs(doc: string, pat: string, start: nat, e: nat)
    requires Index(doc, pat, start) == Some(e)
    ensures var block := doc[start..e + |pat|]; Index(block, pat, 0) == Some(|block| - |pat|)
  {
    hide Index;
    var block := doc[start..e + |pat|];
    assert At(block, e - start, pat);
    forall i: nat | i < e - start
      ensures !At(block, i, pat)
    {
      if At(block, i, pat) {
        assert doc[start + i..start + i + |pat|] == block[i..i + |pat|];
        IndexNoEarlier(doc, pat, start, start + i);
      }
    }
    IndexIs(block, pat, 0, e - start);
  }

  lemma ParseIs(doc: string)
    requires Parse(doc).Block?
    ensures var p := Parse(doc);
      doc == p.before + (p.block + p.after) && |End()| <= |p.block|
      && Index(doc, Begin(), 0) == Some(|p.before|) && Index(p.block, End(), 0) == Some(|p.block| - |End()|)
  {
    hide Index, Begin, End, At;
    var start := Index(doc, Begin(), 0).value;
    var e := Index(doc, End(), start).value;
    assert e + |End()| <= |doc| by { AtFits(doc, e, End()); }
    BlockIs(doc, End(), start, e);
    ThreeParts(doc, start, e + |End()|);
  }

  lemma AtFits(s: string, k: nat, pat: string)
    requires At(s, k, pat)
    ensures k + |pat| <= |s|
  {
  }

  lemma ThreeParts(s: string, i: nat, j: nat)
    requires i <= j <= |s|
    ensures s == s[..i] + (s[i..j] + s[j..])
  {
  }

  lemma AtChar(s: string, k: nat, pat: string, j: nat)
    requires At(s, k, pat) && j < |pat|
    ensures s[k + j] == pat[j]
  {
  }

  lemma LacksFirst(s: string, pat: string)
    requires pat != [] && pat[0] !in s
    ensures !Has(s, pat)
  {
    hide Index;
    if Has(s, pat) {
      AtChar(s, Index(s, pat, 0).value, pat, 0);
    }
  }

  lemma NoneAt(s: string, pat: string, k: nat)
    requires (pat != [] && k < |s| && s[k] != pat[0]) || (28 < |pat| && k + 28 < |s| && s[k + 28] != pat[28])
    ensures !At(s, k, pat)
  {
    if At(s, k, pat) {
      AtChar(s, k, pat, if s[k] != pat[0] then 0 else 28);
    }
  }

  lemma MarkersDiffer(s: string, pat: string)
    requires |s| == 37 && |pat| == 35 && s[1] != pat[0] && s[2] != pat[0] && s[28] != pat[28]
    ensures !Has(s, pat)
  {
    hide Index;
    NoneAt(s, pat, 0);
    NoneAt(s, pat, 1);
    NoneAt(s, pat, 2);
  }

  /** The markers and the header of a generated block hold no end marker. */
  lemma HeadLacksEnd()
    ensures !Has(Begin(), End()) && !Has(Titles(), End()) && !Has(Rule(), End()) && !Has("", End())
  {
    hide Index, Begin, End, Titles, Rule;
    LacksFirst(Titles(), End());
    LacksFirst(Rule(), End());
    LacksFirst("", End());
    MarkersDiffer(Begin(), End());
  }

  // ---- running twice --------------------------------------------------------------------------------------

  /** Rows of a block are whole lines of it, and only the last line can hold the end marker. */
  lemma BlockRows(block: string, n: string)
    requires |End()| <= |block| && Index(block, End(), 0) == Some(|block| - |End()|) && n in RowsOf(block)
    ensures var row := RowsOf(block)[n]; var last := Lines(block).last;
      row in Lines(block).full + [last] && OneLine(row) && RowName(row) == Some(n) && (Has(row, End()) ==> row == last)
      && |End()| <= |last| && Index(last, End(), 0) == Some(|last| - |End()|)
  {
    hide Index, End, RowName, Rows, Lines, Text;
    var ls := Lines(block);
    TextOfLines(block);
    LinesLack(ls.full, ls.last, End());
    RowsFrom(ls.full + [ls.last], n);
  }

  /** Nothing before the block can become an earlier begin marker. */
  lemma BeginStays(before: string, block: string, gen: string, mark: string)
    requires mark != [] && Index(before + block, mark, 0) == Some(|before|) && mark <= gen
    ensures Index(before + gen, mark, 0) == Some(|before|)
  {
    hide Index;
    var doc, d := before + block, before + gen;
    assert d[|before|..|before| + |mark|] == mark;
    forall i: nat | i < |before|
      ensures !At(d, i, mark)
    {
      if At(d, i, mark) {
        assert doc[|before|..|before| + |mark|] == mark;
        assert doc[i..i + |mark|] == d[i..i + |mark|] by {
          assert doc[..|before| + |mark|] == d[..|before| + |mark|];
        }
        IndexNoEarlier(doc, mark, 0, i);
      }
    }
    IndexIs(d, mark, 0, |before|);
  }

  lemma AtShift(pre: string, s: string, pat: string, i: nat)
    ensures At(pre + s, |pre| + i, pat) <==> At(s, i, pat)
  {
    if i + |pat| <= |s| {
      assert (pre + s)[|pre| + i..|pre| + i + |pat|] == s[i..i + |pat|];
    }
  }

  lemma {:induction false} IndexShift(pre: string, s: string, pat: string, from: nat)
    requires Index(s, pat, from).Some?
    ensures Index(pre + s, pat, |pre| + from) == Some(|pre| + Index(s, pat, from).value)
    decreases |s| - from
  {
    AtShift(pre, s, pat, from);
    if !At(s, from, pat) { IndexShift(pre, s, pat, from + 1); }
  }

  /** Parsing a rewritten document finds the block where it was, up to the first end marker of the new text. */
  lemma Reparse(before: string, block: string, gen: string, k: nat)
    requires Index(before + block, Begin(), 0) == Some(|before|) && Begin() <= gen && Index(gen, End(), 0) == Some(k)
    ensures Parse(before + gen) == Block(before, gen[..k + |End()|], gen[k + |End()|..])
  {
    hide Index, Begin, End;
    var d := before + gen;
    BeginStays(before, block, gen, Begin());
    IndexShift(before, gen, End(), 0);
    assert d[..|before|] == before;
    assert d[|before|..|before| + k + |End()|] == gen[..k + |End()|];
    assert d[|before| + k + |End()|..] == gen[k + |End()|..];
  }

  lemma TableHead(names: seq<string>, rows: map<string, string>, after: string)
    requires forall n :: n in names ==> n in rows
    ensures Begin() <= Generated(names, rows) + after
  {
    hide Begin, End;
    assert Table(names, rows)[0] == Begin();
  }

  /** In a generated block whose rows hold no end marker the only one is at its end. */
  lemma GeneratedEnd(names: seq<string>, rows: map<string, string>, after: string)
    requires forall n :: n in names ==> n in rows && OneLine(rows[n]) && !Has(rows[n], End())
    ensures AllOneLine(Table(names, rows))
    ensures Index(Generated(names, rows) + after, End(), 0) == Some(|Text(Table(names, rows))|)
  {
    hide Index, Begin, End, Titles, Rule, Text;
    var t := Table(names, rows);
    HeadLacksEnd();
    assert forall i :: 0 <= i < |names| ==> names[i] in names;
    EndItself();
    FirstInLines(t, End(), after, End(), 0);
    assert Generated(names, rows) + after == Text(t) + (End() + after);
  }

  lemma EndItself()
    ensures Index(End(), End(), 0) == Some(0)
  {
    hide End;
    assert At(End(), 0, End());
  }

  /** The block's last line is a row: the end marker shares a line with it. */
  predicate EndsInRow(doc: string) {
    Parse(doc).Block? && RowName(Lines(Parse(doc).block).last).Some?
  }

  lemma WrittenShape(names: seq<string>, doc: string)
    requires Run(false, names, doc).Written?
    ensures Parse(doc).Block? && Covers(RowsOf(Parse(doc).block), names)
    ensures var p := Parse(doc);
      Run(false, names, doc).doc == p.before + (Generated(names, RowsOf(p.block)) + p.after)
      && doc == p.before + (p.block + p.after)
  {
    hide RowsOf, Generated, Parse;
    ParseIs(doc);
  }

  /** What parsing the written document again gives, when no row holds the end marker. */
  lemma WrittenParses(names: seq<string>, doc: string)
    requires Run(false, names, doc).Written? && !EndsInRow(doc)
    ensures var p := Parse(doc); Parse(doc).Block? && Covers(RowsOf(p.block), names)
    ensures var p := Parse(doc); var rows := RowsOf(p.block); var text := Generated(names, rows);
      Run(false, names, doc).doc == p.before + (text + p.after)
      && Parse(Run(false, names, doc).doc) == Block(p.before, text, p.after)
      && Lines(text) == Split(Table(names, rows), End()) && RowsOf(text) == rows
  {
    hide Index, Begin, End, Rows, Lines, Text, RowName, Parse, Table;
    WrittenShape(names, doc);
    ParseIs(doc);
    var p := Parse(doc);
    var rows := RowsOf(p.block);
    forall n | n in rows
      ensures OneLine(rows[n]) && !Has(rows[n], End()) && RowName(rows[n]) == Some(n)
    {
      BlockRows(p.block, n);
    }
    var t, gen := Table(names, rows), Generated(names, rows);
    GeneratedEnd(names, rows, p.after);
    TableHead(names, rows, p.after);
    Reparse(p.before, p.block + p.after, gen + p.after, |Text(t)|);
    assert (gen + p.after)[..|Text(t)| + |End()|] == gen && (gen + p.after)[|Text(t)| + |End()|..] == p.after;
    LinesOfText(t, End());
    RowsOfGenerated(names, rows);
  }

  /** The document that a run writes, read again: the text outside the markers is as it was, every row has kept its
      text, and the block is its header, one row per name in the order of the names, and the end marker on its own
      line. */
  lemma WrittenIs(names: seq<string>, doc: string)
    requires Run(false, names, doc).Written? && !EndsInRow(doc)
    ensures Parse(doc).Block? && Parse(Run(false, names, doc).doc).Block?
    ensures var p, q := Parse(doc), Parse(Run(false, names, doc).doc); var full := Lines(q.block).full;
      q.before == p.before && q.after == p.after && RowsOf(q.block) == RowsOf(p.block) && Lines(q.block).last == End()
      && |full| >= 3 && full[..3] == [Begin(), Titles(), Rule()]
      && (if names == [] then full[3..] == [""] else |full| == 3 + |names|)
      && forall i :: 0 <= i < |names| ==> names[i] in RowsOf(p.block) && full[3 + i] == RowsOf(p.block)[names[i]]
  {
    hide Index, Begin, End, Titles, Rule, Rows, Lines, Text, RowName, Parse, Run, EndsInRow;
    WrittenParses(names, doc);
    forall i | 0 <= i < |names| ensures names[i] in RowsOf(Parse(doc).block) { assert names[i] in names; }
  }

  lemma SecondRun(names: seq<string>, doc: string)
    requires Run(false, names, doc).Written? && !EndsInRow(doc)
    ensures forall check :: Run(check, names, Run(false, names, doc).doc) == Unchanged
  {
    hide RowsOf, Lines, Parse, Table, Generated, EndsInRow;
    WrittenParses(names, doc);
  }

  lemma {:induction false} TextSplit(ls: seq<string>, r: string, more: seq<string>)
    ensures Text(ls + [r] + more) == Text(ls) + (r + ("\n" + Text(more)))
    decreases |ls|
  {
    if ls == [] {
      assert ls + [r] + more == [r] + more;
      assert ([r] + more)[1..] == more;
    } else {
      assert (ls + [r] + more)[1..] == ls[1..] + [r] + more;
      TextSplit(ls[1..], r, more);
    }
  }

  /** A generated block ends with the end marker on a line of its own. */
  lemma {:induction false} TextEndsLine(ls: seq<string>)
    requires ls != []
    ensures Text(ls) != [] && Text(ls)[|Text(ls)| - 1] == '\n'
    decreases |ls|
  {
    if |ls| == 1 {
      assert Text(ls) == ls[0] + "\n";
    } else {
      TextEndsLine(ls[1..]);
    }
  }

  lemma RowIsNotEnd(line: string)
    requires |End()| <= |line| && RowName(line).Some? && Index(line, End(), 0) == Some(|line| - |End()|)
    ensures |line| > |End()|
  {
    hide Index, End;
    AtChar(line, |line| - |End()|, End(), 0);
    AtChar(line, 0, "| `", 0);
  }

  /** The first row, in the order of the names, that holds the end marker. */
  lemma {:induction false} FirstWithEnd(names: seq<string>, rows: map<string, string>, n: string) returns (i: nat)
    requires n in names && forall m :: m in names ==> m in rows
    requires Has(rows[n], End())
    ensures i < |names| && names[i] in rows && Has(rows[names[i]], End())
    ensures forall k :: 0 <= k < i ==> names[k] in rows && !Has(rows[names[k]], End())
  {
    hide Index, End;
    i := 0;
    while !Has(rows[names[i]], End())
      invariant i < |names| && n in names[i..]
      invariant forall k :: 0 <= k < i ==> names[k] in rows && !Has(rows[names[k]], End())
      decreases |names| - i
    {
      i := i + 1;
    }
  }

  /** When the end marker ends a row, the rewritten document's block is cut behind the first copy of that row. */
  lemma EndInRow(names: seq<string>, rows: map<string, string>, last: string, after: string, i: nat) returns (k: nat)
    requires forall n :: n in names ==> n in rows && OneLine(rows[n])
    requires i < |names| && names[i] in rows && rows[names[i]] == last && OneLine(last)
    requires |last| > |End()| && Index(last, End(), 0) == Some(|last| - |End()|)
    requires forall m :: 0 <= m < i ==> names[m] in rows && !Has(rows[names[m]], End())
    ensures 3 + i < |Table(names, rows)|
    ensures var g := Generated(names, rows) + after; var ls := Table(names, rows)[..3 + i];
      Index(g, End(), 0) == Some(k) && 0 < k && k + |End()| <= |g| && g[k - 1] != '\n'
      && g[..k + |End()|] == Text(ls) + last && AllOneLine(ls)
  {
    hide Index, Begin, End, Titles, Rule, Text;
    var t := Table(names, rows);
    var ls, more := t[..3 + i], t[4 + i..];
    assert t == ls + [last] + more;
    TextSplit(ls, last, more);
    var tail := "\n" + Text(more) + (End() + after);
    var g := Generated(names, rows) + after;
    assert g == Text(ls) + (last + tail);
    HeadLacksEnd();
    assert forall m :: 0 <= m < |names| ==> names[m] in names;
    FirstInLines(ls, last, tail, End(), |last| - |End()|);
    k := |Text(ls)| + |last| - |End()|;
    assert g[k - 1] == last[|last| - |End()| - 1];
    assert g[..k + |End()|] == Text(ls) + last;
  }

  lemma CutTable(names: seq<string>, rows: map<string, string>, i: nat)
    requires i < |names| && forall n :: n in names ==> n in rows
    ensures forall n :: n in names[..i + 1] ==> n in rows
    ensures names[i] in rows && 3 + i < |Table(names, rows)|
    ensures Table(names, rows)[..3 + i] + [rows[names[i]]] == [Begin(), Titles(), Rule()] + Body(names[..i + 1], rows)
  {
    hide Begin, Titles, Rule;
    var front := names[..i + 1];
    assert forall n :: n in front ==> n in names;
    assert Body(front, rows) == Body(names, rows)[..i] + [rows[names[i]]];
  }

  /** The rows of the cut block are those of the names up to there. */
  lemma CutRows(names: seq<string>, rows: map<string, string>, i: nat)
    requires i < |names| && forall n :: n in names ==> n in rows
    requires forall n :: n in rows ==> RowName(rows[n]) == Some(n)
    ensures names[i] in rows && 3 + i < |Table(names, rows)|
    ensures var m := Rows(Table(names, rows)[..3 + i] + [rows[names[i]]]); forall n :: n in m <==> n in names[..i + 1]
  {
    hide RowName, Rows, Begin, Titles, Rule, Table, Body;
    CutTable(names, rows, i);
    HeadIsPlain();
    RowsOfBody([Begin(), Titles(), Rule()], names[..i + 1], rows);
  }

  /** The name of the row that holds the end marker. */
  function EndName(doc: string): string
    requires EndsInRow(doc)
  {
    RowName(Lines(Parse(doc).block).last).value
  }

  /** No name of the table comes after that row for the first time. */
  predicate NoneAfter(names: seq<string>, n: string) {
    forall i :: 0 <= i < |names| && names[i] == n && n !in names[..i] ==> forall m :: m in names ==> m in names[..i + 1]
  }

  /** The shape of the next run: where the block is cut, and which rows are left. */
  lemma CutAt(names: seq<string>, doc: string) returns (i: nat, k: nat)
    requires Run(false, names, doc).Written? && EndsInRow(doc)
    ensures var d := Run(false, names, doc).doc; var p, q := Parse(doc), Parse(d);
      q.Block? && EndsInRow(d) && Lines(q.block).last == Lines(p.block).last
      && d == q.before + (q.block + q.after) && 0 < k && k + |End()| == |q.block| && q.block[k - 1] != '\n'
    ensures i < |names| && names[i] == EndName(doc) && EndName(doc) !in names[..i]
    ensures var rows := RowsOf(Parse(Run(false, names, doc).doc).block); forall n :: n in rows <==> n in names[..i + 1]
  {
    hide Index, Begin, End, Rows, Lines, Text, RowName, Parse, Table, Generated;
    WrittenShape(names, doc);
    ParseIs(doc);
    var p := Parse(doc);
    var rows, last := RowsOf(p.block), Lines(p.block).last;
    var n := RowName(last).value;
    RowsSkip(Lines(p.block).full, last);
    forall m | m in rows
      ensures OneLine(rows[m]) && RowName(rows[m]) == Some(m) && (Has(rows[m], End()) ==> rows[m] == last)
    {
      BlockRows(p.block, m);
    }
    BlockRows(p.block, n);
    RowIsNotEnd(last);
    i := FirstWithEnd(names, rows, n);
    k := EndInRow(names, rows, last, p.after, i);
    var g, ls := Generated(names, rows) + p.after, Table(names, rows)[..3 + i];
    TableHead(names, rows, p.after);
    Reparse(p.before, p.block + p.after, g, k);
    LinesOfText(ls, last);
    CutRows(names, rows, i);
    assert RowsOf(g[..k + |End()|]) == Rows(ls + [rows[names[i]]]);
    assert g == g[..k + |End()|] + g[k + |End()|..];
  }

  /**
   * When a row holds the end marker, what the run writes has its block cut behind that row. If every name of the table
   * comes by then, the next run finds the same rows and something to change again, and its document is of the same
   * kind; if not, the next run ends in a mismatch.
   */
  lemma NextRun(names: seq<string>, doc: string, check: bool)
    requires Run(false, names, doc).Written? && EndsInRow(doc)
    ensures var d := Run(false, names, doc).doc;
      EndsInRow(d) && EndName(d) == EndName(doc)
      && (if !NoneAfter(names, EndName(doc)) then Run(check, names, d) == Mismatch
          else if check then Run(check, names, d) == Drift else Run(check, names, d).Written?)
  {
    hide Index, Begin, End, Rows, Lines, Text, RowName, Parse, Table, Generated, EndsInRow;
    var i, k := CutAt(names, doc);
    var d := Run(false, names, doc).doc;
    var q := Parse(d);
    CutCovers(names, RowsOf(q.block), EndName(doc), i);
    assert q.block + q.after == (q.block + q.after)[..k + |End()|] + q.after;
    if Run(check, names, d) == Unchanged {
      assert (q.block + q.after)[..k + |End()|] == q.block && (q.block + q.after)[k + |End()|..] == q.after;
      Settled(names, q.before, q.block + q.after, k);
    }
    SameEnd(doc, d);
  }

  lemma SameEnd(doc: string, d: string)
    requires EndsInRow(doc) && Parse(d).Block? && Lines(Parse(d).block).last == Lines(Parse(doc).block).last
    ensures EndsInRow(d) && EndName(d) == EndName(doc)
  {
    hide Parse, Lines, RowName;
  }

  lemma CutCovers(names: seq<string>, rows: map<string, string>, n: string, i: nat)
    requires i < |names| && names[i] == n && n !in names[..i] && forall m :: m in rows <==> m in names[..i + 1]
    ensures Covers(rows, names) <==> NoneAfter(names, n)
  {
    assert forall m :: m in names[..i + 1] ==> m in names;
    assert forall j :: 0 <= j < i ==> names[..i][j] == names[j];
    assert forall j :: i < j < |names| ==> names[..j][i] == n;
  }

  /** The first k runs all write. */
  ghost predicate KeepsWriting(names: seq<string>, doc: string, k: nat)
    decreases k
  {
    k == 0 || (Run(false, names, doc).Written? && KeepsWriting(names, Run(false, names, doc).doc, k - 1))
  }

  /** In the first case no number of runs ever settles the document. */
  lemma {:induction false} NeverSettles(names: seq<string>, doc: string, k: nat)
    requires Run(false, names, doc).Written? && EndsInRow(doc) && NoneAfter(names, EndName(doc))
    ensures KeepsWriting(names, doc, k)
    decreases k
  {
    hide Run, EndsInRow, EndName, NoneAfter;
    if k > 0 {
      NextRun(names, doc, false);
      NeverSettles(names, Run(false, names, doc).doc, k - 1);
    }
  }

  /** A document that a run leaves alone has its end marker on a line of its own. */
  lemma Settled(names: seq<string>, before: string, g: string, k: nat)
    requires k + |End()| <= |g| && Parse(before + g) == Block(before, g[..k + |End()|], g[k + |End()|..])
    requires Run(false, names, before + g) == Unchanged || Run(true, names, before + g) == Unchanged
    ensures 0 < k && g[k - 1] == '\n'
  {
    hide Parse, RowsOf, End, Table, Text;
    var block, after := g[..k + |End()|], g[k + |End()|..];
    var rows := RowsOf(block);
    var text := Text(Table(names, rows));
    assert before + (text + End() + after) == before + g;
    Cancel(before, text + End() + after, g);
    assert |text| == k;
    assert g[k - 1] == (text + End() + after)[k - 1] by { TableNotEmpty(names, rows); }
    TableNotEmpty(names, rows);
  }

  lemma Cancel(a: string, b: string, c: string)
    requires a + b == a + c
    ensures b == c
  {
    assert b == (a + b)[|a|..] && c == (a + c)[|a|..];
  }

  lemma TableNotEmpty(names: seq<string>, rows: map<string, string>)
    requires forall n :: n in names ==> n in rows
    ensures var text := Text(Table(names, rows)); text != [] && text[|text| - 1] == '\n'
  {
    TextEndsLine(Table(names, rows));
  }

  // ---- documents whose end marker shares a line with a row --------------------------------------

  predicate NameOk(n: string) {
    n != [] && '`' !in n && '\n' !in n && '<' !in n
  }

  function Row(n: string): string {
    "| `" + n + "` |"
  }

  /** The begin marker, a row each for `others`, and the row of `a` with the end marker behind it. */
  function SharedLines(others: seq<string>): seq<string> {
    [Begin()] + seq(|others|, i requires 0 <= i < |others| => Row(others[i]))
  }

  function SharedDoc(others: seq<string>, a: string): string {
    Text(SharedLines(others)) + (Row(a) + End())
  }

  lemma RowNamed(n: string, rest: string)
    requires NameOk(n)
    ensures RowName(Row(n) + rest) == Some(n) && OneLine(Row(n)) && !Has(Row(n), End())
  {
    hide Index, End;
    var line, k := Row(n) + rest, 3 + |n|;
    assert line[..3] == "| `" && line[k..k + 3] == "` |" && line[3..k] == n;
    forall i: nat | 3 <= i < k ensures !At(line, i, "`") { assert line[i] == n[i - 3]; }
    assert line[k..k + 1] == "`";
    IndexIs(line, "`", 3, k);
    LacksFirst(Row(n), End());
  }

  lemma EndBehind(r: string)
    requires '<' !in r
    ensures Index(r + End(), End(), 0) == Some(|r|)
  {
    hide Index, End;
    var s := r + End();
    assert s[|r|..] == End();
    forall i: nat | i < |r| ensures !At(s, i, End()) {
      assert s[i] == r[i];
    }
    IndexIs(s, End(), 0, |r|);
  }

  lemma SharedParses(others: seq<string>, a: string)
    requires NameOk(a) && forall n :: n in others ==> NameOk(n)
    ensures var ls, last := SharedLines(others), Row(a) + End();
      Parse(SharedDoc(others, a)) == Block("", SharedDoc(others, a), "")
      && Lines(SharedDoc(others, a)) == Split(ls, last)
  {
    hide Index, Begin, End, Text, Lines, RowName, Has;
    var ls, last := SharedLines(others), Row(a) + End();
    var doc := SharedDoc(others, a);
    HeadLacksEnd();
    forall i | 0 <= i < |ls| ensures OneLine(ls[i]) && !Has(ls[i], End()) {
      if i > 0 { RowNamed(others[i - 1], ""); }
    }
    RowNamed(a, End());
    EndBehind(Row(a));
    FirstInLines(ls, last, "", End(), |Row(a)|);
    assert last + "" == last;
    LinesOfText(ls, last);
    BeginFirst(ls, last);
    SharedWhole(doc, |Text(ls)| + |Row(a)|);
  }

  lemma BeginFirst(ls: seq<string>, last: string)
    requires ls != [] && ls[0] == Begin()
    ensures Begin() <= Text(ls) + last
  {
    hide Begin;
  }

  lemma SharedWhole(doc: string, k: nat)
    requires Begin() <= doc && Index(doc, End(), 0) == Some(k) && k + |End()| == |doc|
    ensures Parse(doc) == Block("", doc, "")
  {
    hide Begin, End, Index;
    assert doc[..|Begin()|] == Begin();
    IndexIs(doc, Begin(), 0, 0);
  }

  lemma SharedRows(others: seq<string>, a: string)
    requires NameOk(a) && a !in others && forall n :: n in others ==> NameOk(n)
    ensures forall n :: n in Rows(SharedLines(others) + [Row(a) + End()]) <==> n in others || n == a
  {
    hide RowName, Rows, Row, Begin, End, Titles, Rule;
    var names := others + [a];
    var rows := map n | n in names :: if n == a then Row(n) + End() else Row(n);
    forall n | n in rows ensures RowName(rows[n]) == Some(n) {
      RowNamed(n, if n == a then End() else "");
      assert Row(n) + "" == Row(n);
    }
    HeadIsPlain();
    assert [Begin(), Titles(), Rule()][0] == Begin();
    RowsOfBody([Begin()], names, rows);
    assert [Begin()] + Body(names, rows) == SharedLines(others) + [Row(a) + End()];
  }

  /** A run on such a document writes, whatever the order of its names. */
  lemma SharedRun(others: seq<string>, a: string, names: seq<string>)
    requires NameOk(a) && a !in others && forall n :: n in others ==> NameOk(n)
    requires forall n :: n in names <==> n in others || n == a
    ensures var doc := SharedDoc(others, a); Run(false, names, doc).Written? && EndsInRow(doc) && EndName(doc) == a
  {
    hide Index, Begin, End, Row, Rows, Lines, Text, RowName, Parse, Table, Generated, SharedLines, SharedDoc;
    SharedParses(others, a);
    SharedRows(others, a);
    RowNamed(a, End());
    var doc := SharedDoc(others, a);
    assert Covers(RowsOf(doc), names);
    SharedUnsettled(others, a, names);
  }

  lemma SharedUnsettled(others: seq<string>, a: string, names: seq<string>)
    requires var doc := SharedDoc(others, a); Parse(doc) == Block("", doc, "")
    ensures Run(false, names, SharedDoc(others, a)) != Unchanged
  {
    hide Begin, End, Text, Parse, Run, SharedLines;
    var doc := SharedDoc(others, a);
    var k := |doc| - |End()|;
    assert "" + doc == doc && doc[..k + |End()|] == doc && doc[k + |End()|..] == "";
    assert doc[k - 1] == '|';
    if Run(false, names, doc) == Unchanged { Settled(names, "", doc, k); }
  }

  /** Both outcomes occur: such a document is rewritten for ever when its last row is the table's last name to appear,
      and cannot be run again when it is not. */
  lemma SharedOutcome(others: seq<string>, a: string, names: seq<string>, k: nat)
    requires NameOk(a) && a !in others && forall n :: n in others ==> NameOk(n)
    requires forall n :: n in names <==> n in others || n == a
    ensures var doc := SharedDoc(others, a);
      if NoneAfter(names, a) then KeepsWriting(names, doc, k)
      else Run(false, names, doc).Written? && Run(false, names, Run(false, names, doc).doc) == Mismatch
  {
    hide Run, EndsInRow, EndName, NoneAfter, SharedDoc, KeepsWriting;
    SharedRun(others, a, names);
    if NoneAfter(names, a) { NeverSettles(names, SharedDoc(others, a), k); }
    else { NextRun(names, SharedDoc(others, a), false); }
  }

  /** A second run, checking or not, leaves the written document alone exactly when no row shares a line with the end
      marker. */
  lemma IdempotentIff(names: seq<string>, doc: string, check: bool)
    requires Run(false, names, doc).Written?
    ensures Run(check, names, Run(false, names, doc).doc) == Unchanged <==> !EndsInRow(doc)
  {
    hide Run, EndsInRow;
    if EndsInRow(doc) { NextRun(names, doc, check); } else { SecondRun(names, doc); }
  }
}
