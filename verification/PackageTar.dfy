/** Assembling a package: the directories of the data segment, and cutting the terminator off the control segment. */
module PackageTar {
  import opened Bytes

  // ---- the terminator -------------------------------------------------------------------------

  const BLOCK := 512

  predicate AllZero(s: seq<Byte>) {
    forall i :: 0 <= i < |s| ==> s[i] == 0
  }

  predicate EndsInZeroBlock(s: seq<Byte>) {
    |s| >= BLOCK && AllZero(s[|s| - BLOCK..])
  }

  /** Exactly the trailing zero blocks go. */
  method StripTrailer(data: seq<Byte>) returns (r: seq<Byte>)
    ensures r <= data && (|data| - |r|) % BLOCK == 0 && AllZero(data[|r|..]) && !EndsInZeroBlock(r)
  {
    var end := |data|;
    while end >= BLOCK && data[end - BLOCK..end] == Zeros(BLOCK)
      invariant 0 <= end <= |data| && (|data| - end) % BLOCK == 0 && AllZero(data[end..])
    {
      ghost var was := end;
      end := end - BLOCK;
      assert data[end..] == data[end..was] + data[was..];
    }
    r := data[..end];
    assert end >= BLOCK ==> r[end - BLOCK..] == data[end - BLOCK..end];
  }

  /** A file's content, filled up to a whole number of blocks. */
  function Padded(content: seq<Byte>): (s: seq<Byte>)
    ensures content <= s && |s| % BLOCK == 0 && |s| < |content| + BLOCK
  {
    content + Zeros((BLOCK - |content| % BLOCK) % BLOCK)
  }

  /** What can be cut from the end is settled: two cuts of the same data agree. */
  lemma CutUnique(r: seq<Byte>, s: seq<Byte>, data: seq<Byte>)
    requires r <= data && (|data| - |r|) % BLOCK == 0 && AllZero(data[|r|..]) && !EndsInZeroBlock(r)
    requires s <= data && (|data| - |s|) % BLOCK == 0 && AllZero(data[|s|..]) && !EndsInZeroBlock(s)
    ensures r == s
  {
    if |r| < |s| {
      CutShorter(r, s, data);
    } else if |s| < |r| {
      CutShorter(s, r, data);
    }
  }

  lemma CutShorter(r: seq<Byte>, s: seq<Byte>, data: seq<Byte>)
    requires r <= data && s <= data && |r| < |s| && (|s| - |r|) % BLOCK == 0 && AllZero(data[|r|..])
    ensures EndsInZeroBlock(s)
  {
    assert |s| - BLOCK >= |r|;
    forall i | |s| - BLOCK <= i < |s|
      ensures s[i] == 0
    {
      assert s[i] == data[|r|..][i - |r|];
    }
  }

  /**
   * The control segment: header blocks, the padded content, and any number of zero blocks. Stripping gives back header
   * and content exactly when the last of their blocks is not zero; a content that ends in a non-zero byte is enough.
   */
  method StripControl(header: seq<Byte>, content: seq<Byte>, k: nat) returns (r: seq<Byte>)
    requires |header| % BLOCK == 0
    ensures r == header + Padded(content) <==> !EndsInZeroBlock(header + Padded(content))
    ensures content != [] && content[|content| - 1] != 0 ==> r == header + Padded(content)
  {
    var s := header + Padded(content);
    var data := s + Zeros(k * BLOCK);
    r := StripTrailer(data);
    assert data[|s|..] == Zeros(k * BLOCK);
    BlocksDivide(k);
    if !EndsInZeroBlock(s) { CutUnique(r, s, data); }
    if content != [] && content[|content| - 1] != 0 {
      var i := |header| + |content| - 1;
      assert s[i] == content[|content| - 1];
      assert s[|s| - BLOCK..][i - (|s| - BLOCK)] == s[i];
    }
  }

  lemma BlocksDivide(k: nat)
    ensures (k * BLOCK) % BLOCK == 0
  {
  }

  // ---- names and their directories ------------------------------------------------------------------

  function SlashIn(s: string): (k: nat)
    ensures k <= |s| && '/' !in s[..k] && (k < |s| ==> s[k] == '/')
  {
    if s == [] || s[0] == '/' then 0 else 1 + SlashIn(s[1..])
  }

  function Split(s: string): (ps: seq<string>)
    ensures ps != []
    decreases |s|
  {
    var k := SlashIn(s);
    if k == |s| then [s] else [s[..k]] + Split(s[k + 1..])
  }

  function Join(ps: seq<string>): string {
    if ps == [] then [] else if |ps| == 1 then ps[0] else ps[0] + "/" + Join(ps[1..])
  }

  /** A proper ancestor: what stands before one of the slashes of the name. */
  predicate Ancestor(d: string, s: string) {
    |d| < |s| && s[|d|] == '/' && s[..|d|] == d
  }

  lemma AncestorCons(head: string, e: string, rest: string)
    ensures Ancestor(head + "/" + e, head + "/" + rest) <==> Ancestor(e, rest)
    ensures Ancestor(head, head + "/" + rest)
  {
    var d, s := head + "/" + e, head + "/" + rest;
    if |e| < |rest| {
      assert s[|d|] == rest[|e|];
      assert s[..|d|] == head + "/" + rest[..|e|];
      assert d[|head| + 1..] == e && s[..|d|][|head| + 1..] == rest[..|e|];
    }
  }

  lemma JoinCons(head: string, ps: seq<string>)
    ensures Join([head] + ps) == if ps == [] then head else head + "/" + Join(ps)
  {
    assert ([head] + ps)[1..] == ps;
  }

  /** The first part, and what follows its slash. */
  lemma SplitFirst(s: string) returns (head: string, rest: string)
    requires '/' in s
    ensures s == head + "/" + rest && '/' !in head && Split(s) == [head] + Split(rest)
  {
    var k := SlashIn(s);
    assert s[..|s|] == s;
    head, rest := s[..k], s[k + 1..];
  }

  lemma SplitWhole(s: string)
    ensures |Split(s)| == 1 <==> '/' !in s
  {
    var k := SlashIn(s);
    if k == |s| { assert s[..k] == s; }
  }

  lemma FirstParts(head: string, ps: seq<string>, i: nat)
    requires 1 <= i <= |ps| + 1
    ensures ([head] + ps)[..i] == [head] + ps[..i - 1]
  {
  }

  /** Joining the first i parts of a split name gives the ancestor before its i-th slash. */
  lemma {:induction false} JoinIsAncestor(s: string, i: nat)
    requires 1 <= i < |Split(s)|
    ensures Ancestor(Join(Split(s)[..i]), s)
    decreases |s|
  {
    hide Split, Join, Ancestor;
    SplitWhole(s);
    var head, rest := SplitFirst(s);
    FirstParts(head, Split(rest), i);
    JoinCons(head, Split(rest)[..i - 1]);
    if i > 1 { JoinIsAncestor(rest, i - 1); }
    AncestorCons(head, Join(Split(rest)[..i - 1]), rest);
  }

  /** Every ancestor is one of those. */
  lemma {:induction false} AncestorIsJoin(d: string, s: string) returns (i: nat)
    requires Ancestor(d, s)
    ensures 1 <= i < |Split(s)| && Join(Split(s)[..i]) == d
    decreases |s|
  {
    hide Split, Join;
    var head, rest := SplitFirst(s);
    if d == head {
      i := 1;
    } else {
      var e := d[|head| + 1..];
      AncestorSplit(d, head, rest);
      AncestorCons(head, e, rest);
      var j := AncestorIsJoin(e, rest);
      i := j + 1;
    }
    FirstParts(head, Split(rest), i);
    JoinCons(head, Split(rest)[..i - 1]);
  }

  lemma AncestorSplit(d: string, head: string, rest: string)
    requires Ancestor(d, head + "/" + rest) && '/' !in head && d != head
    ensures |d| > |head| && d == head + "/" + d[|head| + 1..]
  {
    var s := head + "/" + rest;
    assert s[..|head|] == head;
    assert forall i :: 0 <= i < |head| ==> s[i] == head[i];
    assert d[..|head|] == s[..|head|] && d[|head|] == s[|head|];
  }

  // ---- the data segment ---------------------------------------------------------------------------------

  function DropLeading(s: string): (r: string)
    ensures r != [] ==> r[0] != '/'
  {
    if s != [] && s[0] == '/' then DropLeading(s[1..]) else s
  }

  function DropTrailing(s: string): (r: string)
    ensures r <= s
  {
    if s != [] && s[|s| - 1] == '/' then DropTrailing(s[..|s| - 1]) else s
  }

  datatype Item = Dir(name: string) | Payload(name: string)

  /** The name a directory is looked for under: without slashes at its ends. */
  function Stem(dest: string): string {
    DropTrailing(DropLeading(dest))
  }

  function Names(items: seq<Item>): seq<string> {
    if items == [] then []
    else Names(items[..|items| - 1]) + if items[|items| - 1].Payload? then [items[|items| - 1].name] else []
  }

  predicate EachOnce(items: seq<Item>) {
    forall i, j :: 0 <= i < j < |items| && items[i].Dir? ==> items[i] != items[j]
  }

  /** Every ancestor of what stands at q stands before it. */
  ghost predicate AncestorsBefore(items: seq<Item>, q: nat)
    requires q < |items|
  {
    forall d: string :: Ancestor(d, DropTrailing(items[q].name)) ==> Dir(d) in items[..q]
  }

  ghost predicate DirsFirst(items: seq<Item>) {
    forall q: nat :: q < |items| ==> AncestorsBefore(items, q)
  }

  /** No directory is made up: each is an ancestor of some entry. */
  ghost predicate OnlyNeeded(items: seq<Item>, dests: seq<string>) {
    forall d: string :: Dir(d) in items ==> exists i :: 0 <= i < |dests| && Ancestor(d, Stem(dests[i]))
  }

  predicate InOrder(items: seq<Item>, dests: seq<string>) {
    Names(items) == seq(|dests|, i requires 0 <= i < |dests| => DropLeading(dests[i]))
  }

  /** Everything above the item is already there. */
  ghost predicate Ready(items: seq<Item>, x: Item) {
    forall d: string :: Ancestor(d, DropTrailing(x.name)) ==> Dir(d) in items
  }

  lemma AppendKeeps(items: seq<Item>, x: Item)
    requires EachOnce(items) && DirsFirst(items) && (x.Dir? ==> x !in items) && Ready(items, x)
    ensures EachOnce(items + [x]) && DirsFirst(items + [x])
    ensures Names(items + [x]) == Names(items) + if x.Payload? then [x.name] else []
  {
    hide Ancestor;
    var all := items + [x];
    assert all[..|all| - 1] == items;
    forall q: nat | q < |all|
      ensures AncestorsBefore(all, q)
    {
      if q < |items| {
        assert AncestorsBefore(items, q);
        assert all[..q] == items[..q] && all[q] == items[q];
      }
    }
  }

  lemma {:induction false} JoinGrows(ps: seq<string>, i: nat, k: nat)
    requires 1 <= i <= k <= |ps|
    ensures |Join(ps[..i])| <= |Join(ps[..k])|
    decreases i
  {
    if i > 1 {
      assert ps[..i][1..] == ps[1..][..i - 1] && ps[..k][1..] == ps[1..][..k - 1];
      JoinGrows(ps[1..], i - 1, k - 1);
    } else {
      assert ps[..1] == [ps[0]];
    }
  }

  /** The ancestors of the i-th ancestor are the earlier ones. */
  lemma EarlierAncestor(s: string, i: nat, e: string) returns (k: nat)
    requires 1 <= i < |Split(s)| && Ancestor(e, DropTrailing(Join(Split(s)[..i])))
    ensures 1 <= k < i && Join(Split(s)[..k]) == e
  {
    hide Split, Join;
    var d := Join(Split(s)[..i]);
    JoinIsAncestor(s, i);
    assert Ancestor(e, s) by {
      var t := DropTrailing(d);
      assert t <= d && t[..|e|] == s[..|e|];
    }
    k := AncestorIsJoin(e, s);
    if k >= i { JoinGrows(Split(s), i, k); }
  }

  lemma DirReady(items: seq<Item>, s: string, i: nat)
    requires 1 <= i < |Split(s)| && forall k :: 1 <= k < i ==> Dir(Join(Split(s)[..k])) in items
    ensures Ready(items, Dir(Join(Split(s)[..i])))
  {
    hide Split, Join, Ancestor, DropTrailing;
    var x := Dir(Join(Split(s)[..i]));
    forall e: string | Ancestor(e, DropTrailing(x.name))
      ensures Dir(e) in items
    {
      var k := EarlierAncestor(s, i, e);
    }
  }

  lemma AllReady(items: seq<Item>, s: string)
    requires forall k :: 1 <= k < |Split(s)| ==> Dir(Join(Split(s)[..k])) in items
    ensures forall d: string :: Ancestor(d, s) ==> Dir(d) in items
  {
    hide Split, Join, Ancestor;
    forall d: string | Ancestor(d, s)
      ensures Dir(d) in items
    {
      var k := AncestorIsJoin(d, s);
    }
  }

  /** Only ancestors of the name were added. */
  ghost predicate OnlyFrom(was: seq<Item>, items: seq<Item>, s: string) {
    forall d: string :: Dir(d) in items ==> Dir(d) in was || Ancestor(d, s)
  }

  class Archive {
    var items: seq<Item>
    var dirs: set<string>

    ghost predicate Valid()
      reads this
    {
      && (forall d :: d in dirs <==> Dir(d) in items)
      && EachOnce(items) && DirsFirst(items)
    }

    constructor ()
      ensures Valid() && items == [] && dirs == {}
    {
      items, dirs := [], {};
    }

    /** Adds the missing ancestors of one name, outermost first. */
    method EnsureDirs(name: string)
      requires Valid()
      modifies this
      ensures Valid() && old(items) <= items && Names(items) == Names(old(items))
      ensures Ready(items, Payload(name)) && OnlyFrom(old(items), items, DropTrailing(name))
    {
      hide Split, Join, Ancestor, DirsFirst, EachOnce, Ready, Names;
      var s := DropTrailing(name);
      var parts := Split(s);
      var i := 1;
      while i < |parts|
        invariant 1 <= i <= |parts| && Valid() && old(items) <= items && Names(items) == Names(old(items))
        invariant forall k :: 1 <= k < i ==> Dir(Join(parts[..k])) in items
        invariant OnlyFrom(old(items), items, s)
      {
        var d := Join(parts[..i]);
        JoinIsAncestor(s, i);
        if d !in dirs {
          DirReady(items, s, i);
          AppendKeeps(items, Dir(d));
          dirs := dirs + {d};
          items := items + [Dir(d)];
        }
        i := i + 1;
      }
      AllReady(items, s);
      ReadyIs(items, name);
    }

    /** One entry of the package: its directories, then itself. */
    method Add(dest: string)
      requires Valid()
      modifies this
      ensures Valid() && Names(items) == Names(old(items)) + [DropLeading(dest)]
      ensures OnlyFrom(old(items), items, Stem(dest))
    {
      hide Ancestor, DirsFirst, EachOnce, Ready, Names;
      var name := DropLeading(dest);
      EnsureDirs(name);
      AppendKeeps(items, Payload(name));
      items := items + [Payload(name)];
    }

    /** The whole data segment: every directory once and before what is in it, the entries in their order. */
    method Build(dests: seq<string>)
      requires Valid() && items == []
      modifies this
      ensures Valid() && InOrder(items, dests) && OnlyNeeded(items, dests)
    {
      hide Ancestor, DirsFirst, EachOnce;
      for i := 0 to |dests|
        invariant Valid() && InOrder(items, dests[..i]) && OnlyNeeded(items, dests[..i])
      {
        Add(dests[i]);
        assert dests[..i + 1] == dests[..i] + [dests[i]];
      }
      assert dests[..|dests|] == dests;
    }
  }

  lemma ReadyIs(items: seq<Item>, name: string)
    requires forall d: string :: Ancestor(d, DropTrailing(name)) ==> Dir(d) in items
    ensures Ready(items, Payload(name))
  {
  }
}
