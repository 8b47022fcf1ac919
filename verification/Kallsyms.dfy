/** The generated kernel symbol table: stable sort, name blob, offsets and the emitted binary search. */
module Kallsyms {
  import opened Basics
  import opened Bytes

  datatype Symbol = Symbol(addr: nat, kind: char, name: seq<Byte>)

  /** Names end at the first NUL of the string table, so they hold none. */
  predicate Named(syms: seq<Symbol>) {
    forall s :: s in syms ==> 0 !in s.name
  }

  // ---- which symbols are kept ------------------------------------------------------------------

  datatype Range = Range(lo: nat, hi: nat)

  function Lowest(rs: seq<Range>): (lo: nat)
    requires rs != []
    ensures (forall i :: 0 <= i < |rs| ==> lo <= rs[i].lo) && exists i :: 0 <= i < |rs| && rs[i].lo == lo
  {
    if |rs| == 1 || rs[0].lo <= Lowest(rs[1..]) then rs[0].lo else Lowest(rs[1..])
  }

  function Highest(rs: seq<Range>): (hi: nat)
    requires rs != []
    ensures (forall i :: 0 <= i < |rs| ==> rs[i].hi <= hi) && exists i :: 0 <= i < |rs| && rs[i].hi == hi
  {
    if |rs| == 1 || rs[0].hi >= Highest(rs[1..]) then rs[0].hi else Highest(rs[1..])
  }

  predicate Keeps(s: Symbol, text: seq<Range>) {
    if text == [] then s.kind in {'T', 't', 'W', 'w'} else Lowest(text) <= s.addr < Highest(text)
  }

  function Kept(syms: seq<Symbol>, text: seq<Range>): seq<Symbol> {
    if syms == [] then [] else Kept(Front(syms), text) + if Keeps(Last(syms), text) then [Last(syms)] else []
  }

  // ---- sorting by address, keeping the order of equal ones --------------------------------------

  function Front<T>(s: seq<T>): seq<T>
    requires s != []
  {
    s[..|s| - 1]
  }

  function Last<T>(s: seq<T>): T
    requires s != []
  {
    s[|s| - 1]
  }

  predicate Sorted(syms: seq<Symbol>) {
    |syms| < 2 || (Last(Front(syms)).addr <= Last(syms).addr && Sorted(Front(syms)))
  }

  lemma {:induction false} SortedAt(syms: seq<Symbol>, i: nat, j: nat)
    requires Sorted(syms) && i <= j < |syms|
    ensures syms[i].addr <= syms[j].addr
    decreases |syms|
  {
    if j < |syms| - 1 {
      SortedAt(Front(syms), i, j);
    } else if i < j {
      SortedAt(Front(syms), i, j - 1);
    }
  }

  /** Behind everything at or below its address. */
  function Insert(syms: seq<Symbol>, x: Symbol): (r: seq<Symbol>)
    requires Sorted(syms)
    ensures |r| == |syms| + 1 && Sorted(r)
    ensures Last(r).addr == if syms == [] || Last(syms).addr <= x.addr then x.addr else Last(syms).addr
    decreases |syms|
  {
    if syms == [] || Last(syms).addr <= x.addr then
      assert Front(syms + [x]) == syms;
      syms + [x]
    else
      var r := Insert(Front(syms), x);
      assert Front(r + [Last(syms)]) == r;
      r + [Last(syms)]
  }

  function Sort(syms: seq<Symbol>): (r: seq<Symbol>)
    ensures |r| == |syms| && Sorted(r)
    decreases |syms|
  {
    if syms == [] then [] else Insert(Sort(Front(syms)), Last(syms))
  }

  lemma AddLast(syms: seq<Symbol>)
    requires syms != []
    ensures multiset(syms) == multiset(Front(syms)) + multiset{Last(syms)}
  {
    assert syms == Front(syms) + [Last(syms)];
  }

  lemma {:induction false} InsertPermutes(syms: seq<Symbol>, x: Symbol)
    requires Sorted(syms)
    ensures multiset(Insert(syms, x)) == multiset(syms) + multiset{x}
    decreases |syms|
  {
    if syms != [] && Last(syms).addr > x.addr {
      InsertPermutes(Front(syms), x);
      AddLast(syms);
    }
  }

  /** Every symbol is in the table, as often as it was listed. */
  lemma {:induction false} SortPermutes(syms: seq<Symbol>)
    ensures multiset(Sort(syms)) == multiset(syms)
    decreases |syms|
  {
    hide Insert, Sorted;
    if syms == [] {
      assert Sort(syms) == syms;
    } else {
      SortPermutes(Front(syms));
      InsertPermutes(Sort(Front(syms)), Last(syms));
      AddLast(syms);
    }
  }

  // ---- what a lookup should answer ---------------------------------------------------------------

  /** The nearest symbol at or below the address; of several at one address, the last one listed. */
  function Nearest(syms: seq<Symbol>, addr: nat): Option<Symbol>
    decreases |syms|
  {
    if syms == [] then None else Nearer(Nearest(Front(syms), addr), Last(syms), addr)
  }

  function Nearer(best: Option<Symbol>, x: Symbol, addr: nat): Option<Symbol> {
    if x.addr <= addr && (best.None? || best.value.addr <= x.addr) then Some(x) else best
  }

  predicate IsNearest(syms: seq<Symbol>, addr: nat, i: nat) {
    && i < |syms| && syms[i].addr <= addr
    && (forall j :: 0 <= j < |syms| ==> syms[j].addr > addr || syms[j].addr <= syms[i].addr)
    && (forall j :: i < j < |syms| ==> syms[j].addr != syms[i].addr)
  }

  predicate NoneBelow(syms: seq<Symbol>, addr: nat) {
    forall j :: 0 <= j < |syms| ==> syms[j].addr > addr
  }

  /** Nearest means what it says. */
  lemma {:induction false} NearestIs(syms: seq<Symbol>, addr: nat) returns (i: nat)
    ensures match Nearest(syms, addr)
      case None => NoneBelow(syms, addr)
      case Some(s) => IsNearest(syms, addr, i) && syms[i] == s
    decreases |syms|
  {
    i := 0;
    if syms != [] {
      i := NearestIs(Front(syms), addr);
      var best := Nearest(Front(syms), addr);
      if Last(syms).addr <= addr && (best.None? || best.value.addr <= Last(syms).addr) { i := |syms| - 1; }
    }
  }

  // ---- sorting does not change the answer ----------------------------------------------------------

  lemma NearerCommutes(best: Option<Symbol>, x: Symbol, y: Symbol, addr: nat)
    requires x.addr != y.addr
    ensures Nearer(Nearer(best, x, addr), y, addr) == Nearer(Nearer(best, y, addr), x, addr)
  {
  }

  lemma {:induction false} NearestInsert(syms: seq<Symbol>, x: Symbol, addr: nat)
    requires Sorted(syms)
    ensures Nearest(Insert(syms, x), addr) == Nearer(Nearest(syms, addr), x, addr)
    decreases |syms|
  {
    if syms == [] || Last(syms).addr <= x.addr {
      assert Front(syms + [x]) == syms;
    } else {
      var r := Insert(Front(syms), x);
      assert Front(r + [Last(syms)]) == r;
      NearestInsert(Front(syms), x, addr);
      NearerCommutes(Nearest(Front(syms), addr), x, Last(syms), addr);
    }
  }

  lemma {:induction false} NearestSort(syms: seq<Symbol>, addr: nat)
    ensures Nearest(Sort(syms), addr) == Nearest(syms, addr)
    decreases |syms|
  {
    hide Insert, Nearer, Sorted;
    if syms != [] {
      NearestSort(Front(syms), addr);
      NearestInsert(Sort(Front(syms)), Last(syms), addr);
    }
  }

  /** In a sorted table the answer is the entry before the first one above the address. */
  lemma NearestSorted(syms: seq<Symbol>, addr: nat, i: nat)
    requires Sorted(syms) && i < |syms| && syms[i].addr <= addr
    requires i + 1 == |syms| || syms[i + 1].addr > addr
    ensures Nearest(syms, addr) == Some(syms[i])
  {
    var k := NearestIs(syms, addr);
    if k > i {
      SortedAt(syms, i + 1, k);
    } else {
      SortedAt(syms, k, i);
    }
  }

  // ---- the emitted arrays -----------------------------------------------------------------------------

  datatype Table = Table(addrs: seq<nat>, offs: seq<nat>, names: seq<Byte>)

  /** Each name and its NUL, one after the other. */
  function Blob(syms: seq<Symbol>): seq<Byte>
    decreases |syms|
  {
    if syms == [] then [] else Blob(Front(syms)) + Last(syms).name + [0]
  }

  function Start(syms: seq<Symbol>, i: nat): nat
    requires i <= |syms|
  {
    |Blob(syms[..i])|
  }

  predicate IsTable(t: Table, syms: seq<Symbol>) {
    && |t.addrs| == |t.offs| == |syms| && t.names == Blob(syms)
    && forall i :: 0 <= i < |syms| ==> t.addrs[i] == syms[i].addr && t.offs[i] == Start(syms, i)
  }

  /** What C reads from a pointer into the blob. */
  function CString(names: seq<Byte>, off: nat): seq<Byte>
    decreases |names| - off
  {
    if off >= |names| || names[off] == 0 then [] else [names[off]] + CString(names, off + 1)
  }

  lemma {:induction false} CStringAt(names: seq<Byte>, off: nat, name: seq<Byte>)
    requires 0 !in name && off + |name| < |names|
    requires names[off..off + |name|] == name && names[off + |name|] == 0
    ensures CString(names, off) == name
    decreases |name|
  {
    if name != [] {
      assert names[off] == name[0];
      assert names[off + 1..off + |name|] == name[1..];
      CStringAt(names, off + 1, name[1..]);
    }
  }

  lemma {:induction false} BlobAt(syms: seq<Symbol>, i: nat)
    requires i < |syms|
    ensures var at := Start(syms, i); var name := syms[i].name;
      at + |name| < |Blob(syms)| && Blob(syms)[at..at + |name|] == name && Blob(syms)[at + |name|] == 0
    decreases |syms|
  {
    var f := Front(syms);
    if i == |syms| - 1 {
      assert syms[..i] == f;
    } else {
      BlobAt(f, i);
      assert f[..i] == syms[..i];
      BlobGrows(syms, i);
    }
  }

  lemma BlobGrows(syms: seq<Symbol>, i: nat)
    requires i < |syms| - 1
    ensures Blob(Front(syms)) <= Blob(syms)
  {
  }

  /** The string at a symbol's offset is the symbol's name. */
  lemma NameAt(syms: seq<Symbol>, i: nat)
    requires Named(syms) && i < |syms|
    ensures CString(Blob(syms), Start(syms, i)) == syms[i].name
  {
    hide Blob, Start, CString;
    BlobAt(syms, i);
    assert syms[i] in syms;
    CStringAt(Blob(syms), Start(syms, i), syms[i].name);
  }

  method Emit(syms: seq<Symbol>) returns (t: Table)
    ensures IsTable(t, syms)
  {
    var addrs, offs, names, off, i := [], [], [], 0, 0;
    while i < |syms|
      invariant 0 <= i <= |syms| && |addrs| == |offs| == i
      invariant names == Blob(syms[..i]) && off == |names|
      invariant forall k :: 0 <= k < i ==> addrs[k] == syms[k].addr && offs[k] == Start(syms, k)
    {
      assert Front(syms[..i + 1]) == syms[..i];
      addrs, offs := addrs + [syms[i].addr], offs + [off];
      names := names + syms[i].name + [0];
      off := off + |syms[i].name| + 1;
      i := i + 1;
    }
    assert syms[..i] == syms;
    t := Table(addrs, offs, names);
  }

  /** kallsyms_lookup: the name and the distance from it, or no name and the address itself. */
  method Lookup(t: Table, addr: nat, ghost syms: seq<Symbol>) returns (name: Option<seq<Byte>>, offset: nat)
    requires IsTable(t, syms) && Sorted(syms) && Named(syms)
    ensures match Nearest(syms, addr)
      case None => name == None && offset == addr
      case Some(s) => name == Some(s.name) && s.addr <= addr && offset == addr - s.addr
  {
    hide Nearest, Sorted, Blob, Start, CString;
    var lo, hi := 0, |t.addrs| - 1;
    while lo <= hi
      invariant 0 <= lo <= hi + 1 <= |t.addrs|
      invariant lo == 0 || (lo < |t.addrs| && t.addrs[lo] <= addr)
      invariant forall k :: hi < k < |t.addrs| ==> t.addrs[k] > addr
    {
      var mid := (lo + hi) / 2;
      if t.addrs[mid] <= addr {
        if mid == |t.addrs| - 1 || t.addrs[mid + 1] > addr {
          NameAt(syms, mid);
          NearestSorted(syms, addr, mid);
          return Some(CString(t.names, t.offs[mid])), addr - t.addrs[mid];
        }
        lo := mid + 1;
      } else {
        AboveAfter(syms, mid);
        hi := mid - 1;
      }
    }
    ghost var i := NearestIs(syms, addr);
    return None, addr;
  }

  lemma AboveAfter(syms: seq<Symbol>, i: nat)
    requires Sorted(syms) && i < |syms|
    ensures forall k :: i <= k < |syms| ==> syms[k].addr >= syms[i].addr
  {
    forall k | i <= k < |syms|
      ensures syms[k].addr >= syms[i].addr
    {
      SortedAt(syms, i, k);
    }
  }

  /** The filter keeps exactly the symbols it should, as often as they are listed. */
  lemma {:induction false} KeptIs(syms: seq<Symbol>, text: seq<Range>, s: Symbol)
    ensures multiset(Kept(syms, text))[s] == if Keeps(s, text) then multiset(syms)[s] else 0
    decreases |syms|
  {
    if syms != [] {
      KeptIs(Front(syms), text, s);
      AddLast(syms);
    }
  }

  lemma {:induction false} KeptNamed(syms: seq<Symbol>, text: seq<Range>)
    requires Named(syms)
    ensures Named(Kept(syms, text))
    decreases |syms|
  {
    if syms != [] {
      KeptNamed(Front(syms), text);
    }
  }

  lemma SortNamed(syms: seq<Symbol>)
    requires Named(syms)
    ensures Named(Sort(syms))
  {
    SortPermutes(syms);
    forall s | s in Sort(syms)
      ensures 0 !in s.name
    {
      assert s in multiset(Sort(syms));
    }
  }

  /**
   * From the symbols of the kernel image to the answer of the lookup linked into it. With no symbol to keep, no table
   * and no lookup are generated and the kernel's own weak definition answers: no name, and the address.
   */
  method GenerateAndLookup(syms: seq<Symbol>, text: seq<Range>, addr: nat)
    returns (name: Option<seq<Byte>>, offset: nat)
    requires Named(syms)
    ensures match Nearest(Kept(syms, text), addr)
      case None => name == None && offset == addr
      case Some(s) => name == Some(s.name) && s.addr <= addr && offset == addr - s.addr
  {
    var kept := Kept(syms, text);
    if kept == [] {
      return None, addr;
    }
    KeptNamed(syms, text);
    SortNamed(kept);
    NearestSort(kept, addr);
    var t := Emit(Sort(kept));
    name, offset := Lookup(t, addr, Sort(kept));
  }
}
