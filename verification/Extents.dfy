/** Finding the journal in an ext4 image: superblock, group descriptor, and the extent tree of the
    journal inode, read straight from the image bytes. */
module Extents {
  import opened Basics
  import opened Bytes

  const EXTENT_MAGIC: nat := 0xF30A
  const EXT4_MAGIC: nat := 0xEF53

  // ---- the walk -------------------------------------------------------------------

  datatype Found = At(block: nat) | NoTree | Truncated | TooDeep

  function ByteOffset(block: nat, blockSize: nat): nat {
    block * blockSize
  }

  /** The walk to the first extent, with at most `fuel` nested calls. */
  function FirstExtent(img: seq<Byte>, blockSize: nat, off: nat, fuel: nat): Found
    decreases fuel
  {
    if off + 8 > |img| then Truncated
    else if Le16(img, off) != EXTENT_MAGIC || Le16(img, off + 2) == 0 then NoTree
    else if Le16(img, off + 6) == 0 then At(Le32(img, off + 20) + U32 * Le16(img, off + 18))
    else if fuel == 0 then TooDeep
    else FirstExtent(img, blockSize, ByteOffset(Le32(img, off + 16) + U32 * Le16(img, off + 20), blockSize), fuel - 1)
  }

  // ---- extent trees and their layout -------------------------------------------------

  datatype Extent = Extent(first: nat, length: nat, start: nat)

  datatype Child = Child(first: nat, block: nat, node: Tree)

  datatype Tree =
    | Leaf(max: nat, generation: nat, extents: seq<Extent>)
    | Index(max: nat, generation: nat, depth: nat, children: seq<Child>)

  function Depth(t: Tree): nat {
    if t.Leaf? then 0 else t.depth
  }

  /** Fields fit their widths, no node is empty, and depth drops by one per level. */
  ghost predicate WellFormed(t: Tree) {
    t.max < U16 && t.generation < U32
    && match t
       case Leaf(_, _, extents) => 1 <= |extents| < U16 && forall e :: e in extents ==> ExtentOk(e)
       case Index(_, _, depth, children) =>
         1 <= depth < U16 && 1 <= |children| < U16
         && (forall c :: c in children ==> c.first < U32 && c.block < U32 * U16)
         && forall c :: c in children ==> Depth(c.node) == depth - 1 && WellFormed(c.node)
  }

  predicate ExtentOk(e: Extent) {
    e.first < U32 && e.length < U16 && e.start < U32 * U16
  }

  function Header(count: nat, max: nat, depth: nat, generation: nat): (r: seq<Byte>)
    requires count < U16 && max < U16 && depth < U16 && generation < U32
    ensures |r| == 12
  {
    PutLe16(EXTENT_MAGIC) + PutLe16(count) + PutLe16(max) + PutLe16(depth) + PutLe32(generation)
  }

  /** ee_block, ee_len, ee_start_hi, ee_start_lo. */
  function ExtentBytes(e: Extent): (r: seq<Byte>)
    requires ExtentOk(e)
    ensures |r| == 12
  {
    PutLe32(e.first) + PutLe16(e.length) + PutLe16(e.start / U32) + PutLe32(e.start % U32)
  }

  /** ei_block, ei_leaf_lo, ei_leaf_hi, unused. */
  function IndexBytes(first: nat, block: nat): (r: seq<Byte>)
    requires first < U32 && block < U32 * U16
    ensures |r| == 12
  {
    PutLe32(first) + PutLe32(block % U32) + PutLe16(block / U32) + PutLe16(0)
  }

  ghost function LeafBytes(extents: seq<Extent>): (r: seq<Byte>)
    requires forall e :: e in extents ==> ExtentOk(e)
    ensures |r| == 12 * |extents|
  {
    if extents == [] then [] else ExtentBytes(extents[0]) + LeafBytes(extents[1..])
  }

  ghost function ChildBytes(children: seq<Child>): (r: seq<Byte>)
    requires forall c :: c in children ==> c.first < U32 && c.block < U32 * U16
    ensures |r| == 12 * |children|
  {
    if children == [] then [] else IndexBytes(children[0].first, children[0].block) + ChildBytes(children[1..])
  }

  ghost function NodeBytes(t: Tree): (r: seq<Byte>)
    requires WellFormed(t)
    ensures |r| >= 24
  {
    match t
    case Leaf(max, generation, extents) => Header(|extents|, max, 0, generation) + LeafBytes(extents)
    case Index(max, generation, depth, children) => Header(|children|, max, depth, generation) + ChildBytes(children)
  }

  ghost predicate NodeAt(img: seq<Byte>, off: nat, t: Tree)
    requires WellFormed(t)
  {
    off + |NodeBytes(t)| <= |img| && img[off..off + |NodeBytes(t)|] == NodeBytes(t)
  }

  /** The tree sits in the image: its root node at `off`, every other node at its block. */
  ghost predicate Laid(img: seq<Byte>, blockSize: nat, off: nat, t: Tree)
    requires WellFormed(t)
    decreases t
  {
    NodeAt(img, off, t)
    && (t.Index? ==> forall c :: c in t.children ==> Laid(img, blockSize, ByteOffset(c.block, blockSize), c.node))
  }

  /** Start block of the leftmost leaf extent. */
  function Leftmost(t: Tree): nat {
    match t
    case Leaf(_, _, extents) => if extents == [] then 0 else extents[0].start
    case Index(_, _, _, children) => if children == [] then 0 else Leftmost(children[0].node)
  }

  // ---- the walk undoes the layout ------------------------------------------------------

  lemma Field16(img: seq<Byte>, off: nat, bytes: seq<Byte>, k: nat, v: nat)
    requires off + |bytes| <= |img| && img[off..off + |bytes|] == bytes
    requires k + 2 <= |bytes| && v < U16 && bytes[k..k + 2] == PutLe16(v)
    ensures Le16(img, off + k) == v
  {
    LittleRoundTrip16(v);
    SubSlice(img, off, off + |bytes|, k, k + 2);
  }

  lemma Field32(img: seq<Byte>, off: nat, bytes: seq<Byte>, k: nat, v: nat)
    requires off + |bytes| <= |img| && img[off..off + |bytes|] == bytes
    requires k + 4 <= |bytes| && v < U32 && bytes[k..k + 4] == PutLe32(v)
    ensures Le32(img, off + k) == v
  {
    LittleRoundTrip32(v);
    SubSlice(img, off, off + |bytes|, k, k + 4);
  }

  lemma HeaderFields(img: seq<Byte>, off: nat, bytes: seq<Byte>, count: nat, max: nat, depth: nat, generation: nat)
    requires off + |bytes| <= |img| && img[off..off + |bytes|] == bytes && |bytes| >= 12
    requires count < U16 && max < U16 && depth < U16 && generation < U32
    requires bytes[..12] == Header(count, max, depth, generation)
    ensures Le16(img, off) == EXTENT_MAGIC && Le16(img, off + 2) == count && Le16(img, off + 6) == depth
  {
    var h := Header(count, max, depth, generation);
    assert bytes[0..2] == h[0..2] == PutLe16(EXTENT_MAGIC);
    assert bytes[2..4] == h[2..4] == PutLe16(count);
    assert bytes[6..8] == h[6..8] == PutLe16(depth);
    Field16(img, off, bytes, 0, EXTENT_MAGIC);
    Field16(img, off, bytes, 2, count);
    Field16(img, off, bytes, 6, depth);
  }

  lemma LeafFields(img: seq<Byte>, off: nat, t: Tree)
    requires WellFormed(t) && t.Leaf? && NodeAt(img, off, t)
    ensures off + 24 <= |img|
    ensures Le16(img, off) == EXTENT_MAGIC && Le16(img, off + 2) != 0 && Le16(img, off + 6) == 0
    ensures Le32(img, off + 20) + U32 * Le16(img, off + 18) == t.extents[0].start
  {
    var n, e := NodeBytes(t), t.extents[0];
    assert e in t.extents;
    assert n[..12] == Header(|t.extents|, t.max, 0, t.generation);
    HeaderFields(img, off, n, |t.extents|, t.max, 0, t.generation);
    assert n[12..24] == ExtentBytes(e);
    assert n[18..20] == n[12..24][6..8] == PutLe16(e.start / U32);
    assert n[20..24] == n[12..24][8..12] == PutLe32(e.start % U32);
    Field16(img, off, n, 18, e.start / U32);
    Field32(img, off, n, 20, e.start % U32);
  }

  lemma IndexFields(img: seq<Byte>, off: nat, t: Tree)
    requires WellFormed(t) && t.Index? && NodeAt(img, off, t)
    ensures off + 24 <= |img|
    ensures Le16(img, off) == EXTENT_MAGIC && Le16(img, off + 2) != 0 && Le16(img, off + 6) == t.depth
    ensures Le32(img, off + 16) + U32 * Le16(img, off + 20) == t.children[0].block
  {
    var n, c := NodeBytes(t), t.children[0];
    assert c in t.children;
    assert n[..12] == Header(|t.children|, t.max, t.depth, t.generation);
    HeaderFields(img, off, n, |t.children|, t.max, t.depth, t.generation);
    assert n[12..24] == IndexBytes(c.first, c.block);
    assert n[16..20] == n[12..24][4..8] == PutLe32(c.block % U32);
    assert n[20..22] == n[12..24][8..10] == PutLe16(c.block / U32);
    Field32(img, off, n, 16, c.block % U32);
    Field16(img, off, n, 20, c.block / U32);
  }

  /** On every well-formed tree, of any depth, laid out anywhere in the image, the walk returns the
      start of the leftmost extent after exactly as many nested calls as the root's depth. */
  lemma {:induction false} WalkFindsLeftmost(img: seq<Byte>, blockSize: nat, off: nat, t: Tree, fuel: nat)
    requires WellFormed(t) && Laid(img, blockSize, off, t)
    ensures FirstExtent(img, blockSize, off, fuel) == if fuel >= Depth(t) then At(Leftmost(t)) else TooDeep
    decreases t
  {
    hide Le16, Le32, NodeAt, ByteOffset;
    match t
    case Leaf(_, _, extents) =>
      LeafFields(img, off, t);
    case Index(_, _, depth, children) =>
      IndexFields(img, off, t);
      assert children[0] in children;
      if fuel > 0 {
        WalkFindsLeftmost(img, blockSize, ByteOffset(children[0].block, blockSize), children[0].node, fuel - 1);
      }
  }

  // ---- walks that never end ---------------------------------------------------------------

  /** The walk goes on from here: an index node with at least one entry. */
  predicate IsIndex(img: seq<Byte>, off: nat) {
    off + 8 <= |img| && Le16(img, off) == EXTENT_MAGIC && Le16(img, off + 2) != 0 && Le16(img, off + 6) != 0
  }

  function FirstChild(img: seq<Byte>, blockSize: nat, off: nat): nat {
    ByteOffset(Le32(img, off + 16) + U32 * Le16(img, off + 20), blockSize)
  }

  /** Where the walk is after n steps down. */
  function Descent(img: seq<Byte>, blockSize: nat, off: nat, n: nat): nat
    decreases n
  {
    if n == 0 then off else Descent(img, blockSize, FirstChild(img, blockSize, off), n - 1)
  }

  /** The first m + 1 nodes of the walk are index nodes. */
  ghost predicate IndexTo(img: seq<Byte>, blockSize: nat, off: nat, m: nat) {
    forall n: nat :: n <= m ==> IsIndex(img, Descent(img, blockSize, off, n))
  }

  lemma IndexToStep(img: seq<Byte>, blockSize: nat, off: nat, m: nat)
    ensures IndexTo(img, blockSize, off, m + 1)
      <==> IsIndex(img, off) && IndexTo(img, blockSize, FirstChild(img, blockSize, off), m)
  {
    hide IsIndex, FirstChild;
    var child := FirstChild(img, blockSize, off);
    assert Descent(img, blockSize, off, 0) == off;
    if IndexTo(img, blockSize, off, m + 1) {
      assert IsIndex(img, Descent(img, blockSize, off, 0));
      forall n: nat | n <= m ensures IsIndex(img, Descent(img, blockSize, child, n)) {
        assert IsIndex(img, Descent(img, blockSize, off, n + 1));
      }
    }
    if IsIndex(img, off) && IndexTo(img, blockSize, child, m) {
      forall n: nat | n <= m + 1 ensures IsIndex(img, Descent(img, blockSize, off, n)) {
        if n > 0 { assert IsIndex(img, Descent(img, blockSize, child, n - 1)); }
      }
    }
  }

  lemma IndexToNone(img: seq<Byte>, blockSize: nat, off: nat)
    ensures IndexTo(img, blockSize, off, 0) <==> IsIndex(img, off)
  {
    hide IsIndex;
    assert Descent(img, blockSize, off, 0) == off;
    if IndexTo(img, blockSize, off, 0) { assert IsIndex(img, Descent(img, blockSize, off, 0)); }
  }

  /** The walk uses up its calls exactly when every node it comes to is an index node. */
  lemma {:induction false} TooDeepIff(img: seq<Byte>, blockSize: nat, off: nat, fuel: nat)
    ensures FirstExtent(img, blockSize, off, fuel) == TooDeep <==> IndexTo(img, blockSize, off, fuel)
    decreases fuel
  {
    hide Le16, Le32, ByteOffset, IndexTo;
    if fuel == 0 {
      IndexToNone(img, blockSize, off);
    } else {
      IndexToStep(img, blockSize, off, fuel - 1);
      TooDeepIff(img, blockSize, FirstChild(img, blockSize, off), fuel - 1);
    }
  }

  lemma {:induction false} DescentOn(img: seq<Byte>, blockSize: nat, off: nat, m: nat, n: nat)
    ensures Descent(img, blockSize, off, m + n) == Descent(img, blockSize, Descent(img, blockSize, off, m), n)
    decreases m
  {
    if m > 0 { DescentOn(img, blockSize, FirstChild(img, blockSize, off), m - 1, n); }
  }

  /** More numbers below n than n: two of them are equal. */
  lemma {:induction false} Pigeonhole(s: seq<nat>, n: nat) returns (i: nat, j: nat)
    requires |s| > n && forall k :: 0 <= k < |s| ==> s[k] < n
    ensures i < j < |s| && s[i] == s[j]
    decreases n
  {
    var last := |s| - 1;
    if k: nat :| k < last && s[k] == s[last] {
      i, j := k, last;
    } else {
      // Renumber n - 1 to the last value, which nothing else has.
      var rest := seq(last, k requires 0 <= k < last => if s[k] == n - 1 then s[last] else s[k]);
      i, j := Pigeonhole(rest, n - 1);
    }
  }

  /** The walk comes back to a node it has been to, through index nodes only. */
  ghost predicate Circles(img: seq<Byte>, blockSize: nat, off: nat, i: nat, j: nat) {
    i < j && Descent(img, blockSize, off, i) == Descent(img, blockSize, off, j) && IndexTo(img, blockSize, off, j)
  }

  lemma {:induction false} CircleGoesOn(img: seq<Byte>, blockSize: nat, off: nat, i: nat, j: nat, n: nat)
    requires Circles(img, blockSize, off, i, j)
    ensures IsIndex(img, Descent(img, blockSize, off, n))
    decreases n
  {
    hide IsIndex;
    if n > j {
      DescentOn(img, blockSize, off, i, n - j);
      DescentOn(img, blockSize, off, j, n - j);
      CircleGoesOn(img, blockSize, off, i, j, i + n - j);
    }
  }

  /** Nothing checks that depth drops. The walk never ends if and only if, within as many steps as the image has bytes,
      it comes back to a node it has been to; then and only then it is still going after that many calls. */
  lemma NeverEndsIff(img: seq<Byte>, blockSize: nat, off: nat)
    ensures (forall fuel: nat :: FirstExtent(img, blockSize, off, fuel) == TooDeep)
      <==> exists i: nat, j: nat :: j <= |img| && Circles(img, blockSize, off, i, j)
    ensures (forall fuel: nat :: FirstExtent(img, blockSize, off, fuel) == TooDeep)
      <==> FirstExtent(img, blockSize, off, |img|) == TooDeep
  {
    hide IsIndex, Descent, FirstExtent;
    TooDeepIff(img, blockSize, off, |img|);
    if FirstExtent(img, blockSize, off, |img|) == TooDeep {
      var nodes := seq(|img| + 1, n requires 0 <= n => Descent(img, blockSize, off, n));
      forall n | 0 <= n < |nodes| ensures nodes[n] < |img| {
        assert IsIndex(img, Descent(img, blockSize, off, n));
        IndexInside(img, nodes[n]);
      }
      var i, j := Pigeonhole(nodes, |img|);
      assert nodes[i] == Descent(img, blockSize, off, i) && nodes[j] == Descent(img, blockSize, off, j);
      assert Circles(img, blockSize, off, i, j);
    }
    if i: nat, j: nat :| j <= |img| && Circles(img, blockSize, off, i, j) {
      forall fuel: nat ensures FirstExtent(img, blockSize, off, fuel) == TooDeep {
        forall n: nat | n <= fuel ensures IsIndex(img, Descent(img, blockSize, off, n)) {
          CircleGoesOn(img, blockSize, off, i, j, n);
        }
        assert IndexTo(img, blockSize, off, fuel);
        TooDeepIff(img, blockSize, off, fuel);
      }
    }
  }

  lemma IndexInside(img: seq<Byte>, off: nat)
    requires IsIndex(img, off)
    ensures off < |img|
  {
  }

  /** The smallest circle: an index node whose first child is itself. */
  lemma SelfIndexNeverEnds(img: seq<Byte>, blockSize: nat, off: nat, fuel: nat)
    requires IsIndex(img, off) && FirstChild(img, blockSize, off) == off
    ensures FirstExtent(img, blockSize, off, fuel) == TooDeep
  {
    hide IsIndex, FirstExtent, FirstChild;
    assert Descent(img, blockSize, off, 0) == off;
    assert Descent(img, blockSize, off, 1) == Descent(img, blockSize, FirstChild(img, blockSize, off), 0);
    assert Circles(img, blockSize, off, 0, 1);
    IndexInside(img, off);
    NeverEndsIff(img, blockSize, off);
  }

  // ---- from the superblock to the journal -----------------------------------------------

  datatype Located = Offset(bytes: nat) | NotExt4 | NoJournal | BadTree | BadRead | Unbounded

  function Super(img: seq<Byte>): seq<Byte> {
    Slice(img, 1024, 2048)
  }

  function BlockSize(img: seq<Byte>): nat {
    1024 * Pow2(Le32(Super(img), 0x18))
  }

  /** The 64BIT incompatible feature. */
  predicate Wide(img: seq<Byte>) {
    Le32(Super(img), 0x60) / 0x80 % 2 == 1
  }

  function InodeSize(img: seq<Byte>): nat {
    if Wide(img) then Le16(Super(img), 0x58) else 128
  }

  function DescSize(img: seq<Byte>): nat {
    if Wide(img) then Le16(Super(img), 0xFE) else 32
  }

  /** Byte offset of the group 0 descriptor. */
  function GroupDesc(img: seq<Byte>): nat {
    ByteOffset(Le32(Super(img), 0x14) + 1, BlockSize(img))
  }

  function InodeTable(img: seq<Byte>): nat {
    var desc := Slice(img, GroupDesc(img), GroupDesc(img) + DescSize(img));
    Le32(desc, 8) + if DescSize(img) >= 0x2C then U32 * Le32(desc, 0x28) else 0
  }

  /** Byte offset of inode `inum` in a table of inodes of `size` bytes. */
  function InodeAt(img: seq<Byte>, inum: nat, size: nat): nat
    requires inum >= 1
  {
    ByteOffset(InodeTable(img), BlockSize(img)) + (inum - 1) * size
  }

  function JournalInode(img: seq<Byte>): nat {
    Le32(Super(img), 0xE0)
  }

  /** Where the journal superblock is, as the tool finds it. */
  function JournalOffset(img: seq<Byte>, fuel: nat): Located {
    if Le16(Super(img), 0x38) != EXT4_MAGIC then NotExt4
    else if JournalInode(img) == 0 then NoJournal
    else
      match FirstExtent(img, BlockSize(img), InodeAt(img, JournalInode(img), InodeSize(img)) + 40, fuel)
      case At(block) => Offset(ByteOffset(block, BlockSize(img)))
      case NoTree => BadTree
      case Truncated => BadRead
      case TooDeep => Unbounded
  }

  /** The image holds the extent tree of its journal in the inode the tool reads. */
  ghost predicate HoldsJournal(img: seq<Byte>, t: Tree) {
    Le16(Super(img), 0x38) == EXT4_MAGIC && JournalInode(img) != 0 && WellFormed(t)
    && Laid(img, BlockSize(img), InodeAt(img, JournalInode(img), InodeSize(img)) + 40, t)
  }

  /** The tool finds the first block of the journal. */
  lemma JournalIsFound(img: seq<Byte>, t: Tree, fuel: nat)
    requires HoldsJournal(img, t) && fuel >= Depth(t)
    ensures JournalOffset(img, fuel) == Offset(ByteOffset(Leftmost(t), BlockSize(img)))
  {
    hide Le16, Le32, Laid, BlockSize, InodeAt, InodeSize, Super;
    WalkFindsLeftmost(img, BlockSize(img), InodeAt(img, JournalInode(img), InodeSize(img)) + 40, t, fuel);
  }

  /** The inode the tool reads is the journal's own, as s_inode_size lays the table out, if and only
      if the image has the 64BIT feature, or 128-byte inodes, or its journal in inode 1. */
  lemma ReadsJournalInodeIff(img: seq<Byte>)
    requires JournalInode(img) != 0
    ensures InodeAt(img, JournalInode(img), InodeSize(img)) == InodeAt(img, JournalInode(img), Le16(Super(img), 0x58))
       <==> Wide(img) || Le16(Super(img), 0x58) == 128 || JournalInode(img) == 1
  {
    hide Le16, Le32, Super, InodeTable, BlockSize, ByteOffset;
    var n := JournalInode(img) - 1;
    SameProduct(n, InodeSize(img), Le16(Super(img), 0x58));
  }

  lemma SameProduct(n: nat, a: nat, b: nat)
    ensures n * a == n * b <==> n == 0 || a == b
  {}
}
