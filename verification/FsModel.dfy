/** Blocks, inodes and file contents of kernel/fs.c as values: the free bitmap, the
    direct and indirect block addresses of every inode, and the bytes that a file holds. */
module FsModel {
  import opened Params

  const BSIZE := 1024
  const NDIRECT := 12
  const NINDIRECT := 256
  const MAXFILE := NDIRECT + NINDIRECT

  type Byte = x: int | 0 <= x < 256
  type Block = b: seq<Byte> | |b| == BSIZE witness seq(BSIZE, _ => 0)

  function ZeroBlock(): Block { seq(BSIZE, _ => 0) }

  // ---------- block numbers inside an indirect block ----------

  /** The j-th uint of a block. */
  function GetWord(b: Block, j: nat): nat
    requires j < NINDIRECT
  {
    (b[4 * j] as int) + 256 * (b[4 * j + 1] as int) + 65536 * (b[4 * j + 2] as int) + 16777216 * (b[4 * j + 3] as int)
  }

  function PutWord(b: Block, j: nat, v: nat): Block
    requires j < NINDIRECT && v < UINT_RANGE
  {
    b[4 * j := v % 256][4 * j + 1 := v / 256 % 256][4 * j + 2 := v / 65536 % 256][4 * j + 3 := v / 16777216]
  }

  lemma PutGetWord(b: Block, j: nat, v: nat, k: nat)
    requires j < NINDIRECT && k < NINDIRECT && v < UINT_RANGE
    ensures GetWord(PutWord(b, j, v), k) == if k == j then v else GetWord(b, k)
  {
    if k == j { BytesOf(v); }
  }

  lemma BytesOf(v: nat)
    ensures v % 256 + 256 * (v / 256 % 256) + 65536 * (v / 65536 % 256) + 16777216 * (v / 16777216) == v
  {
    var a := v / 256;
    var b := v / 65536;
    assert v == 256 * a + v % 256;
    assert a / 256 == b && a == 256 * b + a % 256;
    assert b / 256 == v / 16777216 && b == 256 * (v / 16777216) + b % 256;
  }

  // ---------- inodes ----------

  datatype Inode = Inode(size: nat, addrs: seq<nat>)

  /** used is the bitmap, data the contents of every block of the disk; blocks below meta
      are boot block, superblock, log, inodes and bitmap. */
  datatype Fs = Fs(meta: nat, used: seq<bool>, data: seq<Block>, inodes: seq<Inode>)

  /** A slot of an inode is a place that can hold a block number: slots 0 to NDIRECT - 1
      are the direct addresses, slot NDIRECT the indirect block, and the slots after it
      the entries of the indirect block. */
  const SLOTS := NDIRECT + 1 + NINDIRECT

  /** The slot of the bn-th block of a file. */
  function DataSlot(bn: nat): nat {
    if bn < NDIRECT then bn else bn + 1
  }

  ghost predicate Shape(s: Fs) {
    && |s.used| == |s.data| <= UINT_RANGE && 0 < s.meta <= |s.used|
    && forall i :: 0 <= i < |s.inodes| ==> |s.inodes[i].addrs| == NDIRECT + 1
  }

  /** The block number in a slot, 0 when there is none. */
  function Ref(s: Fs, i: nat, j: nat): nat
    requires i < |s.inodes| && |s.inodes[i].addrs| == NDIRECT + 1 && j < SLOTS
  {
    var ip := s.inodes[i];
    if j <= NDIRECT then ip.addrs[j]
    else if 0 < ip.addrs[NDIRECT] < |s.data| then GetWord(s.data[ip.addrs[NDIRECT]], j - NDIRECT - 1)
    else 0
  }

  ghost predicate IsSlot(s: Fs, i: nat, j: nat) {
    i < |s.inodes| && j < SLOTS
  }

  /** Block b is the one in slot (i, j). */
  ghost predicate Holds(s: Fs, i: nat, j: nat, b: nat)
    requires Shape(s)
  {
    IsSlot(s, i, j) && Ref(s, i, j) == b
  }

  /** A bit is set exactly when the block is metadata, occurs in exactly one slot of all
      inodes, or is among the pending blocks that an operation has allocated but not
      linked yet. */
  ghost predicate Inv(s: Fs, pending: set<nat>) {
    && Shape(s)
    && (forall i, j {:trigger IsSlot(s, i, j)} :: IsSlot(s, i, j) && Ref(s, i, j) != 0 ==>
          s.meta <= Ref(s, i, j) < |s.used| && s.used[Ref(s, i, j)] && Ref(s, i, j) !in pending)
    && (forall i, j, i', j' {:trigger IsSlot(s, i, j), IsSlot(s, i', j')} ::
          IsSlot(s, i, j) && IsSlot(s, i', j') && Ref(s, i, j) != 0 && Ref(s, i, j) == Ref(s, i', j') ==>
            i == i' && j == j')
    && (forall b :: 0 <= b < s.meta ==> s.used[b])
    && (forall b :: b in pending ==> s.meta <= b < |s.used| && s.used[b])
    && (forall b: nat :: s.meta <= b < |s.used| && s.used[b] && b !in pending ==> exists i, j :: Holds(s, i, j, b))
  }

  // ---------- elementary steps ----------

  /** balloc: the bit is set and the block zeroed. */
  function AllocBlock(s: Fs, b: nat): Fs
    requires b < |s.used| == |s.data|
  {
    s.(used := s.used[b := true], data := s.data[b := ZeroBlock()])
  }

  function SetAddr(s: Fs, i: nat, j: nat, b: nat): Fs
    requires i < |s.inodes| && j < |s.inodes[i].addrs|
  {
    s.(inodes := s.inodes[i := s.inodes[i].(addrs := s.inodes[i].addrs[j := b])])
  }

  function SetData(s: Fs, a: nat, b: Block): Fs
    requires a < |s.data|
  {
    s.(data := s.data[a := b])
  }

  /** Every slot but (i, j) holds what it held. */
  ghost predicate SameSlots(s: Fs, s': Fs, i: nat, j: nat)
    requires Shape(s) && Shape(s')
  {
    && |s'.inodes| == |s.inodes|
    && forall i', j' {:trigger IsSlot(s', i', j')} ::
      IsSlot(s', i', j') && !(i' == i && j' == j) ==> Ref(s', i', j') == Ref(s, i', j')
  }

  lemma AllocRefs(s: Fs, pending: set<nat>, b: nat, i: nat, j: nat)
    requires Inv(s, pending) && s.meta <= b < |s.used| && !s.used[b] && IsSlot(s, i, j)
    ensures Ref(AllocBlock(s, b), i, j) == Ref(s, i, j) && Ref(s, i, j) != b
  {
    assert IsSlot(s, i, NDIRECT);
  }

  lemma AllocKeeps(s: Fs, pending: set<nat>, b: nat)
    requires Inv(s, pending) && s.meta <= b < |s.used| && !s.used[b]
    ensures Inv(AllocBlock(s, b), pending + {b})
    ensures forall i, j :: IsSlot(s, i, j) ==> Ref(AllocBlock(s, b), i, j) == Ref(s, i, j)
  {
    var s' := AllocBlock(s, b);
    forall i, j | IsSlot(s, i, j) ensures Ref(s', i, j) == Ref(s, i, j) && Ref(s, i, j) != b {
      AllocRefs(s, pending, b, i, j);
    }
    forall x: nat | s.meta <= x < |s.used| && s'.used[x] && x !in pending + {b}
      ensures exists i, j :: Holds(s', i, j, x)
    {
      var i, j :| Holds(s, i, j, x);
      assert Holds(s', i, j, x);
    }
    assert forall i, j :: IsSlot(s', i, j) <==> IsSlot(s, i, j);
  }

  /** Filling the empty slot (i, j) with a pending block. */
  lemma LinkKeeps(s: Fs, s': Fs, pending: set<nat>, i: nat, j: nat, b: nat)
    requires Inv(s, pending) && b in pending && IsSlot(s, i, j) && Ref(s, i, j) == 0
    requires Shape(s') && s'.meta == s.meta && s'.used == s.used && SameSlots(s, s', i, j) && Ref(s', i, j) == b
    ensures Inv(s', pending - {b})
  {
    forall x: nat | s.meta <= x < |s.used| && s.used[x] && x !in pending - {b}
      ensures exists i, j :: Holds(s', i, j, x)
    {
      if x == b {
        assert Holds(s', i, j, b);
      } else {
        var k, l :| Holds(s, k, l, x);
        assert IsSlot(s', k, l) && Holds(s', k, l, x);
      }
    }
    forall k, l | IsSlot(s', k, l) && Ref(s', k, l) != 0
      ensures s.meta <= Ref(s', k, l) < |s.used| && s.used[Ref(s', k, l)] && Ref(s', k, l) !in pending - {b}
    {
      assert IsSlot(s, k, l);
    }
    forall k, l, k', l'
      | IsSlot(s', k, l) && IsSlot(s', k', l') && Ref(s', k, l) != 0 && Ref(s', k, l) == Ref(s', k', l')
      ensures k == k' && l == l'
    {
      assert IsSlot(s, k, l) && IsSlot(s, k', l');
    }
  }

  /** A direct address. */
  lemma LinkDirect(s: Fs, pending: set<nat>, i: nat, j: nat, b: nat)
    requires Inv(s, pending) && b in pending && i < |s.inodes| && j < NDIRECT && s.inodes[i].addrs[j] == 0
    ensures var s' := SetAddr(s, i, j, b); Inv(s', pending - {b}) && SameSlots(s, s', i, j) && Ref(s', i, j) == b
  {
    var s' := SetAddr(s, i, j, b);
    assert IsSlot(s, i, j);
    LinkKeeps(s, s', pending, i, j, b);
  }

  lemma ZeroWords(j: nat)
    requires j < NINDIRECT
    ensures GetWord(ZeroBlock(), j) == 0
  {
  }

  /** The indirect block: a zeroed block adds no entries. */
  lemma LinkIndirect(s: Fs, pending: set<nat>, i: nat, b: nat)
    requires Inv(s, pending) && b in pending && i < |s.inodes| && s.inodes[i].addrs[NDIRECT] == 0
    requires s.data[b] == ZeroBlock()
    ensures var s' := SetAddr(s, i, NDIRECT, b);
      Inv(s', pending - {b}) && SameSlots(s, s', i, NDIRECT) && Ref(s', i, NDIRECT) == b
  {
    var s' := SetAddr(s, i, NDIRECT, b);
    assert IsSlot(s, i, NDIRECT);
    forall i': nat, j': nat | IsSlot(s', i', j') && !(i' == i && j' == NDIRECT)
      ensures Ref(s', i', j') == Ref(s, i', j')
    {
      if j' > NDIRECT { ZeroWords(j' - NDIRECT - 1); }
    }
    LinkKeeps(s, s', pending, i, NDIRECT, b);
  }

  /** An entry of the indirect block. */
  lemma LinkEntry(s: Fs, pending: set<nat>, i: nat, k: nat, b: nat)
    requires Inv(s, pending) && b in pending && i < |s.inodes| && k < NINDIRECT
    requires s.inodes[i].addrs[NDIRECT] != 0 && Ref(s, i, NDIRECT + 1 + k) == 0
    ensures var a := s.inodes[i].addrs[NDIRECT];
      && 0 < a < |s.data| && b < UINT_RANGE
      && var s' := SetData(s, a, PutWord(s.data[a], k, b));
        && Inv(s', pending - {b}) && SameSlots(s, s', i, NDIRECT + 1 + k) && Ref(s', i, NDIRECT + 1 + k) == b
  {
    var a := s.inodes[i].addrs[NDIRECT];
    assert IsSlot(s, i, NDIRECT);
    var s' := SetData(s, a, PutWord(s.data[a], k, b));
    forall i': nat, j': nat | IsSlot(s', i', j') && !(i' == i && j' == NDIRECT + 1 + k)
      ensures Ref(s', i', j') == Ref(s, i', j')
    {
      if j' > NDIRECT {
        assert IsSlot(s, i', NDIRECT);
        PutGetWord(s.data[a], k, b, j' - NDIRECT - 1);
      }
    }
    PutGetWord(s.data[a], k, b, k);
    assert IsSlot(s, i, NDIRECT + 1 + k);
    LinkKeeps(s, s', pending, i, NDIRECT + 1 + k, b);
  }

  /** Writing a data block of a file changes no slot. */
  lemma WriteKeeps(s: Fs, pending: set<nat>, i: nat, bn: nat, blk: Block)
    requires Inv(s, pending) && i < |s.inodes| && bn < MAXFILE && Ref(s, i, DataSlot(bn)) != 0
    ensures var a := Ref(s, i, DataSlot(bn));
      && a < |s.data| && Inv(SetData(s, a, blk), pending)
      && forall i', j' {:trigger IsSlot(s, i', j')} ::
        IsSlot(s, i', j') ==> Ref(SetData(s, a, blk), i', j') == Ref(s, i', j')
  {
    assert IsSlot(s, i, DataSlot(bn));
    var a := Ref(s, i, DataSlot(bn));
    var s' := SetData(s, a, blk);
    forall i', j' | IsSlot(s, i', j') ensures Ref(s', i', j') == Ref(s, i', j') {
      assert IsSlot(s, i', NDIRECT);
    }
    forall i', j' | IsSlot(s', i', j') ensures IsSlot(s, i', j') {}
    forall x: nat | s.meta <= x < |s.used| && s'.used[x] && x !in pending ensures exists i, j :: Holds(s', i, j, x) {
      var k, l :| Holds(s, k, l, x);
      assert Holds(s', k, l, x);
    }
  }

  // ---------- file contents ----------

  /** The bn-th block of file i exists. */
  ghost predicate Mapped(s: Fs, i: nat, bn: nat) {
    i < |s.inodes| && |s.inodes[i].addrs| == NDIRECT + 1 && bn < MAXFILE && Ref(s, i, DataSlot(bn)) != 0
  }

  /** Every block that the size of a file covers exists. */
  ghost predicate NoHoles(s: Fs) {
    && (forall i :: 0 <= i < |s.inodes| ==> s.inodes[i].size <= MAXFILE * BSIZE)
    && (forall i: nat, bn: nat :: i < |s.inodes| && bn * BSIZE < s.inodes[i].size ==> Mapped(s, i, bn))
  }

  ghost predicate Valid(s: Fs) {
    Inv(s, {}) && NoHoles(s)
  }

  /** The block that holds byte o of file i. */
  function BlockAt(s: Fs, i: nat, bn: nat): Block
    requires i < |s.inodes| && |s.inodes[i].addrs| == NDIRECT + 1 && bn < MAXFILE
  {
    var a := Ref(s, i, DataSlot(bn));
    if a < |s.data| then s.data[a] else ZeroBlock()
  }

  function ByteAt(s: Fs, i: nat, o: nat): Byte
    requires i < |s.inodes| && |s.inodes[i].addrs| == NDIRECT + 1 && o < MAXFILE * BSIZE
  {
    BlockAt(s, i, o / BSIZE)[o % BSIZE]
  }

  ghost function Contents(s: Fs, i: nat): seq<Byte>
    requires Shape(s) && i < |s.inodes| && s.inodes[i].size <= MAXFILE * BSIZE
  {
    seq(s.inodes[i].size, o requires 0 <= o < s.inodes[i].size => ByteAt(s, i, o))
  }

  /** All blocks that existed are where they were, with the same bytes. */
  ghost predicate Extends(s: Fs, s': Fs)
    requires Shape(s) && Shape(s')
  {
    && |s'.inodes| == |s.inodes|
    && (forall i :: 0 <= i < |s.inodes| ==> s'.inodes[i].size == s.inodes[i].size)
    && forall i: nat, bn: nat :: Mapped(s, i, bn) ==> Mapped(s', i, bn) && BlockAt(s', i, bn) == BlockAt(s, i, bn)
  }

  lemma ExtendsTrans(s: Fs, t: Fs, u: Fs)
    requires Shape(s) && Shape(t) && Shape(u) && Extends(s, t) && Extends(t, u)
    ensures Extends(s, u)
  {
    forall i: nat, bn: nat | Mapped(s, i, bn) ensures Mapped(u, i, bn) && BlockAt(u, i, bn) == BlockAt(s, i, bn) {
      assert Mapped(t, i, bn);
    }
  }

  lemma AllocExtends(s: Fs, pending: set<nat>, b: nat)
    requires Inv(s, pending) && s.meta <= b < |s.used| && !s.used[b]
    ensures Extends(s, AllocBlock(s, b))
  {
    forall i: nat, bn: nat | Mapped(s, i, bn)
      ensures Mapped(AllocBlock(s, b), i, bn) && BlockAt(AllocBlock(s, b), i, bn) == BlockAt(s, i, bn)
    {
      assert IsSlot(s, i, DataSlot(bn));
      AllocRefs(s, pending, b, i, DataSlot(bn));
    }
  }

  /** Filling an empty slot, with or without a change to an indirect block. */
  lemma LinkExtends(s: Fs, s': Fs, pending: set<nat>, i: nat, j: nat, a: nat)
    requires Inv(s, pending) && Shape(s') && IsSlot(s, i, j) && Ref(s, i, j) == 0 && SameSlots(s, s', i, j)
    requires forall k :: 0 <= k < |s.inodes| ==> s'.inodes[k].size == s.inodes[k].size
    requires |s'.data| == |s.data| && forall x :: 0 <= x < |s.data| && x != a ==> s'.data[x] == s.data[x]
    requires a != 0 ==> exists k :: 0 <= k < |s.inodes| && s.inodes[k].addrs[NDIRECT] == a
    ensures a != 0 || s'.data == s.data ==> Extends(s, s')
  {
    if a != 0 || s'.data == s.data {
      forall k: nat, bn: nat | Mapped(s, k, bn) ensures Mapped(s', k, bn) && BlockAt(s', k, bn) == BlockAt(s, k, bn) {
        assert IsSlot(s', k, DataSlot(bn)) && IsSlot(s, k, DataSlot(bn));
        if a != 0 {
          var q: nat :| q < |s.inodes| && s.inodes[q].addrs[NDIRECT] == a;
          assert IsSlot(s, q, NDIRECT);
        }
      }
    }
  }

  // ---------- how many blocks a write needs ----------

  function FreeCount(used: seq<bool>): nat {
    if used == [] then 0 else FreeCount(used[1..]) + if used[0] then 0 else 1
  }

  lemma {:induction false} FreeUpdate(used: seq<bool>, b: nat)
    requires b < |used| && !used[b]
    ensures FreeCount(used[b := true]) == FreeCount(used) - 1
  {
    if b == 0 {
      assert used[b := true][1..] == used[1..];
    } else {
      FreeUpdate(used[1..], b - 1);
      assert used[b := true][1..] == used[1..][b - 1 := true];
    }
  }

  /** No block is free. */
  ghost predicate Full(used: seq<bool>) { forall b :: 0 <= b < |used| ==> used[b] }

  lemma {:induction false} FullCount(used: seq<bool>)
    ensures Full(used) <==> FreeCount(used) == 0
  {
    if used != [] {
      FullCount(used[1..]);
      assert used == [used[0]] + used[1..];
    }
  }

  /** The blocks bmap allocates for block bn of file i: the block, and an indirect block
      that is missing. */
  ghost function Need(s: Fs, i: nat, bn: nat): nat
    requires Shape(s) && i < |s.inodes|
  {
    (if Mapped(s, i, bn) then 0 else 1) + if bn >= NDIRECT && s.inodes[i].addrs[NDIRECT] == 0 then 1 else 0
  }

  ghost function Unmapped(s: Fs, i: nat, lo: nat, hi: nat): nat
    requires lo <= hi
    decreases hi - lo
  {
    if lo == hi then 0 else Unmapped(s, i, lo + 1, hi) + if Mapped(s, i, lo) then 0 else 1
  }

  /** The same for the blocks from lo up to hi. */
  ghost function Cost(s: Fs, i: nat, lo: nat, hi: nat): nat
    requires Shape(s) && i < |s.inodes| && lo <= hi
  {
    Unmapped(s, i, lo, hi) + if lo < hi && hi > NDIRECT && s.inodes[i].addrs[NDIRECT] == 0 then 1 else 0
  }

  /** From s to s' block bn of file i was mapped, and no other. */
  ghost predicate MapsOne(s: Fs, s': Fs, i: nat, bn: nat)
    requires Shape(s) && Shape(s') && i < |s.inodes| && i < |s'.inodes|
  {
    && Mapped(s', i, bn) && (forall c: nat :: c != bn ==> (Mapped(s', i, c) <==> Mapped(s, i, c)))
    && (s'.inodes[i].addrs[NDIRECT] != 0 <==> s.inodes[i].addrs[NDIRECT] != 0 || bn >= NDIRECT)
    && FreeCount(s'.used) == FreeCount(s.used) - Need(s, i, bn)
  }

  lemma {:induction false} UnmappedSame(s: Fs, s': Fs, i: nat, lo: nat, hi: nat)
    requires lo <= hi && forall c: nat :: lo <= c < hi ==> (Mapped(s', i, c) <==> Mapped(s, i, c))
    ensures Unmapped(s', i, lo, hi) == Unmapped(s, i, lo, hi)
    decreases hi - lo
  {
    if lo < hi { UnmappedSame(s, s', i, lo + 1, hi); }
  }

  lemma {:induction false} UnmappedSplit(s: Fs, i: nat, lo: nat, m: nat, hi: nat)
    requires lo <= m <= hi
    ensures Unmapped(s, i, lo, hi) == Unmapped(s, i, lo, m) + Unmapped(s, i, m, hi)
    decreases m - lo
  {
    if lo < m { UnmappedSplit(s, i, lo + 1, m, hi); }
  }

  lemma {:induction false} NoneUnmapped(s: Fs, i: nat, lo: nat, hi: nat)
    requires lo <= hi && forall c: nat :: lo <= c < hi ==> Mapped(s, i, c)
    ensures Unmapped(s, i, lo, hi) == 0
    decreases hi - lo
  {
    if lo < hi { NoneUnmapped(s, i, lo + 1, hi); }
  }

  /** From s to s' the blocks of file i from lo up to hi were mapped, and no other. */
  ghost predicate MapsRange(s: Fs, s': Fs, i: nat, lo: nat, hi: nat) {
    && Shape(s) && Shape(s') && i < |s.inodes| && i < |s'.inodes| && lo <= hi
    && (forall c: nat :: Mapped(s', i, c) <==> Mapped(s, i, c) || lo <= c < hi)
    && (s'.inodes[i].addrs[NDIRECT] != 0 <==> s.inodes[i].addrs[NDIRECT] != 0 || (lo < hi && hi > NDIRECT))
    && FreeCount(s'.used) + Cost(s, i, lo, hi) == FreeCount(s.used)
  }

  /** What a range costs is what a first part costs and what the rest costs then; the rest may
      start inside the first part. */
  lemma CostJoin(s: Fs, s': Fs, i: nat, lo: nat, m': nat, m: nat, hi: nat)
    requires MapsRange(s, s', i, lo, m) && lo <= m' <= m <= hi
    ensures Cost(s, i, lo, hi) == Cost(s, i, lo, m) + Cost(s', i, m', hi)
  {
    hide Mapped, Shape;
    UnmappedSplit(s, i, lo, m, hi);
    UnmappedSplit(s', i, m', m, hi);
    NoneUnmapped(s', i, m', m);
    UnmappedSame(s, s', i, m, hi);
    hide Unmapped;
  }

  lemma RangeJoin(s: Fs, s': Fs, s'': Fs, i: nat, lo: nat, m': nat, m: nat, hi: nat)
    requires MapsRange(s, s', i, lo, m) && MapsRange(s', s'', i, m', hi) && lo <= m' <= m <= hi
    ensures MapsRange(s, s'', i, lo, hi)
  {
    CostJoin(s, s', i, lo, m', m, hi);
    hide Mapped, Shape, Cost;
  }

  lemma OneIsRange(s: Fs, s': Fs, i: nat, bn: nat)
    requires Shape(s) && Shape(s') && i < |s.inodes| && i < |s'.inodes| && MapsOne(s, s', i, bn)
    ensures MapsRange(s, s', i, bn, bn + 1)
  {
    hide Mapped, Shape;
    assert Unmapped(s, i, bn + 1, bn + 1) == 0;
  }

  lemma EmptyRange(s: Fs, i: nat, lo: nat)
    requires Shape(s) && i < |s.inodes|
    ensures MapsRange(s, s, i, lo, lo)
  {
  }

  /** Too few blocks for a part are too few for the whole. */
  lemma CostMono(s: Fs, i: nat, lo: nat, m: nat, hi: nat)
    requires Shape(s) && i < |s.inodes| && lo <= m <= hi
    ensures Cost(s, i, lo, m) <= Cost(s, i, lo, hi)
  {
    UnmappedSplit(s, i, lo, m, hi);
  }

  /** bmap's steps reach their slot and no other. */
  lemma SlotMapped(s: Fs, s': Fs, i: nat, bn: nat)
    requires Shape(s) && Shape(s') && i < |s.inodes| && bn < MAXFILE && SameSlots(s, s', i, DataSlot(bn))
    ensures forall c: nat :: c != bn ==> (Mapped(s', i, c) <==> Mapped(s, i, c))
  {
    forall c: nat | c != bn ensures Mapped(s', i, c) <==> Mapped(s, i, c) {
      if c < MAXFILE { assert IsSlot(s', i, DataSlot(c)); }
    }
  }

  // ---------- one chunk of writei ----------

  /** b with the bytes of chunk at offset p. */
  function Patch(b: Block, p: nat, chunk: seq<Byte>): Block
    requires p + |chunk| <= BSIZE
  {
    b[..p] + chunk + b[p + |chunk|..]
  }

  ghost predicate InChunk(off: nat, n: nat, o: nat) {
    off <= o < off + n
  }

  /** Writing chunk at offset off, within one block: bytes of this file change exactly
      there, and no byte of another file changes. */
  lemma ChunkBytes(s: Fs, i: nat, off: nat, chunk: seq<Byte>, k: nat, o: nat)
    requires Inv(s, {}) && Mapped(s, i, off / BSIZE) && off % BSIZE + |chunk| <= BSIZE
    requires k < |s.inodes| && o < MAXFILE * BSIZE && Mapped(s, k, o / BSIZE)
    ensures var a := Ref(s, i, DataSlot(off / BSIZE));
      && a < |s.data| && k < |SetData(s, a, ZeroBlock()).inodes|
      && ByteAt(SetData(s, a, Patch(s.data[a], off % BSIZE, chunk)), k, o) ==
        if k == i && off <= o < off + |chunk| then chunk[o - off] else ByteAt(s, k, o)
  {
    var bn := off / BSIZE;
    var a := Ref(s, i, DataSlot(bn));
    assert IsSlot(s, i, DataSlot(bn)) && IsSlot(s, k, DataSlot(o / BSIZE));
    WriteKeeps(s, {}, i, bn, Patch(s.data[a], off % BSIZE, chunk));
    assert o == o / BSIZE * BSIZE + o % BSIZE && off == bn * BSIZE + off % BSIZE;
    if k == i && o / BSIZE == bn {
      assert off <= o < off + |chunk| <==> off % BSIZE <= o % BSIZE < off % BSIZE + |chunk|;
    }
  }

  /** What writei makes of a file's contents. */
  function Splice(c: seq<Byte>, off: nat, src: seq<Byte>): seq<Byte>
    requires off <= |c|
  {
    c[..off] + src + if off + |src| < |c| then c[off + |src|..] else []
  }

  /** From s to s', chunk was written at offset off of file i, in one block. */
  ghost predicate Chunked(s: Fs, s': Fs, i: nat, off: nat, chunk: seq<Byte>)
    requires Shape(s) && Shape(s') && i < |s.inodes|
  {
    && |s'.inodes| == |s.inodes|
    && (forall k :: 0 <= k < |s.inodes| ==> s'.inodes[k].size == s.inodes[k].size)
    && Mapped(s', i, off / BSIZE)
    && (forall k: nat, bn: nat :: Mapped(s, k, bn) ==> Mapped(s', k, bn))
    && (forall k: nat, o: nat {:trigger ByteAt(s', k, o)} ::
          k < |s.inodes| && o < MAXFILE * BSIZE && Mapped(s, k, o / BSIZE) ==>
          ByteAt(s', k, o) == if k == i && InChunk(off, |chunk|, o) then chunk[o - off] else ByteAt(s, k, o))
    && (forall o: nat {:trigger ByteAt(s', i, o)} ::
          o < MAXFILE * BSIZE && InChunk(off, |chunk|, o) ==> ByteAt(s', i, o) == chunk[o - off])
  }

  /** bmap followed by the copy into the block. */
  lemma ChunkedBy(s: Fs, s1: Fs, i: nat, off: nat, chunk: seq<Byte>)
    requires Inv(s1, {}) && Shape(s) && Extends(s, s1) && i < |s.inodes| && Mapped(s1, i, off / BSIZE)
    requires off % BSIZE + |chunk| <= BSIZE
    ensures var a := Ref(s1, i, DataSlot(off / BSIZE));
      && 0 < a < |s1.data|
      && var s' := SetData(s1, a, Patch(s1.data[a], off % BSIZE, chunk));
        && Inv(s', {}) && Chunked(s, s', i, off, chunk) && Ref(s', i, DataSlot(off / BSIZE)) == a
  {
    var bn := off / BSIZE;
    assert IsSlot(s1, i, DataSlot(bn));
    var a := Ref(s1, i, DataSlot(bn));
    var s' := SetData(s1, a, Patch(s1.data[a], off % BSIZE, chunk));
    WriteKeeps(s1, {}, i, bn, Patch(s1.data[a], off % BSIZE, chunk));
    forall k: nat, bn: nat | Mapped(s, k, bn) ensures Mapped(s', k, bn) {
      assert Mapped(s1, k, bn) && IsSlot(s1, k, DataSlot(bn));
    }
    forall k: nat, o: nat | k < |s.inodes| && o < MAXFILE * BSIZE && Mapped(s1, k, o / BSIZE)
      ensures ByteAt(s', k, o) == if k == i && InChunk(off, |chunk|, o) then chunk[o - off] else ByteAt(s1, k, o)
    {
      ChunkBytes(s1, i, off, chunk, k, o);
    }
    forall k: nat, o: nat | k < |s.inodes| && o < MAXFILE * BSIZE && Mapped(s, k, o / BSIZE)
      ensures ByteAt(s', k, o) == if k == i && InChunk(off, |chunk|, o) then chunk[o - off] else ByteAt(s, k, o)
    {
      assert Mapped(s1, k, o / BSIZE);
    }
    forall o: nat | o < MAXFILE * BSIZE && InChunk(off, |chunk|, o) ensures ByteAt(s', i, o) == chunk[o - off] {
      assert o / BSIZE == bn;
    }
  }

  /** writei from s0, after the first tot bytes of src. */
  ghost predicate Written(s0: Fs, s: Fs, i: nat, off: nat, src: seq<Byte>, tot: nat)
    requires Shape(s0) && Shape(s) && i < |s0.inodes| && tot <= |src|
  {
    && |s.inodes| == |s0.inodes| && NoHoles(s0) && NoHoles(s)
    && (forall k :: 0 <= k < |s.inodes| ==> s.inodes[k].size == s0.inodes[k].size)
    && (forall k: nat, o: nat {:trigger ByteAt(s, k, o)} :: k < |s.inodes| && o < s0.inodes[k].size ==>
          ByteAt(s, k, o) == if k == i && InChunk(off, tot, o) then src[o - off] else ByteAt(s0, k, o))
    && (forall o: nat {:trigger ByteAt(s, i, o)} ::
          o < MAXFILE * BSIZE && InChunk(off, tot, o) ==> ByteAt(s, i, o) == src[o - off])
    && (forall bn: nat :: bn < MAXFILE && off < (bn + 1) * BSIZE && bn * BSIZE < off + tot ==> Mapped(s, i, bn))
  }

  lemma WriteStep(s0: Fs, s: Fs, s': Fs, i: nat, off: nat, src: seq<Byte>, tot: nat, m: nat)
    requires Shape(s0) && Shape(s) && Shape(s') && i < |s0.inodes| && tot + m <= |src|
    requires Written(s0, s, i, off, src, tot) && off + |src| <= MAXFILE * BSIZE
    requires (off + tot) % BSIZE + m <= BSIZE && Chunked(s, s', i, off + tot, src[tot..tot + m])
    requires tot > 0 ==> (off + tot) % BSIZE == 0
    ensures Written(s0, s', i, off, src, tot + m)
  {
    forall k: nat, bn: nat | k < |s'.inodes| && bn * BSIZE < s'.inodes[k].size ensures Mapped(s', k, bn) {
      assert Mapped(s, k, bn);
    }
    forall k: nat, o: nat | k < |s.inodes| && o < s0.inodes[k].size
      ensures ByteAt(s', k, o) == if k == i && InChunk(off, tot + m, o) then src[o - off] else ByteAt(s0, k, o)
    {
      assert Mapped(s, k, o / BSIZE);
      assert ByteAt(s, k, o) == if k == i && InChunk(off, tot, o) then src[o - off] else ByteAt(s0, k, o);
    }
    forall o: nat | o < MAXFILE * BSIZE && InChunk(off, tot + m, o) ensures ByteAt(s', i, o) == src[o - off] {
      if o < off + tot {
        assert Mapped(s, i, o / BSIZE);
        assert ByteAt(s, i, o) == src[o - off];
      }
    }
    forall bn: nat | bn < MAXFILE && off < (bn + 1) * BSIZE && bn * BSIZE < off + tot + m ensures Mapped(s', i, bn) {
      if bn * BSIZE < off + tot {
        assert Mapped(s, i, bn);
      } else {
        assert bn == (off + tot) / BSIZE;
      }
    }
  }

  /** Bytes stored behind the end of the file do not count. */
  lemma WrittenCut(s0: Fs, s: Fs, i: nat, off: nat, src: seq<Byte>, tot: nat, c: nat)
    requires Shape(s0) && Shape(s) && i < |s0.inodes| && c <= tot <= |src| && Written(s0, s, i, off, src, tot)
    requires c < tot ==> s0.inodes[i].size <= off + c
    ensures Written(s0, s, i, off, src[..c], c)
  {
  }

  /** src has been written at off: file i is spliced, other files are as before. */
  ghost predicate FileWritten(s0: Fs, s: Fs, i: nat, off: nat, src: seq<Byte>)
    requires Valid(s0) && i < |s0.inodes| && off <= s0.inodes[i].size
  {
    && Valid(s) && |s.inodes| == |s0.inodes|
    && Contents(s, i) == Splice(Contents(s0, i), off, src)
    && forall k :: 0 <= k < |s0.inodes| && k != i ==> Contents(s, k) == Contents(s0, k)
  }

  lemma SpliceSplice(c: seq<Byte>, off: nat, a: seq<Byte>, b: seq<Byte>)
    requires off <= |c|
    ensures off + |a| <= |Splice(c, off, a)|
    ensures Splice(Splice(c, off, a), off + |a|, b) == Splice(c, off, a + b)
  {
    var x, y := Splice(Splice(c, off, a), off + |a|, b), Splice(c, off, a + b);
    assert |x| == |y|;
    forall q | 0 <= q < |x| ensures x[q] == y[q] {}
  }

  /** Writing a and then b behind it is writing both at once. */
  lemma WrittenTwice(s: Fs, t: Fs, u: Fs, i: nat, off: nat, a: seq<Byte>, b: seq<Byte>)
    requires Valid(s) && i < |s.inodes| && off <= s.inodes[i].size && FileWritten(s, t, i, off, a)
    requires off + |a| <= t.inodes[i].size && FileWritten(t, u, i, off + |a|, b)
    ensures FileWritten(s, u, i, off, a + b)
  {
    SpliceSplice(Contents(s, i), off, a, b);
  }

  lemma WrittenSize(s: Fs, t: Fs, i: nat, off: nat, a: seq<Byte>)
    requires Valid(s) && i < |s.inodes| && off <= s.inodes[i].size && FileWritten(s, t, i, off, a)
    ensures i < |t.inodes| && off + |a| <= t.inodes[i].size <= MAXFILE * BSIZE
  {
    assert |Contents(t, i)| == t.inodes[i].size;
  }

  lemma WrittenNone(s: Fs, i: nat, off: nat)
    requires Valid(s) && i < |s.inodes| && off <= s.inodes[i].size
    ensures FileWritten(s, s, i, off, [])
  {
    assert Splice(Contents(s, i), off, []) == Contents(s, i);
  }

  /** The file after writei. */
  lemma WriteDone(s0: Fs, s: Fs, i: nat, off: nat, src: seq<Byte>)
    requires Valid(s0) && Inv(s, {}) && i < |s0.inodes| && Written(s0, s, i, off, src, |src|)
    requires off <= s0.inodes[i].size && off + |src| <= MAXFILE * BSIZE
    ensures var size := if off + |src| > s0.inodes[i].size then off + |src| else s0.inodes[i].size;
      var s' := s.(inodes := s.inodes[i := s.inodes[i].(size := size)]);
      FileWritten(s0, s', i, off, src)
  {
    var size := if off + |src| > s0.inodes[i].size then off + |src| else s0.inodes[i].size;
    var s' := s.(inodes := s.inodes[i := s.inodes[i].(size := size)]);
    hide Inv, Written, Contents, NoHoles;
    SizeOnly(s, i, size);
    DoneHoles(s0, s, i, off, src, size);
    DoneContents(s0, s, i, off, src, size);
    forall k: nat | k < |s0.inodes| && k != i ensures Contents(s', k) == Contents(s0, k) {
      DoneOthers(s0, s, i, off, src, size, k);
    }
  }

  /** writei's loop is over and the file's size becomes size. */
  ghost predicate Finished(s0: Fs, s: Fs, i: nat, off: nat, src: seq<Byte>, size: nat) {
    && Valid(s0) && Inv(s, {}) && i < |s0.inodes| && Written(s0, s, i, off, src, |src|)
    && off <= s0.inodes[i].size && off + |src| <= MAXFILE * BSIZE
    && size == if off + |src| > s0.inodes[i].size then off + |src| else s0.inodes[i].size
  }

  lemma DoneHoles(s0: Fs, s: Fs, i: nat, off: nat, src: seq<Byte>, size: nat)
    requires Finished(s0, s, i, off, src, size)
    ensures |s.inodes| == |s0.inodes| && NoHoles(s.(inodes := s.inodes[i := s.inodes[i].(size := size)]))
  {
    var s' := s.(inodes := s.inodes[i := s.inodes[i].(size := size)]);
    SizeOnly(s, i, size);
    hide Inv;
    forall k: nat, bn: nat | k < |s'.inodes| && bn * BSIZE < s'.inodes[k].size ensures Mapped(s', k, bn) {
      assert Mapped(s, k, bn);
    }
  }

  lemma DoneContents(s0: Fs, s: Fs, i: nat, off: nat, src: seq<Byte>, size: nat)
    requires Finished(s0, s, i, off, src, size) && |s.inodes| == |s0.inodes|
    ensures var s' := s.(inodes := s.inodes[i := s.inodes[i].(size := size)]);
      Shape(s') && size <= MAXFILE * BSIZE && Contents(s', i) == Splice(Contents(s0, i), off, src)
  {
    var s' := s.(inodes := s.inodes[i := s.inodes[i].(size := size)]);
    hide Inv;
    SizeOnly(s, i, size);
    var c := Splice(Contents(s0, i), off, src);
    forall o: nat | o < size ensures Contents(s', i)[o] == c[o] {
      assert ByteAt(s', i, o) == ByteAt(s, i, o);
    }
  }

  lemma DoneOthers(s0: Fs, s: Fs, i: nat, off: nat, src: seq<Byte>, size: nat, k: nat)
    requires Finished(s0, s, i, off, src, size) && |s.inodes| == |s0.inodes| && k < |s0.inodes| && k != i
    ensures var s' := s.(inodes := s.inodes[i := s.inodes[i].(size := size)]);
      Shape(s') && s'.inodes[k].size <= MAXFILE * BSIZE && Contents(s', k) == Contents(s0, k)
  {
    var s' := s.(inodes := s.inodes[i := s.inodes[i].(size := size)]);
    SizeOnly(s, i, size);
    hide Inv;
    forall o: nat | o < s0.inodes[k].size ensures ByteAt(s', k, o) == ByteAt(s0, k, o) {
      assert ByteAt(s', k, o) == ByteAt(s, k, o);
    }
  }

  lemma SizeOnly(s: Fs, i: nat, size: nat)
    requires Inv(s, {}) && i < |s.inodes|
    ensures var s' := s.(inodes := s.inodes[i := s.inodes[i].(size := size)]);
      && Inv(s', {})
      && (forall k: nat, bn: nat :: Mapped(s', k, bn) <==> Mapped(s, k, bn))
      && (forall k: nat, o: nat {:trigger ByteAt(s', k, o)} ::
            k < |s.inodes| && o < MAXFILE * BSIZE ==> ByteAt(s', k, o) == ByteAt(s, k, o))
  {
    var s' := s.(inodes := s.inodes[i := s.inodes[i].(size := size)]);
    forall k: nat, j: nat | IsSlot(s', k, j) ensures IsSlot(s, k, j) && Ref(s', k, j) == Ref(s, k, j) {}
    forall x: nat | s.meta <= x < |s.used| && s.used[x] ensures exists k, j :: Holds(s', k, j, x) {
      var k, j :| Holds(s, k, j, x);
      assert Holds(s', k, j, x);
    }
  }

  // ---------- itrunc ----------

  /** Block b is in one of the slots [from, to) of inode i. */
  ghost predicate InSlots(s: Fs, i: nat, from: nat, to: nat, b: nat)
    requires Shape(s) && i < |s.inodes| && to <= SLOTS
  {
    b != 0 && exists j: nat :: from <= j < to && Holds(s, i, j, b)
  }

  /** s' is s without the blocks in slots [from, to) of inode i. */
  ghost predicate SlotsFreed(s: Fs, s': Fs, i: nat, from: nat, to: nat)
    requires Shape(s) && i < |s.inodes| && to <= SLOTS
  {
    && |s'.used| == |s.used| && s'.meta == s.meta && s'.data == s.data
    && forall b: nat :: b < |s.used| ==> (s'.used[b] <==> s.used[b] && !InSlots(s, i, from, to, b))
  }

  /** A block is in the slots [from, to) of inode i exactly when its one slot is. */
  lemma SlotOwner(s: Fs, i: nat, from: nat, to: nat, k: nat, j: nat)
    requires Inv(s, {}) && i < |s.inodes| && to <= SLOTS && IsSlot(s, k, j) && Ref(s, k, j) != 0
    ensures InSlots(s, i, from, to, Ref(s, k, j)) <==> k == i && from <= j < to
  {
    var b := Ref(s, k, j);
    if InSlots(s, i, from, to, b) {
      var l: nat :| from <= l < to && Holds(s, i, l, b);
      assert IsSlot(s, i, l);
    }
    if k == i && from <= j < to { assert Holds(s, i, j, b); }
  }

  lemma SlotsAboveMeta(s: Fs, i: nat, from: nat, to: nat, b: nat)
    requires Inv(s, {}) && i < |s.inodes| && to <= SLOTS
    ensures InSlots(s, i, from, to, b) ==> b >= s.meta
  {
    if InSlots(s, i, from, to, b) {
      var l: nat :| from <= l < to && Holds(s, i, l, b);
      assert IsSlot(s, i, l);
    }
  }

  /** Emptying slots and clearing the bits of exactly their blocks keeps the invariant. */
  lemma UnlinkKeeps(s: Fs, s': Fs, i: nat, from: nat, to: nat)
    requires Inv(s, {}) && i < |s.inodes| && from <= to <= SLOTS && SlotsFreed(s, s', i, from, to) && Shape(s')
    requires |s'.inodes| == |s.inodes|
    requires forall k: nat, j: nat {:trigger IsSlot(s', k, j)} :: IsSlot(s', k, j) ==>
      Ref(s', k, j) == if k == i && from <= j < to then 0 else Ref(s, k, j)
    ensures Inv(s', {})
  {
    forall k: nat, j: nat | IsSlot(s', k, j) && Ref(s', k, j) != 0
      ensures s.meta <= Ref(s', k, j) < |s.used| && s'.used[Ref(s', k, j)]
    {
      assert IsSlot(s, k, j);
      SlotOwner(s, i, from, to, k, j);
    }
    forall k: nat, l: nat, k': nat, l': nat
      | IsSlot(s', k, l) && IsSlot(s', k', l') && Ref(s', k, l) != 0 && Ref(s', k, l) == Ref(s', k', l')
      ensures k == k' && l == l'
    {
      assert IsSlot(s, k, l) && IsSlot(s, k', l');
    }
    forall b: nat | b < s.meta ensures s'.used[b] {
      SlotsAboveMeta(s, i, from, to, b);
    }
    forall b: nat | s.meta <= b < |s.used| && s'.used[b] ensures exists k, j :: Holds(s', k, j, b) {
      var k: nat, j: nat :| Holds(s, k, j, b);
      assert IsSlot(s', k, j);
      assert Holds(s', k, j, b);
    }
  }

  /** Freeing what slot j holds, after the slots from from on. */
  lemma FreedNext(s: Fs, used: seq<bool>, i: nat, from: nat, j: nat)
    requires Inv(s, {}) && i < |s.inodes| && from <= j < SLOTS && |used| == |s.used|
    requires SlotsFreed(s, s.(used := used), i, from, j)
    ensures Ref(s, i, j) == 0 ==> SlotsFreed(s, s.(used := used), i, from, j + 1)
    ensures Ref(s, i, j) != 0 ==> Ref(s, i, j) < |used| && used[Ref(s, i, j)]
    ensures Ref(s, i, j) != 0 ==> SlotsFreed(s, s.(used := used[Ref(s, i, j) := false]), i, from, j + 1)
  {
    var a := Ref(s, i, j);
    assert IsSlot(s, i, j);
    forall b: nat | b < |s.used|
      ensures InSlots(s, i, from, j + 1, b) <==> InSlots(s, i, from, j, b) || (b == a && a != 0)
    {
      if InSlots(s, i, from, j + 1, b) && !InSlots(s, i, from, j, b) {
        var l: nat :| from <= l < j + 1 && Holds(s, i, l, b);
        assert !(l < j);
      }
      if b == a && a != 0 { assert Holds(s, i, j, b); }
    }
    if a != 0 { SlotOwner(s, i, from, j, i, j); }
  }

  /** Freeing the indirect block itself, after all its entries. */
  lemma FreedIndirect(s: Fs, used: seq<bool>, i: nat)
    requires Inv(s, {}) && i < |s.inodes| && |used| == |s.used| && s.inodes[i].addrs[NDIRECT] != 0
    requires SlotsFreed(s, s.(used := used), i, NDIRECT + 1, SLOTS)
    ensures var a := s.inodes[i].addrs[NDIRECT];
      a < |used| && used[a] && SlotsFreed(s, s.(used := used[a := false]), i, NDIRECT, SLOTS)
  {
    var a := s.inodes[i].addrs[NDIRECT];
    assert IsSlot(s, i, NDIRECT) && Ref(s, i, NDIRECT) == a;
    SlotOwner(s, i, NDIRECT + 1, SLOTS, i, NDIRECT);
    forall b: nat | b < |s.used|
      ensures InSlots(s, i, NDIRECT, SLOTS, b) <==> InSlots(s, i, NDIRECT + 1, SLOTS, b) || b == a
    {
      if InSlots(s, i, NDIRECT, SLOTS, b) && b != a {
        var l: nat :| NDIRECT <= l < SLOTS && Holds(s, i, l, b);
        assert l > NDIRECT;
      }
      if b == a { assert Holds(s, i, NDIRECT, b); }
      if InSlots(s, i, NDIRECT + 1, SLOTS, b) {
        var l: nat :| NDIRECT + 1 <= l < SLOTS && Holds(s, i, l, b);
        assert NDIRECT <= l;
      }
    }
  }

  /** After itrunc exactly the blocks of inode i are free again, it is empty, and other
      files are as they were. */
  lemma TruncDone(s: Fs, s': Fs, i: nat)
    requires Valid(s) && i < |s.inodes| && SlotsFreed(s, s', i, 0, SLOTS) && |s'.inodes| == |s.inodes|
    requires s'.inodes == s.inodes[i := Inode(0, seq(NDIRECT + 1, _ => 0))]
    ensures Valid(s') && Contents(s', i) == []
    ensures forall k :: 0 <= k < |s.inodes| && k != i ==> Contents(s', k) == Contents(s, k)
  {
    UnlinkKeeps(s, s', i, 0, SLOTS);
    forall k: nat, bn: nat | k < |s.inodes| && k != i && Mapped(s, k, bn)
      ensures Mapped(s', k, bn) && BlockAt(s', k, bn) == BlockAt(s, k, bn)
    {
      assert IsSlot(s', k, DataSlot(bn)) && IsSlot(s, k, DataSlot(bn));
    }
    forall k: nat, bn: nat | k < |s'.inodes| && bn * BSIZE < s'.inodes[k].size ensures Mapped(s', k, bn) {
      assert k != i && Mapped(s, k, bn);
    }
    forall k: nat | k < |s.inodes| && k != i ensures Contents(s', k) == Contents(s, k) {
      forall o: nat | o < s.inodes[k].size ensures ByteAt(s', k, o) == ByteAt(s, k, o) {
        assert o / BSIZE * BSIZE <= o;
        assert Mapped(s, k, o / BSIZE);
      }
    }
  }

  /** Slots freed in two stages: the direct ones, then the rest. */
  lemma FreedTwice(s: Fs, s1: Fs, s2: Fs, i: nat)
    requires Inv(s, {}) && Shape(s1) && i < |s.inodes| && i < |s1.inodes|
    requires SlotsFreed(s, s1, i, 0, NDIRECT) && SlotsFreed(s1, s2, i, NDIRECT, SLOTS)
    requires forall j: nat :: NDIRECT <= j < SLOTS ==> Ref(s1, i, j) == Ref(s, i, j)
    ensures SlotsFreed(s, s2, i, 0, SLOTS)
  {
    forall b: nat | b < |s.used|
      ensures InSlots(s, i, 0, SLOTS, b) <==> InSlots(s, i, 0, NDIRECT, b) || InSlots(s1, i, NDIRECT, SLOTS, b)
    {
      if InSlots(s, i, 0, SLOTS, b) {
        var l: nat :| l < SLOTS && Holds(s, i, l, b);
        if l >= NDIRECT { assert Holds(s1, i, l, b); }
      }
      if InSlots(s1, i, NDIRECT, SLOTS, b) {
        var l: nat :| NDIRECT <= l < SLOTS && Holds(s1, i, l, b);
        assert Holds(s, i, l, b);
      }
      if InSlots(s, i, 0, NDIRECT, b) {
        var l: nat :| l < NDIRECT && Holds(s, i, l, b);
        assert l < SLOTS;
      }
    }
  }
}
