/** How the allocator's state lies in memory: the bitmaps are bits of one byte array behind
    the sz_info records, and the free list of size k is a ring through its head, in record k,
    and the first leaves of the free blocks. */
module BuddyStore {
  import opened Buddy
  import opened BuddyAddr
  import opened BuddyLayout
  import opened Bits
  import opened List

  // ---------- bitmaps ----------

  /** Bit b of bitmap s, counted from bd_base. */
  function BitAt(max: nat, s: nat, b: nat): nat
    requires s <= 2 * max
  {
    8 * Offset(max, s) + b
  }

  /** A bit of bitmap s; the last byte may have more bits than there are blocks. */
  predicate InBitmap(max: nat, s: nat, b: nat) {
    s <= 2 * max && b < 8 * BitmapBytes(max - SizeOf(max, s))
  }

  predicate HasBit(h: Heap, s: nat, b: nat) {
    if s <= h.max then (s, b) in h.alloc else (s - h.max, b) in h.split
  }

  ghost predicate BitMatches(h: Heap, a: seq<bv8>, s: nat, b: nat)
    requires s <= 2 * h.max
  {
    BitAt(h.max, s, b) < 8 * |a| && (IsSet(a, BitAt(h.max, s, b)) <==> HasBit(h, s, b))
  }

  ghost predicate BitsMatch(h: Heap, a: seq<bv8>) {
    && |a| == MetaBytes(h.max)
    && forall s, b {:trigger BitMatches(h, a, s, b)} ::
      s >= 0 && b >= 0 && InBitmap(h.max, s, b) ==> BitMatches(h, a, s, b)
  }

  lemma BitInside(max: nat, s: nat, b: nat)
    requires InBitmap(max, s, b)
    ensures BitAt(max, s, b) < 8 * MetaBytes(max)
  {
    OffsetMono(max, s, 2 * max + 1);
  }

  lemma BitsApart(max: nat, s: nat, b: nat, t: nat, c: nat)
    requires InBitmap(max, s, b) && InBitmap(max, t, c) && BitAt(max, s, b) == BitAt(max, t, c)
    ensures s == t && b == c
  {
    if s < t { OffsetMono(max, s, t); }
    if t < s { OffsetMono(max, t, s); }
  }

  /** Every block of the tree has its bits. */
  lemma BlockInBitmap(max: nat, k: nat, b: nat)
    requires k <= max && (b < Pow2(max - k) || (b <= Pow2(max - k) + 1 && max - k <= 2))
    ensures InBitmap(max, k, b)
    ensures k > 0 ==> InBitmap(max, max + k, b)
  {
    if max - k <= 2 { SmallPowers(); }
    assert SizeOf(max, k) == k && (k > 0 ==> SizeOf(max, max + k) == k);
    hide Pow2;
  }

  function PutBit(h: Heap, s: nat, b: nat): Heap {
    if s <= h.max then h.(alloc := h.alloc + {(s, b)}) else h.(split := h.split + {(s - h.max, b)})
  }

  function DropBit(h: Heap, s: nat, b: nat): Heap {
    if s <= h.max then h.(alloc := h.alloc - {(s, b)}) else h.(split := h.split - {(s - h.max, b)})
  }

  lemma PutMatches(h: Heap, a: seq<bv8>, a': seq<bv8>, s: nat, b: nat)
    requires BitsMatch(h, a) && InBitmap(h.max, s, b) && |a'| == |a|
    requires forall j: nat :: j < 8 * |a| ==> (IsSet(a', j) <==> j == BitAt(h.max, s, b) || IsSet(a, j))
    ensures BitsMatch(PutBit(h, s, b), a')
  {
    var h' := PutBit(h, s, b);
    hide IsSet, Offset, BitmapBytes;
    forall t, c | t >= 0 && c >= 0 && InBitmap(h'.max, t, c) ensures BitMatches(h', a', t, c) {
      assert BitMatches(h, a, t, c);
      if BitAt(h.max, s, b) == BitAt(h.max, t, c) { BitsApart(h.max, s, b, t, c); }
    }
  }

  lemma DropMatches(h: Heap, a: seq<bv8>, a': seq<bv8>, s: nat, b: nat)
    requires BitsMatch(h, a) && InBitmap(h.max, s, b) && |a'| == |a|
    requires forall j: nat :: j < 8 * |a| ==> (IsSet(a', j) <==> j != BitAt(h.max, s, b) && IsSet(a, j))
    ensures BitsMatch(DropBit(h, s, b), a')
  {
    var h' := DropBit(h, s, b);
    hide IsSet, Offset, BitmapBytes;
    forall t, c | t >= 0 && c >= 0 && InBitmap(h'.max, t, c) ensures BitMatches(h', a', t, c) {
      assert BitMatches(h, a, t, c);
      if BitAt(h.max, s, b) == BitAt(h.max, t, c) { BitsApart(h.max, s, b, t, c); }
    }
  }

  lemma ZeroBit(r: nat)
    requires r < 8
    ensures !IsOne(0, r)
  {
  }

  lemma ClearedMatches(h: Heap, a: seq<bv8>)
    requires |a| == MetaBytes(h.max) && h.alloc == {} && h.split == {} && forall i :: 0 <= i < |a| ==> a[i] == 0
    ensures BitsMatch(h, a)
  {
    forall s, b | s >= 0 && b >= 0 && InBitmap(h.max, s, b) ensures BitMatches(h, a, s, b) {
      BitInside(h.max, s, b);
      ZeroBit(BitAt(h.max, s, b) % 8);
    }
  }

  // ---------- free lists ----------

  /** The leaf of record k in bd_sizes, where the list head is. */
  function HeadAt(k: nat): nat { 2 * k }

  /** The nodes of the free list of size k, head first. */
  ghost function RingOf(k: nat, l: seq<nat>): seq<nat> {
    [HeadAt(k)] + seq(|l|, i requires 0 <= i < |l| => Addr(k, l[i]))
  }

  ghost predicate Disjoint(a: seq<nat>, b: seq<nat>) {
    forall x :: x in a ==> x !in b
  }

  /** No node is on two lists, or on one twice. */
  ghost predicate Separate(free: seq<seq<nat>>) {
    && (forall k {:trigger free[k]} :: 0 <= k < |free| ==> Distinct(RingOf(k, free[k])))
    && (forall j, k {:trigger free[j], free[k]} :: 0 <= j < |free| && 0 <= k < |free| && j != k ==>
          Disjoint(RingOf(j, free[j]), RingOf(k, free[k])))
  }

  ghost predicate Rings(m: Links, free: seq<seq<nat>>) {
    forall k {:trigger free[k]} :: 0 <= k < |free| ==> Ring(m, RingOf(k, free[k]))
  }

  lemma RingPush(k: nat, b: nat, l: seq<nat>)
    ensures RingOf(k, [b] + l) == [HeadAt(k), Addr(k, b)] + RingOf(k, l)[1..]
    ensures RingOf(k, l)[0] == HeadAt(k) && RingOf(k, l) == [HeadAt(k)] + RingOf(k, l)[1..]
  {
    var r := [HeadAt(k), Addr(k, b)] + RingOf(k, l)[1..];
    assert forall i :: 2 <= i < |r| ==> r[i] == Addr(k, l[i - 2]);
  }

  lemma RingRemove(k: nat, l: seq<nat>, i: nat)
    requires i < |l|
    ensures RingOf(k, l)[i + 1] == Addr(k, l[i]) && |RingOf(k, l)| == |l| + 1
    ensures RingOf(k, l[..i] + l[i + 1..]) == RingOf(k, l)[..i + 1] + RingOf(k, l)[i + 2..]
  {
  }

  /** A change confined to nodes of ring k leaves the other rings alone. */
  lemma OthersStay(m: Links, m': Links, free: seq<seq<nat>>, k: nat, l: seq<nat>, touched: seq<nat>)
    requires Rings(m, free) && k < |free| && Untouched(m, m', touched) && Ring(m', RingOf(k, l))
    requires forall j :: 0 <= j < |free| && j != k ==> Disjoint(RingOf(j, free[j]), touched)
    ensures Rings(m', free[k := l])
  {
    forall j | 0 <= j < |free| && j != k ensures Ring(m', RingOf(j, free[j])) {
      assert Disjoint(RingOf(j, free[j]), touched);
      OtherRing(m, m', touched, RingOf(j, free[j]));
    }
  }

  lemma PushRings(m: Links, m': Links, free: seq<seq<nat>>, k: nat, b: nat)
    requires Rings(m, free) && k < |free| && Separate(free[k := [b] + free[k]])
    requires HeadAt(k) in m.next && m' == Link(m, HeadAt(k), Addr(k, b))
    ensures Rings(m', free[k := [b] + free[k]])
  {
    var f := free[k := [b] + free[k]];
    var nodes := RingOf(k, free[k]);
    assert f[k] == [b] + free[k];
    RingPush(k, b, free[k]);
    assert Ring(m, nodes);
    assert Distinct(RingOf(k, f[k]));
    assert Addr(k, b) !in nodes by {
      var r := RingOf(k, f[k]);
      assert r[1] == Addr(k, b) && r[0] == nodes[0] && forall i :: 1 <= i < |nodes| ==> nodes[i] == r[i + 1];
    }
    LinkRing(m, nodes, Addr(k, b));
    forall j | 0 <= j < |free| && j != k ensures Disjoint(RingOf(j, free[j]), RingOf(k, f[k])) {
      assert f[j] == free[j];
    }
    OthersStay(m, m', free, k, f[k], RingOf(k, f[k]));
  }

  lemma RemoveRings(m: Links, m': Links, free: seq<seq<nat>>, k: nat, i: nat)
    requires Rings(m, free) && k < |free| && i < |free[k]| && Separate(free)
    requires Untouched(m, m', RingOf(k, free[k])) && Ring(m', RingOf(k, free[k][..i] + free[k][i + 1..]))
    ensures Rings(m', free[k := free[k][..i] + free[k][i + 1..]])
  {
    forall j | 0 <= j < |free| && j != k ensures Disjoint(RingOf(j, free[j]), RingOf(k, free[k])) {
    }
    OthersStay(m, m', free, k, free[k][..i] + free[k][i + 1..], RingOf(k, free[k]));
  }

  /** Taking nodes off the front of lists keeps them separate. */
  lemma SeparateSuffix(free: seq<seq<nat>>, k: nat, n: nat)
    requires Separate(free) && k < |free| && n <= |free[k]|
    ensures Separate(free[k := free[k][n..]])
  {
    var f := free[k := free[k][n..]];
    var a, b := RingOf(k, free[k]), RingOf(k, f[k]);
    assert f[k] == free[k][n..] && b[0] == a[0] && forall i :: 1 <= i < |b| ==> b[i] == a[i + n];
    assert Distinct(a);
    forall j, l | 0 <= j < |f| && 0 <= l < |f| && j != l ensures Disjoint(RingOf(j, f[j]), RingOf(l, f[l])) {
      assert Disjoint(RingOf(j, free[j]), RingOf(l, free[l]));
    }
  }

  // ---------- the tree keeps the lists separate ----------

  /** The records, and all other metadata, are in leaves that are never free. */
  ghost predicate Fenced(h: Heap, meta: nat) {
    2 * (h.max + 1) <= meta && forall i: nat :: i < meta ==> Live(h, 0, i)
  }

  lemma AddrUp(k: nat, b: nat)
    ensures Up(Addr(k, b), k) == b
  {
    IndexOfAddr(k, b, k);
    UpDown(b, k);
  }

  /** The first leaf of a free block is not metadata. */
  lemma NodePastMeta(h: Heap, meta: nat, k: nat, b: nat)
    requires Inv(h) && Fenced(h, meta) && IsFree(h, k, b)
    ensures Addr(k, b) >= meta
  {
    var x := Addr(k, b);
    AddrUp(k, b);
    if x < meta {
      assert Live(h, 0, x);
      assert Up(x, 0) == x;
      PiecesDisjoint(h, k, b, 0, x, x);
    }
  }

  lemma NodesDiffer(h: Heap, k: nat, b: nat, j: nat, c: nat)
    requires Inv(h) && IsFree(h, k, b) && IsFree(h, j, c) && Addr(k, b) == Addr(j, c)
    ensures k == j && b == c
  {
    AddrUp(k, b);
    AddrUp(j, c);
    PiecesDisjoint(h, k, b, j, c, Addr(k, b));
  }

  lemma ListedIsFree(h: Heap, k: nat, i: nat)
    requires Inv(h) && k <= h.max && i < |h.free[k]|
    ensures IsFree(h, k, h.free[k][i])
  {
    assert InTree(h, k, h.free[k][i]) && NodeOk(h, k, h.free[k][i]);
    assert h.free[k][i] in h.free[k];
  }

  /** A node of ring k is the head or past the metadata. */
  lemma RingNode(h: Heap, meta: nat, k: nat, i: nat)
    requires Inv(h) && Fenced(h, meta) && k <= h.max && i <= |h.free[k]|
    ensures |RingOf(k, h.free[k])| == |h.free[k]| + 1
    ensures i == 0 ==> RingOf(k, h.free[k])[0] == HeadAt(k) < meta
    ensures i > 0 ==> RingOf(k, h.free[k])[i] == Addr(k, h.free[k][i - 1]) >= meta && IsFree(h, k, h.free[k][i - 1])
  {
    if i > 0 {
      ListedIsFree(h, k, i - 1);
      NodePastMeta(h, meta, k, h.free[k][i - 1]);
    }
  }

  lemma TwoNodes(h: Heap, meta: nat, j: nat, a: nat, k: nat, b: nat)
    requires Inv(h) && Fenced(h, meta) && j <= h.max && k <= h.max && a <= |h.free[j]| && b <= |h.free[k]|
    requires RingOf(j, h.free[j])[a] == RingOf(k, h.free[k])[b]
    ensures j == k && a == b
  {
    RingNode(h, meta, j, a);
    RingNode(h, meta, k, b);
    hide RingOf, Fenced, Addr;
    if a > 0 && b > 0 {
      NodesDiffer(h, j, h.free[j][a - 1], k, h.free[k][b - 1]);
      assert NoDup(h.free[j]);
    }
  }

  /** In a consistent tree all nodes are different. */
  lemma TreeSeparate(h: Heap, meta: nat)
    requires Inv(h) && Fenced(h, meta)
    ensures Separate(h.free)
  {
    assert |h.free| == h.max + 1;
    hide Inv, Fenced;
    forall k, a, b | 0 <= k < |h.free| && 0 <= a < b < |RingOf(k, h.free[k])|
      ensures RingOf(k, h.free[k])[a] != RingOf(k, h.free[k])[b]
    {
      if RingOf(k, h.free[k])[a] == RingOf(k, h.free[k])[b] { TwoNodes(h, meta, k, a, k, b); }
    }
    forall j, k | 0 <= j < |h.free| && 0 <= k < |h.free| && j != k
      ensures Disjoint(RingOf(j, h.free[j]), RingOf(k, h.free[k]))
    {
      var p, q := RingOf(j, h.free[j]), RingOf(k, h.free[k]);
      forall x | x in p ensures x !in q {
        var a :| 0 <= a < |p| && p[a] == x;
        if x in q {
          var b :| 0 <= b < |q| && q[b] == x;
          TwoNodes(h, meta, j, a, k, b);
        }
      }
    }
  }

  // ---------- users cannot reach the lists ----------

  /** No leaf of a block that a caller holds is a node of a free list. */
  lemma HeldNotNode(h: Heap, meta: nat, j: nat, c: nat, leaf: nat, k: nat)
    requires Inv(h) && Fenced(h, meta) && k <= h.max
    requires Live(h, j, c) && !(j == 0 && c < meta) && Up(leaf, j) == c
    ensures leaf !in RingOf(k, h.free[k])
  {
    var r := RingOf(k, h.free[k]);
    if leaf in r {
      var i :| 0 <= i < |r| && r[i] == leaf;
      RingNode(h, meta, k, i);
      if i == 0 {
        assert Live(h, 0, leaf) && Up(leaf, 0) == leaf;
        PiecesDisjoint(h, j, c, 0, leaf, leaf);
      } else {
        AddrUp(k, h.free[k][i - 1]);
        PiecesDisjoint(h, j, c, k, h.free[k][i - 1], leaf);
      }
    }
  }

  /** Writing anything to blocks that are held leaves every free list as it is. */
  lemma UserWrites(m: Links, m': Links, h: Heap, meta: nat, j: nat, c: nat, leaves: seq<nat>)
    requires Inv(h) && Fenced(h, meta) && Rings(m, h.free) && Live(h, j, c) && !(j == 0 && c < meta)
    requires (forall x :: x in leaves ==> Up(x, j) == c) && Untouched(m, m', leaves)
    ensures Rings(m', h.free)
  {
    forall k | 0 <= k < |h.free| ensures Ring(m', RingOf(k, h.free[k])) {
      var r := RingOf(k, h.free[k]);
      forall i | 0 <= i < |r| ensures r[i] !in leaves {
        if r[i] in leaves {
          HeldNotNode(h, meta, j, c, r[i], k);
        }
      }
      OtherRing(m, m', leaves, r);
    }
  }
}
