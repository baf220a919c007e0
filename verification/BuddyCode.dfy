/** kernel/buddy.c as code over real bitmaps (module Bits) and rings (module List). The
    ghost fields are the state of module Buddy, which the memory represents. Addresses are
    leaves from bd_base. */
module BuddyCode {
  import opened Options
  import opened Buddy
  import opened BuddyInit
  import opened BuddyLayout
  import opened BuddyAddr
  import opened BuddyStore
  import opened Bits
  import opened List

  /** Block b of size k meets the leaves [start, stop). */
  predicate Meets(start: nat, stop: nat, k: nat, b: nat) {
    Up(start, k) <= b < Over(stop, k)
  }

  lemma InitFreeNext(g: Layout, h: Heap, k: nat)
    requires k < |h.free|
    ensures InitFree(g, h, k + 1) == InitLevel(g, InitFree(g, h, k), k)
  {
  }

  lemma TopEmpty(g: Layout)
    ensures |InitLists(g, g.max)| == g.max + 1
    ensures FreeLeaves(InitLists(g, g.max), g.max + 1) == FreeLeaves(InitLists(g, g.max), g.max)
  {
  }

  lemma InitFreeStart(g: Layout, h: Heap)
    ensures InitFree(g, h, 0) == h && FreeLeaves(h.free, 0) == 0
  {
  }

  lemma InitLevelAmount(g: Layout, was: seq<seq<nat>>, free: seq<seq<nat>>, k: nat)
    requires k < g.max && was == InitLists(g, k) && free == InitLists(g, k + 1)
    ensures |was| == |free| == g.max + 1 && |was[k]| <= |free[k]|
    ensures FreeLeaves(free, k + 1) == FreeLeaves(was, k) + (|free[k]| - |was[k]|) * Pow2(k)
  {
    assert free == was[k := free[k]];
    FreeLeavesPrefix(was, k, k, free[k]);
    assert was[k] == [];
  }

  lemma {:induction false} FreeLeavesPrefix(free: seq<seq<nat>>, n: nat, k: nat, l: seq<nat>)
    requires n <= k < |free|
    ensures FreeLeaves(free[k := l], n) == FreeLeaves(free, n)
  {
    if n > 0 { FreeLeavesPrefix(free, n - 1, k, l); }
  }

  lemma {:induction false} OverPow(n: nat, k: nat)
    requires k <= n
    ensures Over(Pow2(n), k) == Pow2(n - k)
  {
    if k > 0 { OverPow(n, k - 1); }
  }

  /** Marking [0, meta) and [end, heap) marks exactly the blocks that Layout describes. */
  lemma MarksAreMarked(g: Layout, h: Heap)
    requires ValidLayout(g) && h.max == g.max && |h.free| == g.max + 1
    requires forall k: nat, b: nat :: (k, b) in h.alloc <==>
      k <= g.max && (Meets(0, g.meta, k, b) || Meets(g.end, Pow2(g.max), k, b))
    requires forall k: nat, b: nat :: (k, b) in h.split <==>
      0 < k <= g.max && (Meets(0, g.meta, k, b) || Meets(g.end, Pow2(g.max), k, b))
    ensures IsMarked(g, h)
  {
    forall k: nat, b: nat | k <= g.max
      ensures Meets(0, g.meta, k, b) || Meets(g.end, Pow2(g.max), k, b) <==> InTree(h, k, b) && Marked(g, k, b)
    {
      UpZero(k);
      OverPow(g.max, k);
      RightBounds(g, k);
      OverSmall(g.meta, g.max, k);
    }
  }

  function LeavesIn(n: int, k: nat): int { n * Pow2(k) }

  lemma LeavesAdd(a: int, b: int, k: nat)
    ensures LeavesIn(a, k) + LeavesIn(b, k) == LeavesIn(a + b, k)
  {
  }

  lemma BlkIndexUp(p: nat, k: nat)
    ensures BlkIndex(k, p) == Up(p, k)
  {
    UpIsDiv(p, k);
  }

  lemma LayoutPadded(n: nat)
    requires Manageable(n)
    ensures Padded(LayoutOf(n))
  {
    var g := LayoutOf(n);
    ManageableExact(n);
    hide Padded, Pow2, MaxSize, MetaLeaves;
    if MaxSize(n) >= 6 {
      QuarterLayout(n);
      QuarterPadded(g);
    } else {
      SmallMeta(MaxSize(n));
      SmallPadded(n / LEAF_SIZE);
    }
  }

  /** Bits of a bitmap, and the first bits behind it. */
  lemma BitBehind(max: nat, k: nat, b: nat)
    requires k < max && b <= Pow2(max - k) + 1
    ensures b < Pow2(max - k) || Pow2(max - k) < 8 ==> InBitmap(max, k, b)
    ensures b >= Pow2(max - k) >= 8 ==>
      InBitmap(max, k + 1, b - Pow2(max - k)) && BitAt(max, k, b) == BitAt(max, k + 1, b - Pow2(max - k))
  {
    PowEight(max - k);
    if b < Pow2(max - k) || Pow2(max - k) < 8 {
      BlockInBitmap(max, k, b);
    } else {
      OffsetNext(max, k);
      assert Pow2(max - k) == 2 * Pow2(max - k - 1);
      BlockInBitmap(max, k + 1, b - Pow2(max - k));
    }
  }

  /** A bitmap of eight blocks or more fills its bytes. */
  lemma {:induction false} PowEight(j: nat)
    ensures Pow2(j) < 8 <==> j <= 2
    ensures j >= 3 ==> Pow2(j) % 8 == 0 && 8 * BitmapBytes(j) == Pow2(j)
  {
    if j <= 3 {
      SmallPowers();
    } else {
      PowEight(j - 1);
    }
  }

  lemma MatchAt(h: Heap, a: seq<bv8>, k: nat, b: nat)
    requires BitsMatch(h, a) && k <= h.max && InBitmap(h.max, k, b)
    ensures BitAt(h.max, k, b) < 8 * |a| && (IsSet(a, BitAt(h.max, k, b)) <==> (k, b) in h.alloc)
  {
    assert BitMatches(h, a, k, b);
  }

  lemma QuarterPadded(g: Layout)
    requires g.max >= 2 && 0 < g.meta <= Pow2(g.max - 2)
    ensures Padded(g)
  {
    forall k | 0 <= k < g.max ensures Left(g, k) < Pow2(g.max - k) {
      if k <= g.max - 2 {
        OverSmall(g.meta, g.max - 2, k);
      } else {
        OverSmall(g.meta, g.max - 2, g.max - 2);
      }
      assert Pow2(g.max - k) == 2 * Pow2(g.max - 1 - k);
    }
  }

  lemma SmallPadded(end: nat)
    ensures Padded(Layout(4, 11, end)) && Padded(Layout(5, 13, end))
  {
    SmallPowers();
    LeftsFour(end);
    LeftsFive(end);
    hide Pow2, Left;
  }

  lemma {:induction false} OverMono(x: nat, y: nat, k: nat)
    requires x <= y
    ensures Over(x, k) <= Over(y, k)
  {
    if k > 0 { OverMono(x, y, k - 1); }
  }

  /** The lists of the first sizes are separate if all lists are. */
  lemma FewerSeparate(g: Layout, n: nat)
    requires Separate(InitLists(g, g.max)) && n <= g.max
    ensures Separate(InitLists(g, n))
    decreases g.max - n
  {
    hide Separate, LevelItems;
    if n < g.max {
      FewerSeparate(g, n + 1);
      var l := InitLists(g, n + 1);
      SeparateSuffix(l, n, |l[n]|);
      assert l[n][|l[n]|..] == [];
      assert l[n := []] == InitLists(g, n);
    }
  }

  /** bd_initfree's round for size k, on values. */
  lemma RoundFacts(g: Layout, h0: Heap, k: nat)
    requires ValidLayout(g) && Padded(g) && IsMarked(g, h0) && h0.free == InitLists(g, 0) && k < g.max
    ensures |h0.free| == g.max + 1 && InitLevel(g, InitFree(g, h0, k), k) == InitFree(g, h0, k + 1)
    ensures InitFree(g, h0, k + 1).free == InitLists(g, k + 1)
    ensures |InitLists(g, k)| == |InitLists(g, k + 1)| == g.max + 1
    ensures FreeLeaves(InitLists(g, k + 1), k + 1) == FreeLeaves(InitLists(g, k), k)
            + LeavesIn(|InitLists(g, k + 1)[k]| - |InitLists(g, k)[k]|, k)
    ensures Separate(InitLists(g, g.max)) ==> Separate(InitLists(g, k + 1))
  {
    hide IsMarked, ValidLayout, InitLevel, InitLists, FreeLeaves, InitFree, Pow2, Separate, Padded;
    InitFreeLists(g, h0, k + 1);
    InitFreeNext(g, h0, k);
    InitLevelAmount(g, InitLists(g, k), InitLists(g, k + 1), k);
    if Separate(InitLists(g, g.max)) { FewerSeparate(g, k + 1); }
  }

  /** Without a spurious block, what bd_init builds is a consistent tree that keeps the
      metadata, and so its lists are separate. */
  lemma InitialFenced(g: Layout, h: Heap)
    requires ValidLayout(g) && IsInitial(g, h) && 2 * (g.max + 1) <= g.meta
    requires forall k :: 0 <= k < g.max ==> !Spurious(g, k)
    ensures Inv(h) && Fenced(h, g.meta) && Separate(h.free)
  {
    InitialOk(g, h);
    forall i: nat | i < g.meta ensures Live(h, 0, i) {
      assert Marked(g, 0, i) && InTree(h, 0, i);
    }
    TreeSeparate(h, g.meta);
  }

  lemma {:induction false} RemoveCut(s: seq<nat>, x: nat) returns (i: nat)
    requires x in s
    ensures i < |s| && s[i] == x && Buddy.Remove(s, x) == s[..i] + s[i + 1..]
  {
    if s[0] == x {
      i := 0;
    } else {
      i := RemoveCut(s[1..], x);
      i := i + 1;
    }
  }

  /** Block b of size k is being freed: it is neither metadata nor the whole heap. */
  ghost predicate Freeing(h: Heap, meta: nat, k: nat, b: nat) {
    Inv(h) && Fenced(h, meta) && Live(h, k, b) && !(k == 0 && b < meta) && k < h.max
  }

  /** The sizes and the places of the bitmaps; q is where the metadata ends, in bytes. */
  method LayOut(n: nat) returns (g: Layout, allocs: seq<nat>, splits: seq<nat>, q: nat)
    ensures g == LayoutOf(n) && q == MetaBytes(g.max) && |allocs| == |splits| == g.max + 1
    ensures forall k :: 0 <= k <= g.max ==> allocs[k] == Offset(g.max, k)
    ensures forall k :: 1 <= k <= g.max ==> splits[k] == Offset(g.max, g.max + k)
  {
    hide Offset, MaxSize;
    var nsizes := CountSizes(n);
    var p;
    allocs, p := PlaceAlloc(nsizes - 1);
    splits, q := PlaceSplit(nsizes - 1, p);
    g := Layout(nsizes - 1, (q - 1) / LEAF_SIZE + 1, n / LEAF_SIZE);
  }

  lemma EmptyLists(g: Layout, free: seq<seq<nat>>)
    requires free == seq(g.max + 1, _ => [])
    ensures free == InitLists(g, 0)
  {
  }

  class Allocator {
    const max: nat           // MAXSIZE
    const meta: nat          // leaves of metadata
    const end: nat           // the first unavailable leaf
    const allocAt: seq<nat>  // bd_sizes[k].alloc
    const splitAt: seq<nat>  // bd_sizes[k].split
    const bytes: array<bv8>  // the metadata
    const lists: Memory      // the list nodes, in bd_sizes and in free blocks
    ghost var alloc: set<(nat, nat)>
    ghost var split: set<(nat, nat)>
    ghost var free: seq<seq<nat>>

    ghost function H(): Heap
      reads this
    {
      Heap(max, alloc, split, free)
    }

    ghost function Marks(): Heap
      reads this`alloc, this`split
    {
      Heap(max, alloc, split, [])
    }

    /** The bitmaps say what alloc and split say. */
    ghost predicate Mapped()
      reads this`alloc, this`split, bytes
    {
      && |allocAt| == |splitAt| == max + 1 && BitsMatch(Marks(), bytes[..])
      && (forall k :: 0 <= k <= max ==> allocAt[k] == Offset(max, k))
      && (forall k :: 1 <= k <= max ==> splitAt[k] == Offset(max, max + k))
    }

    /** The rings say what free says. */
    ghost predicate Linked()
      reads this`free, lists
    {
      |free| == max + 1 && Rings(lists.M(), free)
    }

    ghost predicate Stored()
      reads this, bytes, lists
    {
      Mapped() && Linked()
    }

    ghost predicate Valid()
      reads this, bytes, lists
    {
      Stored() && Inv(H()) && Fenced(H(), meta)
    }

    // ---------- bd_init ----------

    /** bd_init up to the point where the bitmaps are cleared and the lists empty. */
    constructor (n: nat)
      requires Manageable(n)
      ensures Layout(max, meta, end) == LayoutOf(n) && fresh(bytes) && fresh(lists)
      ensures Stored() && alloc == {} && split == {} && free == InitLists(LayoutOf(n), 0)
    {
      hide Offset, MaxSize, MetaLeaves, BitsMatch, Rings, InitLists, Manageable;
      var g, allocs, splits, q := LayOut(n);
      max, meta, end := g.max, g.meta, g.end;
      allocAt, splitAt := allocs, splits;
      bytes := new bv8[q](_ => 0);
      lists := new Memory();
      alloc, split, free := {}, {}, seq(g.max + 1, _ => []);
      new;
      ClearedMatches(Marks(), bytes[..]);
      EmptyLists(g, free);
      InitHeads();
    }

    /** lst_init of every size. */
    method InitHeads()
      requires free == seq(max + 1, _ => [])
      modifies lists
      ensures Linked()
    {
      for k := 0 to max + 1
        invariant forall j :: 0 <= j < k ==> Ring(lists.M(), [HeadAt(j)])
      {
        ghost var m := lists.M();
        lists.Init(HeadAt(k));
        forall j | 0 <= j < k ensures Ring(lists.M(), [HeadAt(j)]) {
          OtherRing(m, lists.M(), [HeadAt(k)], [HeadAt(j)]);
        }
      }
      forall k | 0 <= k <= max ensures RingOf(k, free[k]) == [HeadAt(k)] { }
    }

    /** The inner loop of bd_mark. */
    method MarkSize(k: nat, start: nat, stop: nat)
      requires Mapped() && k <= max && stop <= Pow2(max)
      modifies this`alloc, this`split, bytes
      ensures Mapped()
      ensures forall j: nat, b: nat :: (j, b) in alloc <==> (j, b) in old(alloc) || (j == k && Meets(start, stop, k, b))
      ensures forall j: nat, b: nat :: (j, b) in split <==>
        (j, b) in old(split) || (k > 0 && j == k && Meets(start, stop, k, b))
    {
      UpIsDiv(start, k);
      NextIsOver(stop, k);
      OverMono(stop, Pow2(max), k);
      OverPow(max, k);
      var bi := BlkIndex(k, start);
      var bj := BlkIndexNext(k, stop);
      assert bi == Up(start, k) && bj == Over(stop, k) <= Pow2(max - k);
      hide BlkIndexNext, BlkIndex, Up, Over, InBitmap, BitsMatch, Pow2, Mapped;
      while bi < bj
        invariant Up(start, k) <= bi && bj == Over(stop, k) <= Pow2(max - k) && Mapped()
        invariant forall j: nat, b: nat :: (j, b) in alloc <==>
          (j, b) in old(alloc) || (j == k && Meets(start, stop, k, b) && b < bi)
        invariant forall j: nat, b: nat :: (j, b) in split <==>
          (j, b) in old(split) || (k > 0 && j == k && Meets(start, stop, k, b) && b < bi)
      {
        BlockInBitmap(max, k, bi);
        if k > 0 {
          SetSplit(k, bi);
        }
        SetAlloc(k, bi);
        bi := bi + 1;
      }
    }

    /** bd_mark. */
    method Mark(start: nat, stop: nat)
      requires Mapped() && stop <= Pow2(max)
      modifies this`alloc, this`split, bytes
      ensures Mapped()
      ensures forall j: nat, b: nat ::
        (j, b) in alloc <==> (j, b) in old(alloc) || (j <= max && Meets(start, stop, j, b))
      ensures forall j: nat, b: nat :: (j, b) in split <==>
        (j, b) in old(split) || (0 < j <= max && Meets(start, stop, j, b))
    {
      hide Meets, Mapped, Pow2;
      for k := 0 to max + 1
        invariant Mapped()
        invariant forall j: nat, b: nat ::
          (j, b) in alloc <==> (j, b) in old(alloc) || (j < k && Meets(start, stop, j, b))
        invariant forall j: nat, b: nat :: (j, b) in split <==>
          (j, b) in old(split) || (0 < j < k && Meets(start, stop, j, b))
      {
        MarkSize(k, start, stop);
      }
    }

    /** Every list has its head. */
    ghost predicate Heads()
      reads lists
    {
      forall k {:trigger HeadAt(k)} :: 0 <= k <= max ==> HeadAt(k) in lists.next
    }

    /** bd_initfree_pair; the amount is in leaves. The lists stay rings unless the block it
        pushes is on a list already. */
    method InitFreePair(k: nat, bi: nat) returns (amount: nat)
      requires Mapped() && Heads() && |free| == max + 1 && k < max
      requires bi <= Pow2(max - k)
      modifies this`free, lists
      ensures Heads() && H() == InitPair(old(H()), k, bi)
      ensures amount == LeavesIn(|free[k]| - |old(free[k])|, k)
      ensures old(Linked()) && Separate(free) ==> Linked()
      ensures free == old(free) || (|free[k]| > 0 && free == old(free)[k := [free[k][0]] + old(free[k])])
    {
      hide InBitmap, BitsMatch, Pow2, Addr, Separate, Rings, Seen;
      PairInside(max, k, bi);
      var buddy := BuddyOf(bi);
      amount := 0;
      var one := SeesAlloc(k, bi);
      var two := SeesAlloc(k, buddy);
      if one != two {
        amount := Pow2(k);
        if one {
          PushFree(k, Addr(k, buddy), buddy);
        } else {
          PushFree(k, Addr(k, bi), bi);
        }
      }
    }

    /** The body of bd_initfree's loop. */
    method InitSize(k: nat) returns (amount: nat)
      requires Mapped() && Heads() && |free| == max + 1 && k < max
      requires ValidLayout(Layout(max, meta, end)) && Padded(Layout(max, meta, end))
      modifies this`free, lists
      ensures Heads() && H() == InitLevel(Layout(max, meta, end), old(H()), k)
      ensures |old(free[k])| <= |free[k]| && amount == LeavesIn(|free[k]| - |old(free[k])|, k)
      ensures old(Linked()) && Separate(free) ==> Linked()
    {
      hide Over, Up, Pow2, InBitmap, Mapped, Padded, ValidLayout, Separate, Rings, LeavesIn, InitPair, BlkIndexNext;
      hide BlkIndex;
      ghost var g := Layout(max, meta, end);
      NextIsOver(meta, k);
      BlkIndexUp(end, k);
      LevelBounds(g, k);
      var left := BlkIndexNext(k, meta);
      var right := BlkIndex(k, end);
      ghost var n0 := |free[k]|;
      amount := InitFreePair(k, left);
      if right <= left {
        return;
      }
      ghost var mid, n1 := free, |free[k]|;
      var more := InitFreePair(k, right);
      ghost var n2 := |free[k]|;
      LeavesAdd(n2 - n1, n1 - n0, k);
      amount := amount + more;
      if Separate(free) && free != mid {
        assert free[k := free[k][1..]] == mid;
        SeparateSuffix(free, k, 1);
      }
    }

    /** bit_isset as it is called there: it may look one byte past a bitmap. */
    method SeesAlloc(k: nat, b: nat) returns (r: bool)
      requires Mapped() && k < max && b <= Pow2(max - k) + 1
      ensures r <==> Seen(H(), k, b)
    {
      hide Pow2, Offset, BitmapBytes, BitsMatch;
      BitBehind(max, k, b);
      if b < Pow2(max - k) || Pow2(max - k) < 8 {
        MatchAt(Marks(), bytes[..], k, b);
      } else {
        MatchAt(Marks(), bytes[..], k + 1, b - Pow2(max - k));
      }
      r := BitIsSet(bytes, 8 * allocAt[k] + b);
    }

    static lemma PairInside(max: nat, k: nat, bi: nat)
      requires k < max && bi <= Pow2(max - k)
      ensures BuddyOf(bi) <= Pow2(max - k) + 1
    {
      assert Pow2(max - k) == 2 * Pow2(max - k - 1);
    }

    /** The same when the lists of the smaller sizes are done. */
    method InitRound(k: nat, ghost h0: Heap) returns (amount: nat)
      requires ValidLayout(Layout(max, meta, end)) && Padded(Layout(max, meta, end)) && k < max
      requires IsMarked(Layout(max, meta, end), h0) && h0.free == InitLists(Layout(max, meta, end), 0)
      requires |h0.free| == |free| == max + 1 && H() == InitFree(Layout(max, meta, end), h0, k)
      requires free == InitLists(Layout(max, meta, end), k) && Mapped() && Heads()
      modifies this`free, lists
      ensures |free| == max + 1 && H() == InitFree(Layout(max, meta, end), h0, k + 1) && Heads()
      ensures free == InitLists(Layout(max, meta, end), k + 1)
      ensures FreeLeaves(free, k + 1) == FreeLeaves(old(free), k) + amount
      ensures old(Linked()) && Separate(InitLists(Layout(max, meta, end), max)) ==> Linked()
    {
      hide IsMarked, ValidLayout, InitLevel, InitLists, FreeLeaves, InitFree, Pow2, Separate, Padded, LeavesIn;
      hide BitsMatch, Rings, Mapped, Linked, Heads;
      RoundFacts(Layout(max, meta, end), h0, k);
      amount := InitSize(k);
    }

    /** bd_initfree over sizes whose lists are empty. */
    method InitAllFree() returns (amount: nat)
      requires ValidLayout(Layout(max, meta, end)) && Padded(Layout(max, meta, end))
      requires IsMarked(Layout(max, meta, end), H()) && Stored() && Heads()
      requires free == InitLists(Layout(max, meta, end), 0)
      modifies this`free, lists
      ensures IsInitial(Layout(max, meta, end), H()) && amount == TotalFree(H())
      ensures Separate(free) ==> Stored()
    {
      hide IsMarked, ValidLayout, InitLevel, InitLists, FreeLeaves, InitFree, Pow2, Separate, Rings, Mapped, Padded;
      ghost var g, h0 := Layout(max, meta, end), H();
      amount := 0;
      InitFreeStart(g, h0);
      for k := 0 to max
        invariant |free| == max + 1 && H() == InitFree(g, h0, k) && amount == FreeLeaves(free, k)
        invariant free == InitLists(g, k) && Mapped() && Heads()
        invariant Separate(InitLists(g, max)) ==> Linked()
      {
        var pushed := InitRound(k, h0);
        amount := amount + pushed;
      }
      InitFreeLists(g, h0, max);
      TopEmpty(g);
    }

    /** The rest of bd_init. True is the panic "bd_init: free mem"; otherwise the memory
        holds a consistent tree. */
    method Init() returns (panicked: bool)
      requires ValidLayout(Layout(max, meta, end)) && Padded(Layout(max, meta, end)) && 2 * (max + 1) <= meta
      requires Stored() && alloc == {} && split == {} && free == InitLists(Layout(max, meta, end), 0)
      modifies this, bytes, lists
      ensures IsInitial(Layout(max, meta, end), H())
      ensures panicked <==> exists k :: 0 <= k < max && Spurious(Layout(max, meta, end), k)
      ensures !panicked ==> Valid()
    {
      ghost var g := Layout(max, meta, end);
      forall k | 0 <= k <= max ensures HeadAt(k) in lists.next { HeadLinked(k); }
      assert Heads();
      hide Mapped, Rings, Padded;
      Mark(0, meta);
      Mark(end, Pow2(max));
      MarksAreMarked(g, H());
      hide Pow2, Meets, IsMarked, InitLists;
      var amount := InitAllFree();
      InitPanicExact(g, H());
      panicked := amount != Pow2(max) - meta - (Pow2(max) - end);
      if !panicked {
        InitialFenced(g, H());
      }
    }

    // ---------- single bits ----------

    method SetAlloc(k: nat, b: nat)
      requires Mapped() && k <= max && InBitmap(max, k, b)
      modifies this`alloc, bytes
      ensures Mapped() && alloc == old(alloc) + {(k, b)}
    {
      hide BitsMatch, InBitmap, Offset, IsSet;
      BitInside(max, k, b);
      SameLength();
      ghost var was := bytes[..];
      BitSet(bytes, 8 * allocAt[k] + b);
      PutMatches(Marks(), was, bytes[..], k, b);
      alloc := alloc + {(k, b)};
    }

    method ClearAlloc(k: nat, b: nat)
      requires Mapped() && k <= max && InBitmap(max, k, b)
      modifies this`alloc, bytes
      ensures Mapped() && alloc == old(alloc) - {(k, b)}
    {
      hide BitsMatch, InBitmap, Offset, IsSet;
      BitInside(max, k, b);
      SameLength();
      ghost var was := bytes[..];
      BitClear(bytes, 8 * allocAt[k] + b);
      DropMatches(Marks(), was, bytes[..], k, b);
      alloc := alloc - {(k, b)};
    }

    method SetSplit(k: nat, b: nat)
      requires Mapped() && 1 <= k <= max && InBitmap(max, max + k, b)
      modifies this`split, bytes
      ensures Mapped() && split == old(split) + {(k, b)}
    {
      hide BitsMatch, InBitmap, Offset, IsSet;
      BitInside(max, max + k, b);
      SameLength();
      ghost var was := bytes[..];
      BitSet(bytes, 8 * splitAt[k] + b);
      PutMatches(Marks(), was, bytes[..], max + k, b);
      split := split + {(k, b)};
    }

    method ClearSplit(k: nat, b: nat)
      requires Mapped() && 1 <= k <= max && InBitmap(max, max + k, b)
      modifies this`split, bytes
      ensures Mapped() && split == old(split) - {(k, b)}
    {
      hide BitsMatch, InBitmap, Offset, IsSet;
      BitInside(max, max + k, b);
      SameLength();
      ghost var was := bytes[..];
      BitClear(bytes, 8 * splitAt[k] + b);
      DropMatches(Marks(), was, bytes[..], max + k, b);
      split := split - {(k, b)};
    }

    lemma SameLength()
      requires Mapped()
      ensures bytes.Length == MetaBytes(max)
    {
    }

    method IsAlloc(k: nat, b: nat) returns (r: bool)
      requires Mapped() && k <= max && InBitmap(max, k, b)
      ensures r <==> (k, b) in alloc
    {
      assert BitMatches(Marks(), bytes[..], k, b);
      r := BitIsSet(bytes, 8 * allocAt[k] + b);
    }

    method IsSplit(k: nat, b: nat) returns (r: bool)
      requires Mapped() && 1 <= k <= max && InBitmap(max, max + k, b)
      ensures r <==> (k, b) in split
    {
      assert BitMatches(Marks(), bytes[..], max + k, b);
      r := BitIsSet(bytes, 8 * splitAt[k] + b);
    }

    // ---------- list operations ----------

    method IsEmpty(k: nat) returns (r: bool)
      requires Linked() && k <= max
      ensures r <==> free[k] == []
    {
      RingPush(k, 0, free[k]);
      assert Ring(lists.M(), RingOf(k, free[k]));
      r := lists.Empty(HeadAt(k), RingOf(k, free[k])[1..]);
    }

    /** lst_push of block b, at address p. */
    method PushFree(k: nat, p: nat, ghost b: nat)
      requires k <= max && |free| == max + 1 && p == Addr(k, b) && HeadAt(k) in lists.next
      modifies this`free, lists
      ensures free == old(free)[k := [b] + old(free[k])]
      ensures lists.next.Keys >= old(lists.next).Keys
      ensures old(Linked()) && Separate(free) ==> Linked()
    {
      ghost var m := lists.M();
      lists.Push(HeadAt(k), p, RingOf(k, free[k])[1..]);
      if Rings(m, free) && Separate(free[k := [b] + free[k]]) {
        PushRings(m, lists.M(), free, k, b);
      }
      free := free[k := [b] + free[k]];
    }

    /** lst_pop of a list that is not empty. */
    method PopFree(k: nat) returns (p: nat)
      requires Linked() && Separate(free) && k <= max && free[k] != []
      modifies this`free, lists
      ensures Linked() && p == Addr(k, old(free[k][0])) && free == old(free)[k := old(free[k])[1..]]
    {
      ghost var m, l := lists.M(), free[k];
      RingPush(k, 0, l);
      RingRemove(k, l, 0);
      assert Ring(m, RingOf(k, l));
      assert l[..0] + l[1..] == l[1..];
      ghost var nodes := RingOf(k, l);
      assert RingOf(k, l[1..]) == [HeadAt(k)] + nodes[1..][1..];
      var r := lists.Pop(HeadAt(k), nodes[1..]);
      RemoveRings(m, lists.M(), free, k, 0);
      p := r.value;
      free := free[k := l[1..]];
    }

    /** lst_remove of block b of size k, at address q. */
    method RemoveFree(q: nat, ghost k: nat, ghost b: nat)
      requires Linked() && Separate(free) && k <= max && b in free[k] && q == Addr(k, b)
      modifies this`free, lists
      ensures Linked() && free == old(free)[k := Buddy.Remove(old(free[k]), b)]
    {
      ghost var i := RemoveCut(free[k], b);
      ghost var m, l := lists.M(), free[k];
      RingRemove(k, l, i);
      assert Ring(m, RingOf(k, l));
      lists.Remove(q, RingOf(k, l), i + 1);
      RemoveRings(m, lists.M(), free, k, i);
      free := free[k := l[..i] + l[i + 1..]];
    }

    // ---------- bd_malloc ----------

    /** The search loop of bd_malloc. */
    method FindFit(fk: nat) returns (k: nat)
      requires Linked()
      ensures k == FirstFit(free, fk)
    {
      k := fk;
      while k <= max
        invariant fk <= k && FirstFit(free, k) == FirstFit(free, fk)
      {
        var empty := IsEmpty(k);
        if !empty {
          return;
        }
        k := k + 1;
      }
    }

    method MarkSplit(k: nat, b: nat, c: nat)
      requires Mapped() && 0 < k <= max && InBitmap(max, max + k, b) && InBitmap(max, k - 1, c)
      modifies this`alloc, this`split, bytes
      ensures Mapped() && split == old(split) + {(k, b)} && alloc == old(alloc) + {(k - 1, c)}
    {
      SetSplit(k, b);
      SetAlloc(k - 1, c);
    }

    /** One round of the splitting loop: block b of size k, at address p. */
    method SplitRound(k: nat, p: nat, ghost b: nat)
      requires Valid() && 0 < k <= max && Live(H(), k, b) && p == Addr(k, b)
      modifies this, bytes, lists
      ensures Valid() && H() == SplitOne(old(H()), k, b) && Live(H(), k - 1, 2 * b) && p == Addr(k - 1, 2 * b)
    {
      ghost var h := H();
      SplitAhead(h, meta, k, b);
      SplitAddr(k, b);
      HalfAddr(k - 1, b);
      hide Inv, Live, Fenced, Pow2, Addr, BlkIndex, Separate, BitsMatch, Rings, InBitmap, HeadAt;
      HeadLinked(k - 1);
      var q := p + Pow2(k - 1);
      MarkSplit(k, BlkIndex(k, p), BlkIndex(k - 1, p));
      PushFree(k - 1, q, 2 * b + 1);
    }

    lemma HeadLinked(k: nat)
      requires Linked() && k <= max
      ensures HeadAt(k) in lists.next
    {
      var r := RingOf(k, free[k]);
      assert Ring(lists.M(), r);
      assert List.Linked(lists.M(), r, 0);
    }

    static lemma SplitAhead(h: Heap, meta: nat, k: nat, b: nat)
      requires Inv(h) && Fenced(h, meta) && 0 < k <= h.max && Live(h, k, b)
      ensures var h' := SplitOne(h, k, b); Inv(h') && Fenced(h', meta) && Live(h', k - 1, 2 * b) && Separate(h'.free)
      ensures InBitmap(h.max, h.max + k, b) && InBitmap(h.max, k - 1, 2 * b)
    {
      SplitKeeps(h, k, b);
      BlockInBitmap(h.max, k, b);
      BelowUnsplit(h, k, b, 2 * b);
      BlockInBitmap(h.max, k - 1, 2 * b);
      TreeSeparate(SplitOne(h, k, b), meta);
    }

    /** The splitting loop of bd_malloc: block b of size top, at address p. */
    method SplitTo(top: nat, fk: nat, p: nat, ghost block: nat)
      requires Valid() && fk <= top <= max && Live(H(), top, block) && p == Addr(top, block)
      modifies this, bytes, lists
      ensures Valid() && H() == SplitDown(old(H()), top, fk, block)
    {
      hide Pow2, Addr, Live, Inv, Fenced;
      ghost var target := SplitDown(H(), top, fk, block);
      var k := top;
      ghost var b := block;
      while k > fk
        invariant fk <= k <= max && Valid() && Live(H(), k, b) && p == Addr(k, b)
        invariant SplitDown(H(), k, fk, b) == target
      {
        SplitRound(k, p, b);
        k := k - 1;
        b := 2 * b;
      }
    }

    /** bd_malloc. A block is returned by its address. */
    method Malloc(nbytes: nat) returns (r: Option<nat>)
      requires Valid() && InRange(nbytes)
      modifies this, bytes, lists
      ensures Valid()
      ensures match Buddy.Malloc(old(H()), FirstSize(nbytes, 0))
              case None => r == None && H() == old(H())
              case Some((b, h)) => r == Some(Addr(FirstSize(nbytes, 0), b)) && H() == h
      ensures r.Some? ==> OwnBytes(H(), r.value, nbytes)
    {
      hide Inv, InRange, Addr, FirstSize, Live, Down, SplitDown, Fenced, OwnBytes;
      ghost var h0 := H();
      var fk := Firstk(nbytes);
      var k := FindFit(fk);
      if k > max {
        return None;
      }
      var p := TakeFirst(k, fk);
      MallocOwns(h0, nbytes);
      return Some(p);
    }

    /** lst_pop and bit_set of the first block of size k. */
    method TakeOne(k: nat) returns (p: nat)
      requires Valid() && k <= max && free[k] != []
      modifies this, bytes, lists
      ensures Valid() && H() == Take(old(H()), k) && Live(H(), k, old(free[k][0])) && p == Addr(k, old(free[k][0]))
    {
      ghost var h, b := H(), free[k][0];
      TakeKeeps(h, k);
      BlockInBitmap(max, k, b);
      TreeSeparate(h, meta);
      IndexOfAddr(k, b, k);
      DownNone(b);
      hide Inv, Live, Fenced, Pow2, Addr, BlkIndex, Separate, BitsMatch, Rings, InBitmap;
      p := PopFree(k);
      SetAlloc(k, BlkIndex(k, p));
    }

    /** The first block of size k, split down to size fk. */
    method TakeFirst(k: nat, fk: nat) returns (p: nat)
      requires Valid() && fk <= k <= max && free[k] != []
      modifies this, bytes, lists
      ensures Valid()
      ensures H() == SplitDown(Take(old(H()), k), k, fk, old(free)[k][0])
      ensures p == Addr(fk, Down(old(free)[k][0], k - fk))
    {
      ghost var b := free[k][0];
      IndexOfAddr(k, b, k);
      IndexOfAddr(fk, Down(b, k - fk), fk);
      DownDown(b, k - fk, fk);
      hide Inv, Live, Fenced, Pow2, Addr, BlkIndex, Down, SplitDown, Stored;
      p := TakeOne(k);
      SplitTo(k, fk, p, b);
    }

    // ---------- bd_free ----------

    /** size. The pointer comes from bd_malloc: it is block b of size k. */
    method Size(p: nat, ghost k: nat, ghost b: nat) returns (r: nat)
      requires Valid() && max > 0 && Live(H(), k, b) && p == Addr(k, b)
      ensures r == k
    {
      assert Live(H(), 0, 0);
      SizeCorrect(H(), k, b);
      IndexOfAddr(k, b, 0);
      r := 0;
      while r <= max
        invariant r < max && SizeFrom(H(), p, r) == Some(k)
        decreases max - r
      {
        UpIsDiv(p, r + 1);
        LeafInBitmap(k, b, p, r + 1);
        var s := IsSplit(r + 1, BlkIndex(r + 1, p));
        if s {
          return;
        }
        r := r + 1;
      }
    }

    lemma LeafInBitmap(k: nat, b: nat, p: nat, j: nat)
      requires InTree(H(), k, b) && p == Addr(k, b) && 1 <= j <= max
      ensures InBitmap(max, max + j, BlkIndex(j, p))
    {
      IndexOfAddr(k, b, j);
      if j <= k { DownInTree(H(), k, b, k - j); } else { UpInTree(H(), k, b, j - k); }
      BlockInBitmap(max, j, BlkIndex(j, p));
    }

    /** bd_free of block b of size k, which the caller holds. */
    method Free(ptr: nat, ghost k0: nat, ghost b0: nat)
      requires Valid() && max > 0 && Live(H(), k0, b0) && ptr == Addr(k0, b0) && !(k0 == 0 && b0 < meta)
      modifies this, bytes, lists
      ensures Valid() && k0 <= old(H()).max && H() == FreeUp(old(H()), k0, b0)
    {
      assert Live(H(), 0, 0);
      DeallocHeap(H(), k0, b0);
      hide Live, Pow2, Addr, Inv, Fenced, Stored;
      var k := Size(ptr, k0, b0);
      MergeUp(k, ptr, b0, FreeUp(H(), k0, b0));
    }

    /** One round of bd_free's loop; false is the break, with the bit already cleared. */
    method MergeRound(k: nat, p: nat, ghost b: nat) returns (merged: bool, up: nat)
      requires Stored() && Freeing(H(), meta, k, b) && p == Addr(k, b)
      modifies this, bytes, lists
      ensures merged <==> (k, BuddyOf(b)) !in old(alloc)
      ensures merged ==> Stored() && H() == MergeOne(old(H()), k, b)
      ensures merged ==> Freeing(H(), meta, k + 1, b / 2) && up == Addr(k + 1, b / 2)
      ensures !merged ==> Stored() && H() == old(H()).(alloc := old(alloc) - {(k, b)})
    {
      ghost var h := H();
      MergeAddr(k, b);
      MergeInBitmap(h, k, b);
      TreeSeparate(h, meta);
      if (k, BuddyOf(b)) !in alloc {
        MergeAhead(h, meta, k, b);
      }
      hide Inv, Live, Fenced, Pow2, Addr, BlkIndex, Separate, BitsMatch, Rings, InBitmap;
      var bi := BlkIndex(k, p);
      var buddy := BuddyOf(bi);
      ClearAlloc(k, bi);
      var busy := IsAlloc(k, buddy);
      if busy {
        return false, p;
      }
      var q := Addr(k, buddy);
      RemoveFree(q, k, buddy);
      up := if buddy % 2 == 0 then q else p;
      ClearSplit(k + 1, BlkIndex(k + 1, up));
      return true, up;
    }

    static lemma MergeInBitmap(h: Heap, k: nat, b: nat)
      requires Inv(h) && k < h.max && Live(h, k, b)
      ensures InBitmap(h.max, k, b) && InBitmap(h.max, k, BuddyOf(b)) && InBitmap(h.max, h.max + k + 1, b / 2)
    {
      assert Pow2(h.max - k) == 2 * Pow2(h.max - k - 1);
      BlockInBitmap(h.max, k, b);
      BlockInBitmap(h.max, k, BuddyOf(b));
      BlockInBitmap(h.max, k + 1, b / 2);
    }

    /** A merge keeps the tree and does not reach the metadata or the root. */
    static lemma MergeAhead(h: Heap, meta: nat, k: nat, b: nat)
      requires CanMerge(h, k, b) && Fenced(h, meta) && !(k == 0 && b < meta)
      ensures Freeing(MergeOne(h, k, b), meta, k + 1, b / 2) && BuddyOf(b) in h.free[k]
    {
      MergeKeeps(h, k, b);
      MergeFacts(h, k, b);
      assert Live(h, 0, 0);
      AnotherLeft(h, k, b);
    }

    /** The loop and the final push of bd_free: block b of size start, at address ptr. */
    method MergeUp(start: nat, ptr: nat, ghost block: nat, ghost target: Heap)
      requires Stored() && Freeing(H(), meta, start, block) && ptr == Addr(start, block)
      requires target == FreeUp(H(), start, block)
      modifies this, bytes, lists
      ensures Valid() && H() == target
    {
      hide Pow2, Addr, Inv, Live, Fenced, MergeOne, Release, FreeUp, Mapped, Rings;
      var k, p := start, ptr;
      ghost var b, h := block, H();
      while k < max
        invariant Stored() && h == H() && Freeing(h, meta, k, b) && p == Addr(k, b)
        invariant FreeUp(h, k, b) == target
      {
        FreeSteps(h, k, b);
        var merged, up := MergeRound(k, p, b);
        if !merged {
          break;
        }
        k, p := k + 1, up;
        b, h := b / 2, H();
      }
      FinishFree(k, p, b, h);
    }

    lemma FreeSteps(h: Heap, k: nat, b: nat)
      requires h == H() && Linked() && k < max
      ensures (k, BuddyOf(b)) !in h.alloc ==> FreeUp(h, k, b) == FreeUp(MergeOne(h, k, b), k + 1, b / 2)
      ensures (k, BuddyOf(b)) in h.alloc ==> FreeUp(h, k, b) == Release(h, k, b)
    {
    }

    /** lst_push after the loop, which was left by its break. */
    method FinishFree(k: nat, p: nat, ghost b: nat, ghost h: Heap)
      requires Stored() && H() == h.(alloc := h.alloc - {(k, b)}) && p == Addr(k, b)
      requires Freeing(h, meta, k, b) && (k, BuddyOf(b)) in h.alloc
      modifies this`free, lists
      ensures Valid() && H() == Release(h, k, b)
    {
      ReleaseKeeps(h, k, b);
      TreeSeparate(Release(h, k, b), meta);
      hide Inv, Live, Fenced, Pow2, Addr, Separate, BitsMatch, Rings;
      HeadLinked(k);
      PushFree(k, p, b);
    }
  }

  /** bd_init of n bytes from an aligned address: the byte counts of PanicBytes end in the
      panic; for all others the memory behind the metadata is free. Below 2^31 bytes the ints
      of blk_index hold every index that bd_init computes. */
  method BdInit(n: nat) returns (a: Allocator, panicked: bool)
    requires Manageable(n) && n < INT_RANGE
    ensures forall p: nat, k: nat {:trigger IntIndex(k, p)} :: p <= n / LEAF_SIZE ==> IntIndex(k, p) == BlkIndex(k, p)
    ensures fresh(a) && fresh(a.bytes) && fresh(a.lists)
    ensures panicked <==> PanicBytes(n)
    ensures !panicked ==> a.Valid() && a.max == MaxSize(n) && TotalFree(a.H()) == n / LEAF_SIZE - MetaLeaves(a.max)
  {
    forall p: nat, k: nat | p <= n / LEAF_SIZE ensures IntIndex(k, p) == BlkIndex(k, p) { IntIndexExact(p); }
    hide IntIndex, BlkIndex;
    InitPanicBytes(n);
    LayoutPadded(n);
    HeadsInMeta(MaxSize(n));
    hide Manageable, MaxSize, MetaLeaves, ValidLayout, Padded, Spurious, Pow2, PanicBytes;
    a := new Allocator(n);
    panicked := a.Init();
    if !panicked {
      NothingSpurious(LayoutOf(n), a.H());
    }
  }

  lemma HeadsInMeta(max: nat)
    ensures 2 * (max + 1) <= MetaLeaves(max)
  {
    MetaSum(max);
  }

  lemma NothingSpurious(g: Layout, h: Heap)
    requires ValidLayout(g) && IsInitial(g, h) && forall k :: 0 <= k < g.max ==> !Spurious(g, k)
    ensures TotalFree(h) == g.end - g.meta
  {
    InitAmount(g, h);
    SpuriousZero(g, g.max);
  }
}
