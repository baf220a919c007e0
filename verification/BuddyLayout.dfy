/** The first part of bd_init in kernel/buddy.c: how many sizes n bytes of memory need, where
    the bitmaps lie behind the array of sz_info records, and which byte counts this layout
    makes bd_init panic for. The memory starts at a multiple of LEAF_SIZE. */
module BuddyLayout {
  import opened Buddy
  import opened BuddyInit

  /** sizeof(Sz_info): a list node of two pointers and the pointers alloc and split. */
  const SZ_INFO_BYTES := 32

  function Log2(n: nat): (k: nat)
    ensures n > 0 ==> Pow2(k) <= n < 2 * Pow2(k)
  {
    if n <= 1 then 0 else 1 + Log2(n / 2)
  }

  /** log2's loop. */
  method ComputeLog2(n: nat) returns (k: nat)
    ensures k == Log2(n)
  {
    k := 0;
    var m := n;
    while m > 1
      invariant k + Log2(m) == Log2(n)
    {
      k := k + 1;
      m := m / 2;
    }
  }

  /** MAXSIZE for n bytes of memory. */
  function MaxSize(n: nat): nat {
    var k := Log2(n / LEAF_SIZE);
    if n > LEAF_SIZE * Pow2(k) then k + 1 else k
  }

  /** It is the smallest size whose single block holds all n bytes. */
  lemma MaxSizeHolds(n: nat)
    ensures n <= LEAF_SIZE * Pow2(MaxSize(n))
    ensures MaxSize(n) > 0 ==> n > LEAF_SIZE * Pow2(MaxSize(n) - 1)
  {
    var k := Log2(n / LEAF_SIZE);
    if k > 0 { assert Pow2(k) == 2 * Pow2(k - 1); }
  }

  /** The first statements of bd_init. */
  method CountSizes(n: nat) returns (nsizes: nat)
    ensures nsizes == MaxSize(n) + 1
  {
    var k := ComputeLog2(n / LEAF_SIZE);
    nsizes := k + 1;
    if n > LEAF_SIZE * Pow2(nsizes - 1) {
      nsizes := nsizes + 1;
    }
  }

  /** Bytes of a bitmap for 2^j blocks. */
  function BitmapBytes(j: nat): nat {
    (Pow2(j) - 1) / 8 + 1
  }

  /** Bitmaps are numbered as they follow each other in memory: the alloc bitmaps of sizes
      0 to max, then the split bitmaps of sizes 1 to max. This is the size of number s. */
  function SizeOf(max: nat, s: nat): (k: nat)
    requires s <= 2 * max
    ensures k <= max
  {
    if s <= max then s else s - max
  }

  /** Where bitmap s starts, in bytes from bd_base. */
  function Offset(max: nat, s: nat): nat
    requires s <= 2 * max + 1
  {
    if s == 0 then SZ_INFO_BYTES * (max + 1)
    else Offset(max, s - 1) + BitmapBytes(max - SizeOf(max, s - 1))
  }

  function MetaBytes(max: nat): nat { Offset(max, 2 * max + 1) }

  /** The metadata rounded up to whole leaves. */
  function MetaLeaves(max: nat): nat { (MetaBytes(max) - 1) / LEAF_SIZE + 1 }

  function LayoutOf(n: nat): Layout {
    Layout(MaxSize(n), MetaLeaves(MaxSize(n)), n / LEAF_SIZE)
  }

  lemma OffsetStart(max: nat)
    ensures Offset(max, 0) == SZ_INFO_BYTES * (max + 1)
  {
  }

  lemma OffsetNext(max: nat, k: nat)
    requires k <= max
    ensures Offset(max, k + 1) == Offset(max, k) + BitmapBytes(max - k)
    ensures k > 0 ==> Offset(max, max + k + 1) == Offset(max, max + k) + BitmapBytes(max - k)
  {
  }

  /** The loop of bd_init that gives each size its alloc bitmap. */
  method PlaceAlloc(max: nat) returns (alloc: seq<nat>, p: nat)
    ensures |alloc| == max + 1 && forall k :: 0 <= k <= max ==> alloc[k] == Offset(max, k)
    ensures p == Offset(max, max + 1)
  {
    hide Offset, BitmapBytes;
    p := SZ_INFO_BYTES * (max + 1);
    alloc := [];
    OffsetStart(max);
    for k := 0 to max + 1
      invariant |alloc| == k && p == Offset(max, k)
      invariant forall j :: 0 <= j < k ==> alloc[j] == Offset(max, j)
    {
      OffsetNext(max, k);
      alloc := alloc + [p];
      p := p + BitmapBytes(max - k);
    }
  }

  /** The loop that gives each size but the smallest its split bitmap. */
  method PlaceSplit(max: nat, start: nat) returns (split: seq<nat>, p: nat)
    requires start == Offset(max, max + 1)
    ensures |split| == max + 1 && forall k :: 1 <= k <= max ==> split[k] == Offset(max, max + k)
    ensures p == MetaBytes(max)
  {
    hide Offset, BitmapBytes;
    split, p := [0], start;
    for k := 1 to max + 1
      invariant |split| == k && p == Offset(max, max + k)
      invariant forall j :: 1 <= j < k ==> split[j] == Offset(max, max + j)
    {
      OffsetNext(max, k);
      split := split + [p];
      p := p + BitmapBytes(max - k);
    }
  }

  /** Bitmaps do not overlap. */
  lemma {:induction false} OffsetMono(max: nat, s: nat, t: nat)
    requires s < t <= 2 * max + 1
    ensures Offset(max, s) + BitmapBytes(max - SizeOf(max, s)) <= Offset(max, t)
  {
    if s + 1 < t { OffsetMono(max, s, t - 1); }
  }

  // ---------- how much metadata there is ----------

  /** Bytes of the bitmaps for 1, 2, 4, ... 2^(n-1) blocks. */
  function Bitmaps(n: nat): nat {
    if n == 0 then 0 else Bitmaps(n - 1) + BitmapBytes(n - 1)
  }

  lemma {:induction false} AllocOffset(max: nat, s: nat)
    requires s <= max + 1
    ensures Offset(max, s) + Bitmaps(max + 1 - s) == SZ_INFO_BYTES * (max + 1) + Bitmaps(max + 1)
  {
    if s > 0 { AllocOffset(max, s - 1); }
  }

  lemma {:induction false} SplitOffset(max: nat, t: nat)
    requires t <= max
    ensures Offset(max, max + 1 + t) + Bitmaps(max - t) == SZ_INFO_BYTES * (max + 1) + Bitmaps(max + 1) + Bitmaps(max)
  {
    if t == 0 {
      AllocOffset(max, max + 1);
    } else {
      SplitOffset(max, t - 1);
    }
  }

  lemma MetaSum(max: nat)
    ensures MetaBytes(max) == SZ_INFO_BYTES * (max + 1) + Bitmaps(max + 1) + Bitmaps(max)
  {
    SplitOffset(max, max);
  }

  lemma SmallPowers()
    ensures Pow2(0) == 1 && Pow2(1) == 2 && Pow2(2) == 4 && Pow2(3) == 8 && Pow2(4) == 16 && Pow2(5) == 32
    ensures Pow2(6) == 64
  {
    assert Pow2(3) == 2 * Pow2(2);
    assert Pow2(6) == 2 * Pow2(5);
  }

  lemma SmallBitmaps()
    ensures Bitmaps(0) == 0 && Bitmaps(1) == 1 && Bitmaps(2) == 2 && Bitmaps(3) == 3
    ensures Bitmaps(4) == 4 && Bitmaps(5) == 6 && Bitmaps(6) == 10 && Bitmaps(7) == 18
  {
    SmallPowers();
    hide Pow2;
    assert Bitmaps(3) == Bitmaps(2) + BitmapBytes(2);
    assert Bitmaps(4) == Bitmaps(3) + BitmapBytes(3);
    assert Bitmaps(5) == Bitmaps(4) + BitmapBytes(4);
    assert Bitmaps(6) == Bitmaps(5) + BitmapBytes(5);
    assert Bitmaps(7) == Bitmaps(6) + BitmapBytes(6);
  }

  lemma SmallMeta(max: nat)
    requires max <= 6
    ensures MetaBytes(max) == [33, 67, 101, 135, 170, 208, 252][max]
    ensures max < 6 ==> MetaLeaves(max) == 2 * max + 3
  {
    SmallBitmaps();
    MetaSum(max);
    hide Bitmaps, MetaBytes;
  }

  /** From 64 leaves on the metadata fits in a quarter of the heap. */
  lemma {:induction false} QuarterMeta(max: nat)
    requires max >= 6
    ensures MetaBytes(max) <= 4 * Pow2(max) && Pow2(max) >= 64
  {
    if max == 6 {
      SmallMeta(max);
      SmallPowers();
    } else {
      QuarterMeta(max - 1);
      MetaSum(max);
      MetaSum(max - 1);
    }
  }

  // ---------- for which byte counts bd_init panics ----------

  /** The metadata fits in the memory. */
  predicate Manageable(n: nat) {
    MetaLeaves(MaxSize(n)) <= n / LEAF_SIZE
  }

  lemma LeavesLow(n: nat)
    requires MaxSize(n) >= 1
    ensures Pow2(MaxSize(n) - 1) <= n / LEAF_SIZE <= Pow2(MaxSize(n))
    ensures n / LEAF_SIZE == Pow2(MaxSize(n)) <==> n == LEAF_SIZE * Pow2(MaxSize(n))
  {
    MaxSizeHolds(n);
    hide Pow2, MaxSize;
  }

  lemma QuarterLayout(n: nat)
    requires MaxSize(n) >= 6
    ensures ValidLayout(LayoutOf(n)) && Manageable(n)
    ensures LayoutOf(n).meta <= Pow2(LayoutOf(n).max - 2) && Pow2(LayoutOf(n).max - 1) <= LayoutOf(n).end
  {
    var m := MaxSize(n);
    QuarterMeta(m);
    LeavesLow(n);
    assert Pow2(m) == 2 * Pow2(m - 1) && Pow2(m - 1) == 2 * Pow2(m - 2);
    hide Pow2, MetaBytes;
  }

  lemma SmallMax(n: nat)
    requires MaxSize(n) < 6
    ensures MaxSize(n) <= 3 ==> n <= 128
    ensures MaxSize(n) == 4 ==> 128 < n <= 256
    ensures MaxSize(n) == 5 ==> 256 < n <= 512
  {
    MaxSizeHolds(n);
    SmallPowers();
    hide Pow2, MaxSize;
  }

  lemma LargeMax(n: nat)
    requires MaxSize(n) >= 6
    ensures n > 512
  {
    MaxSizeHolds(n);
    QuarterMeta(MaxSize(n));
    assert Pow2(MaxSize(n)) == 2 * Pow2(MaxSize(n) - 1);
    hide Pow2, MaxSize;
  }

  /** bd_init can lay out n bytes exactly from 176 on. */
  lemma ManageableExact(n: nat)
    ensures Manageable(n) <==> n >= 176
    ensures Manageable(n) ==> ValidLayout(LayoutOf(n)) && MaxSize(n) >= 4
  {
    hide Pow2, MaxSize, MetaLeaves;
    if MaxSize(n) >= 6 {
      LargeMax(n);
      QuarterLayout(n);
    } else {
      SmallMeta(MaxSize(n));
      SmallMax(n);
      MaxSizeHolds(n);
      SmallPowers();
    }
  }

  lemma Halvings(g: Layout)
    ensures Right(g, 0) == g.end && Right(g, 1) == g.end / 2
    ensures Right(g, 2) == g.end / 2 / 2 && Right(g, 3) == g.end / 2 / 2 / 2
    ensures Right(g, 4) == g.end / 2 / 2 / 2 / 2
  {
    RightStep(g, 0);
    RightStep(g, 1);
    RightStep(g, 2);
    RightStep(g, 3);
  }

  lemma LeftsFour(end: nat)
    ensures var g := Layout(4, 11, end);
      Left(g, 0) == 11 && Left(g, 1) == 6 && Left(g, 2) == 3 && Left(g, 3) == 2 && Left(g, 4) == 1
  {
    var g := Layout(4, 11, end);
    assert Left(g, 1) == 6;
    assert Left(g, 3) == 2;
  }

  lemma LeftsFive(end: nat)
    ensures var g := Layout(5, 13, end);
      && Left(g, 0) == 13 && Left(g, 1) == 7 && Left(g, 2) == 4 && Left(g, 3) == 2 && Left(g, 4) == 1 && Left(g, 5) == 1
  {
    var g := Layout(5, 13, end);
    assert Left(g, 1) == 7;
    assert Left(g, 3) == 2;
  }

  lemma SpuriousFour(end: nat)
    requires 11 <= end <= 16
    ensures (exists k :: 0 <= k < 4 && Spurious(Layout(4, 11, end), k)) <==> 14 <= end < 16
  {
    var g := Layout(4, 11, end);
    hide Left, Right, Pow2;
    Halvings(g);
    LeftsFour(end);
    SmallPowers();
    if 14 <= end < 16 { assert Spurious(g, 1); }
    assert !Spurious(g, 0) && !Spurious(g, 2) && !Spurious(g, 3) && (Spurious(g, 1) ==> 14 <= end < 16);
  }

  lemma SpuriousFive(end: nat)
    requires 16 <= end <= 32
    ensures (exists k :: 0 <= k < 5 && Spurious(Layout(5, 13, end), k)) <==> 20 <= end < 32
  {
    var g := Layout(5, 13, end);
    hide Left, Right, Pow2;
    Halvings(g);
    LeftsFive(end);
    SmallPowers();
    if 20 <= end < 24 { assert Spurious(g, 2); }
    if 24 <= end < 32 { assert Spurious(g, 3); }
    assert !Spurious(g, 0) && !Spurious(g, 1) && !Spurious(g, 4);
    assert (Spurious(g, 2) ==> 20 <= end < 24) && (Spurious(g, 3) ==> 24 <= end < 32);
  }

  /** With the metadata in a quarter of the heap only a heap without unavailable memory has
      a spurious block, and it always has one. */
  lemma SpuriousQuarter(g: Layout)
    requires ValidLayout(g) && g.max >= 6 && g.meta <= Pow2(g.max - 2) && Pow2(g.max - 1) <= g.end
    ensures (exists k :: 0 <= k < g.max && Spurious(g, k)) <==> g.end == Pow2(g.max)
  {
    if g.end == Pow2(g.max) {
      RightBounds(g, g.max - 3);
      OverSmall(g.meta, g.max - 2, g.max - 2);
      assert Pow2(3) == 8 by { SmallPowers(); }
      assert Overrun(g, g.max - 3);
      assert Spurious(g, g.max - 3);
    } else {
      forall k | 0 <= k < g.max ensures !Spurious(g, k) {
        QuarterIsEnough(g, k);
        RightBounds(g, k);
      }
    }
  }

  /** The byte counts for which bd_init's check of the free amount fails: two ranges in which
      the left and the right pair of some size coincide, and every power of two from 1024 on,
      where a pair is read behind its bitmap. */
  predicate PanicBytes(n: nat) {
    224 <= n < 256 || 320 <= n < 512 || (n >= 1024 && n == LEAF_SIZE * Pow2(MaxSize(n)))
  }

  /** For heaps below 2^31 bytes, whose offsets fit the ints of the source. */
  lemma InitPanicBytes(n: nat)
    requires Manageable(n) && n < 0x8000_0000
    ensures ValidLayout(LayoutOf(n))
    ensures (exists k :: 0 <= k < MaxSize(n) && Spurious(LayoutOf(n), k)) <==> PanicBytes(n)
  {
    hide Spurious, Pow2, MaxSize, MetaLeaves, ValidLayout;
    ManageableExact(n);
    LeavesLow(n);
    if MaxSize(n) >= 6 {
      QuarterLayout(n);
      LargeMax(n);
      QuarterMeta(MaxSize(n));
      SpuriousQuarter(LayoutOf(n));
    } else {
      SmallMeta(MaxSize(n));
      SmallMax(n);
      SmallPowers();
      SmallPanic(n);
    }
  }

  lemma SmallPanic(n: nat)
    requires n >= 176 && (MaxSize(n) == 4 || MaxSize(n) == 5) && MetaLeaves(MaxSize(n)) == 2 * MaxSize(n) + 3
    requires MaxSize(n) == 4 ==> 128 < n <= 256
    requires MaxSize(n) == 5 ==> 256 < n <= 512
    ensures (exists k :: 0 <= k < MaxSize(n) && Spurious(LayoutOf(n), k)) <==> 224 <= n < 256 || 320 <= n < 512
  {
    hide Spurious, Pow2, MaxSize, MetaLeaves;
    var end := n / LEAF_SIZE;
    assert LayoutOf(n) == Layout(MaxSize(n), 2 * MaxSize(n) + 3, end);
    hide LayoutOf;
    if MaxSize(n) == 4 {
      SpuriousFour(end);
      assert 14 <= end < 16 <==> 224 <= n < 256;
    } else {
      SpuriousFive(end);
      assert 20 <= end < 32 <==> 320 <= n < 512;
    }
  }
}
