/** bd_init of kernel/buddy.c: marking the metadata [0, meta) and the unavailable memory
    [end, heap) at every size, and building the free lists from at most two buddy pairs
    per size. Positions are counted in leaves. */
module BuddyInit {
  import opened Buddy

  /** blk_index_next: x / 2^k rounded up. */
  function Over(x: nat, k: nat): nat {
    if k == 0 then x else (Over(x, k - 1) + 1) / 2
  }

  /** What bd_init computes: the heap has 2^max leaves, metadata takes the first meta of
      them, and from leaf end on they are unavailable. */
  datatype Layout = Layout(max: nat, meta: nat, end: nat)

  predicate ValidLayout(g: Layout) {
    1 <= g.max && 0 < g.meta <= g.end <= Pow2(g.max)
  }

  /** First block of size k without metadata; first block of size k not wholly available. */
  function Left(g: Layout, k: nat): nat { Over(g.meta, k) }
  function Right(g: Layout, k: nat): nat { Up(g.end, k) }

  predicate Marked(g: Layout, k: nat, b: nat) {
    b < Left(g, k) || b >= Right(g, k)
  }

  lemma RightStep(g: Layout, k: nat)
    ensures Right(g, k + 1) == Right(g, k) / 2
  {
    UpUp(g.end, k, 1);
    assert Up(Up(g.end, k), 1) == Up(g.end, k) / 2;
  }

  lemma {:induction false} LeftBounds(g: Layout, k: nat)
    requires ValidLayout(g) && k <= g.max
    ensures 1 <= Left(g, k) <= Pow2(g.max - k)
  {
    if k > 0 { LeftBounds(g, k - 1); }
  }

  lemma {:induction false} RightBounds(g: Layout, k: nat)
    requires ValidLayout(g) && k <= g.max
    ensures Right(g, k) <= Pow2(g.max - k) && (g.end < Pow2(g.max) ==> Right(g, k) < Pow2(g.max - k))
    ensures g.end == Pow2(g.max) ==> Right(g, k) == Pow2(g.max - k)
  {
    if k > 0 {
      RightBounds(g, k - 1);
      RightStep(g, k - 1);
    }
  }

  // ---------- marking ----------

  /** The bitmaps and empty lists after both calls of bd_mark. */
  ghost predicate IsMarked(g: Layout, h: Heap) {
    && h.max == g.max && |h.free| == g.max + 1
    && (forall k: nat, b: nat :: (k, b) in h.alloc <==> InTree(h, k, b) && Marked(g, k, b))
    && (forall k: nat, b: nat :: (k, b) in h.split <==> k > 0 && InTree(h, k, b) && Marked(g, k, b))
  }

  /** A block is marked exactly when one of its halves is. */
  lemma MarkedParent(g: Layout, k: nat, b: nat)
    ensures Marked(g, k + 1, b / 2) <==> Marked(g, k, 2 * (b / 2)) || Marked(g, k, 2 * (b / 2) + 1)
  {
    RightStep(g, k);
  }

  // ---------- the free lists ----------

  /** What bit_isset reads as bit b of the alloc bitmap of size k. The bits behind the last
      block are clear if they share its byte; otherwise they are the first bits of the next
      bitmap. */
  predicate Seen(h: Heap, k: nat, b: nat) {
    var p := if k <= h.max then Pow2(h.max - k) else 1;
    if b < p || p < 8 then (k, b) in h.alloc else (k + 1, b - p) in h.alloc
  }

  /** bd_initfree_pair: the free half of a pair with one marked half, at the list's front. */
  function InitPair(h: Heap, k: nat, b: nat): Heap
    requires k < |h.free|
  {
    var c := BuddyOf(b);
    if Seen(h, k, b) == Seen(h, k, c) then h
    else SetFree(h, k, [if Seen(h, k, b) then c else b] + h.free[k])
  }

  /** The body of bd_initfree's loop. */
  function InitLevel(g: Layout, h: Heap, k: nat): Heap
    requires k < |h.free|
  {
    var h1 := InitPair(h, k, Left(g, k));
    if Right(g, k) <= Left(g, k) then h1 else InitPair(h1, k, Right(g, k))
  }

  /** bd_initfree after the sizes below n. */
  function InitFree(g: Layout, h: Heap, n: nat): (r: Heap)
    requires n <= |h.free|
    ensures |r.free| == |h.free| && r.alloc == h.alloc && r.split == h.split && r.max == h.max
  {
    if n == 0 then h else InitLevel(g, InitFree(g, h, n - 1), n - 1)
  }

  /** The left and right pair of size k are one pair, whose free half is listed twice. */
  predicate Doubled(g: Layout, k: nat) {
    Left(g, k) % 2 == 0 && Right(g, k) == Left(g, k) + 1
  }

  /** Nothing is unavailable, and the right pair of size k, behind the heap, reads as half
      marked: the metadata lies in the first block of the next size. */
  predicate Overrun(g: Layout, k: nat) {
    k < g.max && Right(g, k) == Pow2(g.max - k) >= 8 && Left(g, k + 1) == 1
  }

  /** Size k makes bd_initfree count a block that is not there. */
  predicate Spurious(g: Layout, k: nat) {
    Doubled(g, k) || Overrun(g, k)
  }

  /** The left pair of every size is read inside its bitmap. */
  ghost predicate Padded(g: Layout) {
    forall k {:trigger Left(g, k)} :: 0 <= k < g.max ==> Left(g, k) < Pow2(g.max - k) || Pow2(g.max - k) < 8
  }

  function InitList(l: nat, r: nat): seq<nat> {
    if r <= l then []
    else if l % 2 == 1 then (if r % 2 == 1 then [r - 1, l] else [l])
    else if r % 2 == 0 then []
    else if r == l + 1 then [l, l]
    else [r - 1]
  }

  /** The list of size k. */
  function LevelItems(g: Layout, k: nat): seq<nat> {
    (if Overrun(g, k) then [Right(g, k) + 1] else []) + InitList(Left(g, k), Right(g, k))
  }

  lemma MarkedBits(g: Layout, h: Heap, k: nat, b: nat)
    requires IsMarked(g, h) && InTree(h, k, b)
    ensures (k, b) in h.alloc <==> b < Left(g, k) || b >= Right(g, k)
  {
  }

  lemma SetFreeMarked(g: Layout, h: Heap, k: nat, l: seq<nat>)
    requires IsMarked(g, h) && k <= g.max
    ensures IsMarked(g, SetFree(h, k, l))
  {
    var w := SetFree(h, k, l);
    assert forall j: nat, b: nat :: InTree(w, j, b) <==> InTree(h, j, b);
  }

  lemma LevelBounds(g: Layout, k: nat)
    requires ValidLayout(g) && k < g.max
    ensures 1 <= Left(g, k) <= Pow2(g.max - k) && Right(g, k) <= Pow2(g.max - k) && Pow2(g.max - k) % 2 == 0
    ensures Left(g, k + 1) == (Left(g, k) + 1) / 2 >= 1
    ensures Pow2(g.max - k) == 2 * Pow2(g.max - k - 1) && Right(g, k + 1) == Right(g, k) / 2
  {
    LeftBounds(g, k);
    RightBounds(g, k);
    RightStep(g, k);
  }

  /** A bit of a block of the heap, in numbers. */
  lemma SeenAt(g: Layout, h: Heap, k: nat, b: nat)
    requires IsMarked(g, h) && k < g.max && b < Pow2(g.max - k)
    ensures Seen(h, k, b) <==> b < Left(g, k) || b >= Right(g, k)
  {
  }

  /** The two bits behind the last block. */
  lemma SeenBehind(g: Layout, h: Heap, k: nat)
    requires ValidLayout(g) && IsMarked(g, h) && k < g.max
    ensures var p := Pow2(g.max - k);
      (Seen(h, k, p) <==> p >= 8) &&
      (Seen(h, k, p + 1) <==> p >= 8 && (Left(g, k + 1) > 1 || Right(g, k + 1) <= 1))
  {
    LevelBounds(g, k);
  }

  /** The left pair, which may lie past the last block. */
  lemma LeftPair(g: Layout, h: Heap, k: nat)
    requires ValidLayout(g) && Padded(g) && IsMarked(g, h) && k < g.max && k < |h.free| && h.free[k] == []
    ensures var l, r := Left(g, k), Right(g, k);
      InitPair(h, k, l) == SetFree(h, k, if l < r && (l % 2 == 1 || r == l + 1) then [l] else [])
  {
    assert Left(g, k) < Pow2(g.max - k) || Pow2(g.max - k) < 8;
    hide Pow2, IsMarked, Left, Right, ValidLayout, Seen, Padded;
    LevelBounds(g, k);
    var l := Left(g, k);
    if l < Pow2(g.max - k) {
      SeenAt(g, h, k, l);
      SeenAt(g, h, k, BuddyOf(l));
    } else {
      SeenBehind(g, h, k);
    }
    assert h.free == h.free[k := []];
    assert [l] + h.free[k] == [l];
  }

  lemma RightPair(g: Layout, h: Heap, k: nat, free: seq<nat>)
    requires ValidLayout(g) && IsMarked(g, h) && k < g.max && k < |h.free| && Left(g, k) < Right(g, k)
    ensures var r := Right(g, k);
      InitPair(SetFree(h, k, free), k, r) ==
      SetFree(h, k, if Overrun(g, k) then [r + 1] + free else if r % 2 == 1 then [r - 1] + free else free)
  {
    hide Pow2, IsMarked, Left, Right, ValidLayout, Seen;
    LevelBounds(g, k);
    var r := Right(g, k);
    SameSeen(h, k, free, r);
    SameSeen(h, k, free, BuddyOf(r));
    if r < Pow2(g.max - k) {
      SeenAt(g, h, k, r);
      SeenAt(g, h, k, BuddyOf(r));
    } else {
      SeenBehind(g, h, k);
    }
  }

  lemma SameSeen(h: Heap, k: nat, free: seq<nat>, b: nat)
    requires k < |h.free|
    ensures Seen(SetFree(h, k, free), k, b) == Seen(h, k, b)
  {
  }

  lemma LevelList(g: Layout, h: Heap, k: nat)
    requires ValidLayout(g) && Padded(g) && IsMarked(g, h) && k < g.max && k < |h.free| && h.free[k] == []
    ensures InitLevel(g, h, k) == SetFree(h, k, LevelItems(g, k))
  {
    hide Pow2, IsMarked, Left, Right, ValidLayout, InitPair, Padded;
    var l, r := Left(g, k), Right(g, k);
    LevelBounds(g, k);
    LeftPair(g, h, k);
    if l < r {
      var left := if l % 2 == 1 || r == l + 1 then [l] else [];
      RightPair(g, h, k, left);
      assert LevelItems(g, k) ==
             if Overrun(g, k) then [r + 1] + left else if r % 2 == 1 then [r - 1] + left else left;
    } else {
      assert !Overrun(g, k) && LevelItems(g, k) == [];
    }
  }

  ghost function InitLists(g: Layout, n: nat): seq<seq<nat>> {
    seq(g.max + 1, k requires 0 <= k <= g.max => if k < n then LevelItems(g, k) else [])
  }

  lemma {:induction false} InitFreeLists(g: Layout, h: Heap, n: nat)
    requires ValidLayout(g) && Padded(g) && IsMarked(g, h) && n <= g.max && h.free == InitLists(g, 0)
    ensures |h.free| == g.max + 1
    ensures IsMarked(g, InitFree(g, h, n)) && InitFree(g, h, n).free == InitLists(g, n)
  {
    hide IsMarked, InitLevel, LevelItems, Left, Right, ValidLayout, InitLists, Padded;
    InitListsLength(g, 0);
    if n > 0 {
      InitFreeLists(g, h, n - 1);
      var p := InitFree(g, h, n - 1);
      InitListsNext(g, n);
      LevelList(g, p, n - 1);
      SetFreeMarked(g, p, n - 1, LevelItems(g, n - 1));
    }
  }

  lemma InitListsLength(g: Layout, n: nat)
    ensures |InitLists(g, n)| == g.max + 1
  {
  }

  lemma InitListsNext(g: Layout, n: nat)
    requires 0 < n <= g.max
    ensures |InitLists(g, n - 1)| == g.max + 1 && InitLists(g, n - 1)[n - 1] == []
    ensures InitLists(g, n) == InitLists(g, n - 1)[n - 1 := LevelItems(g, n - 1)]
  {
    hide LevelItems;
  }

  lemma InitListsAt(g: Layout, k: nat)
    requires k < g.max
    ensures |InitLists(g, g.max)| == g.max + 1 && InitLists(g, g.max)[k] == LevelItems(g, k)
  {
  }

  // ---------- what bd_init builds ----------

  /** The state in which bd_init leaves the allocator. */
  ghost predicate IsInitial(g: Layout, h: Heap) {
    IsMarked(g, h) && h.free == InitLists(g, g.max)
  }

  /** Which blocks of the heap are listed. */
  lemma Listed(g: Layout, k: nat, b: nat)
    requires ValidLayout(g) && k < g.max && b < Pow2(g.max - k)
    ensures b in LevelItems(g, k) <==> !Marked(g, k, b) && Marked(g, k, BuddyOf(b))
  {
    hide Pow2, Left, Right, ValidLayout;
    LevelBounds(g, k);
  }

  lemma InitialFree(g: Layout, h: Heap, k: nat, b: nat)
    requires ValidLayout(g) && IsInitial(g, h) && InTree(h, k, b)
    ensures k < |h.free| && (b in h.free[k] <==> k < g.max && !Marked(g, k, b) && Marked(g, k, BuddyOf(b)))
  {
    if k < g.max {
      InitListsAt(g, k);
      Listed(g, k, b);
    }
  }

  lemma InitialNode(g: Layout, h: Heap, k: nat, b: nat)
    requires ValidLayout(g) && IsInitial(g, h) && InTree(h, k, b)
    ensures NodeOk(h, k, b)
  {
    InitialFree(g, h, k, b);
    hide InitLists;
    if k > 0 {
      MarkedParent(g, k - 1, 2 * b);
      assert Pow2(g.max - (k - 1)) == 2 * Pow2(g.max - k);
      assert InTree(h, k - 1, 2 * b) && InTree(h, k - 1, 2 * b + 1);
    }
    if k < g.max {
      MarkedParent(g, k, b);
      assert Pow2(g.max - k) == 2 * Pow2(g.max - 1 - k);
      assert InTree(h, k + 1, b / 2);
    } else {
      LeftBounds(g, k);
    }
  }

  /** Without a spurious block the list of size k has blocks of the heap, each once. */
  lemma PlainItems(g: Layout, k: nat)
    requires ValidLayout(g) && k < g.max && !Spurious(g, k)
    ensures NoDup(LevelItems(g, k)) && forall i :: 0 <= i < |LevelItems(g, k)| ==> LevelItems(g, k)[i] < Pow2(g.max - k)
  {
    hide Pow2, Left, Right, ValidLayout;
    LevelBounds(g, k);
  }

  lemma InitialBounds(g: Layout, h: Heap)
    requires ValidLayout(g) && IsInitial(g, h) && forall k :: 0 <= k < g.max ==> !Spurious(g, k)
    ensures Bounds(h)
  {
    hide Spurious, LevelItems, ValidLayout;
    forall k | 0 <= k < g.max
      ensures NoDup(h.free[k]) && forall i :: 0 <= i < |h.free[k]| ==> InTree(h, k, h.free[k][i])
    {
      InitListsAt(g, k);
      PlainItems(g, k);
    }
  }

  /** Marked blocks above the leaves are split, so only leaves are live. */
  lemma InitialLive(g: Layout, h: Heap, k: nat, b: nat)
    requires ValidLayout(g) && IsInitial(g, h)
    ensures Live(h, k, b) <==> k == 0 && InTree(h, 0, b) && Marked(g, 0, b)
  {
    if InTree(h, k, b) {
      InitialNode(g, h, k, b);
      MarkedBits(g, h, k, b);
    }
  }

  /** Without a spurious block bd_init builds a consistent tree whose live blocks are the
      marked leaves. */
  lemma InitialOk(g: Layout, h: Heap)
    requires ValidLayout(g) && IsInitial(g, h) && forall k :: 0 <= k < g.max ==> !Spurious(g, k)
    ensures Grounded(h)
    ensures forall k: nat, b: nat :: Live(h, k, b) <==> k == 0 && InTree(h, 0, b) && Marked(g, 0, b)
  {
    InitialBounds(g, h);
    forall k: nat, b: nat | InTree(h, k, b) ensures NodeOk(h, k, b) { InitialNode(g, h, k, b); }
    LeftBounds(g, 0);
    hide IsInitial, NodeOk, Bounds, InitList;
    forall k: nat, b: nat ensures Live(h, k, b) <==> k == 0 && InTree(h, 0, b) && Marked(g, 0, b) {
      InitialLive(g, h, k, b);
    }
    assert h.max == g.max by { SameMax(g, h); }
    assert Live(h, 0, 0);
  }

  lemma SameMax(g: Layout, h: Heap)
    requires IsInitial(g, h)
    ensures h.max == g.max
  {
  }

  // ---------- the amount bd_initfree reports ----------

  /** Whole blocks of size k between metadata and unavailable memory. */
  function Whole(g: Layout, k: nat): nat {
    if Right(g, k) > Left(g, k) then Right(g, k) - Left(g, k) else 0
  }

  function SpuriousLeaves(g: Layout, n: nat): nat {
    if n == 0 then 0 else SpuriousLeaves(g, n - 1) + if Spurious(g, n - 1) then Pow2(n - 1) else 0
  }

  lemma WholeLeaves(g: Layout)
    requires g.meta <= g.end
    ensures Whole(g, 0) == g.end - g.meta
  {
  }

  lemma WholeStep(g: Layout, k: nat)
    ensures Whole(g, k) + (if Spurious(g, k) then 1 else 0) == |LevelItems(g, k)| + 2 * Whole(g, k + 1)
  {
    RightStep(g, k);
  }

  lemma LevelArith(c: nat, w: nat, d: nat, whole: nat, p: nat)
    requires whole + d == c + 2 * w
    ensures whole * p + d * p == c * p + w * (2 * p)
  {
    assert whole * p + d * p == (whole + d) * p;
    assert (c + 2 * w) * p == c * p + w * (2 * p);
  }

  lemma {:induction false} InitLeaves(g: Layout, free: seq<seq<nat>>, n: nat)
    requires n <= g.max && free == InitLists(g, g.max) && g.meta <= g.end
    ensures n <= |free| && FreeLeaves(free, n) + Whole(g, n) * Pow2(n) == g.end - g.meta + SpuriousLeaves(g, n)
  {
    hide InitLists, Left, Right, Spurious, LevelItems;
    InitListsLength(g, g.max);
    if n == 0 {
      WholeLeaves(g);
    } else {
      InitLeaves(g, free, n - 1);
      WholeStep(g, n - 1);
      InitListsAt(g, n - 1);
      hide Whole;
      LevelArith(|free[n - 1]|, Whole(g, n), if Spurious(g, n - 1) then 1 else 0, Whole(g, n - 1), Pow2(n - 1));
    }
  }

  lemma {:induction false} SpuriousZero(g: Layout, n: nat)
    ensures SpuriousLeaves(g, n) == 0 <==> forall k :: 0 <= k < n ==> !Spurious(g, k)
  {
    if n > 0 { SpuriousZero(g, n - 1); }
  }

  /** bd_initfree counts what it pushed, which is what lies on the lists. Compared with
      HEAP_SIZE-meta-unavailable, it is too much by every block listed twice. */
  lemma InitAmount(g: Layout, h: Heap)
    requires ValidLayout(g) && IsInitial(g, h)
    ensures TotalFree(h) == g.end - g.meta + SpuriousLeaves(g, g.max)
  {
    InitLeaves(g, h.free, g.max);
    RightBounds(g, g.max);
    LeftBounds(g, g.max - 1);
    assert Whole(g, g.max) == 0;
  }

  /** The panic "bd_init: free mem" is reached exactly when some size has a spurious block:
      its pairs are doubled, or its right pair lies behind the bitmap. */
  lemma InitPanicExact(g: Layout, h: Heap)
    requires ValidLayout(g) && IsInitial(g, h)
    ensures TotalFree(h) != g.end - g.meta <==> exists k :: 0 <= k < g.max && Spurious(g, k)
  {
    InitAmount(g, h);
    SpuriousZero(g, g.max);
  }

  lemma {:induction false} OverSmall(x: nat, n: nat, k: nat)
    requires 0 < x <= Pow2(n) && k <= n
    ensures 1 <= Over(x, k) <= Pow2(n - k)
  {
    if k > 0 { OverSmall(x, n, k - 1); }
  }

  lemma {:induction false} UpLarge(x: nat, n: nat, k: nat)
    requires Pow2(n) <= x && k <= n
    ensures Pow2(n - k) <= Up(x, k)
  {
    if k > 0 {
      UpLarge(x, n, k - 1);
      UpUp(x, k - 1, 1);
      assert Up(Up(x, k - 1), 1) == Up(x, k - 1) / 2;
    }
  }

  /** When metadata fits in a quarter of the heap and half of the heap is available, no
      pair is doubled. */
  lemma QuarterIsEnough(g: Layout, k: nat)
    requires ValidLayout(g) && 2 <= g.max && g.meta <= Pow2(g.max - 2) && Pow2(g.max - 1) <= g.end && k < g.max
    ensures !Doubled(g, k)
  {
    UpLarge(g.end, g.max - 1, k);
    if k <= g.max - 2 {
      OverSmall(g.meta, g.max - 2, k);
      assert Pow2(g.max - 1 - k) == 2 * Pow2(g.max - 2 - k);
    } else {
      OverSmall(g.meta, g.max - 2, g.max - 2);
    }
  }

  /** bd_init followed by any run of bd_malloc and bd_free: the system starts consistent
      with the free bytes that bd_init checks for. */
  lemma InitStarts(g: Layout, h: Heap, marked: set<nat>)
    requires ValidLayout(g) && IsInitial(g, h) && forall k :: 0 <= k < g.max ==> !Spurious(g, k)
    requires forall b: nat :: b in marked <==> InTree(h, 0, b) && Marked(g, 0, b)
    ensures SystemOk(System(h, []), marked, g.end - g.meta)
  {
    InitialOk(g, h);
    InitAmount(g, h);
    SpuriousZero(g, g.max);
    assert Live(h, 0, 0);
  }
}
