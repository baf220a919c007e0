/** The buddy allocator of kernel/buddy.c as values: one alloc bit and one split bit
    per block and one free list per size encode a binary tree over the heap. Memory is
    counted in leaves of LEAF_SIZE bytes from bd_base; block b of size k is the leaves
    i with Up(i, k) == b. */
module Buddy {
  import opened Options

  const LEAF_SIZE := 16

  function Pow2(n: nat): (r: nat)
    ensures r >= 1
  {
    if n == 0 then 1 else 2 * Pow2(n - 1)
  }

  /** i >> n: the index, n sizes up, of the block that contains block i. */
  function Up(i: nat, n: nat): nat {
    if n == 0 then i else Up(i / 2, n - 1)
  }

  /** b << n: the index, n sizes down, of the leftmost block inside block b. */
  function Down(b: nat, n: nat): nat
    decreases n
  {
    if n == 0 then b else Down(2 * b, n - 1)
  }

  function BuddyOf(b: nat): nat {
    if b % 2 == 0 then b + 1 else b - 1
  }

  /** max is MAXSIZE. A block (k, b) is in alloc or split when its bit is set; free[k]
      is the free list of size k, first element first. */
  datatype Heap = Heap(max: nat, alloc: set<(nat, nat)>, split: set<(nat, nat)>, free: seq<seq<nat>>)

  predicate InTree(h: Heap, k: nat, b: nat) {
    k <= h.max && b < Pow2(h.max - k)
  }

  /** The block is one the tree is currently cut into, or further split. */
  predicate Exists(h: Heap, k: nat, b: nat) {
    k == h.max || (k + 1, b / 2) in h.split
  }

  /** What the two bits and the free list say about one block. */
  ghost predicate NodeOk(h: Heap, k: nat, b: nat)
    requires k < |h.free|
  {
    && (b in h.free[k] <==> Exists(h, k, b) && (k, b) !in h.alloc)
    && ((k, b) in h.alloc ==> Exists(h, k, b))
    && ((k, b) in h.split ==> k > 0 && (k, b) in h.alloc)
    && ((k, b) in h.split ==> (k - 1, 2 * b) in h.alloc || (k - 1, 2 * b + 1) in h.alloc)
  }

  ghost predicate NoDup(s: seq<nat>) {
    forall i, j :: 0 <= i < j < |s| ==> s[i] != s[j]
  }

  ghost predicate Bounds(h: Heap) {
    && |h.free| == h.max + 1
    && (forall k, b :: (k, b) in h.alloc ==> InTree(h, k, b))
    && (forall k, b :: (k, b) in h.split ==> InTree(h, k, b))
    && (forall k, i :: 0 <= k <= h.max && 0 <= i < |h.free[k]| ==> InTree(h, k, h.free[k][i]))
    && (forall k :: 0 <= k <= h.max ==> NoDup(h.free[k]))
  }

  ghost predicate Inv(h: Heap) {
    Bounds(h) && forall k, b {:trigger NodeOk(h, k, b)} :: InTree(h, k, b) ==> NodeOk(h, k, b)
  }

  /** Handed out by bd_malloc, or marked at initialisation. */
  predicate Live(h: Heap, k: nat, b: nat) {
    InTree(h, k, b) && Exists(h, k, b) && (k, b) in h.alloc && (k, b) !in h.split
  }

  predicate IsFree(h: Heap, k: nat, b: nat) {
    InTree(h, k, b) && Exists(h, k, b) && (k, b) !in h.alloc
  }

  // ---------- elementary steps ----------

  function SetFree(h: Heap, k: nat, l: seq<nat>): Heap
    requires k < |h.free|
  {
    h.(free := h.free[k := l])
  }

  /** lst_pop and bit_set(alloc): the first free block of size k becomes live. */
  function Take(h: Heap, k: nat): Heap
    requires k < |h.free| && h.free[k] != []
  {
    h.(alloc := h.alloc + {(k, h.free[k][0])}, free := h.free[k := h.free[k][1..]])
  }

  /** One round of bd_malloc's second loop. */
  function SplitOne(h: Heap, k: nat, b: nat): Heap
    requires 0 < k < |h.free|
  {
    h.(split := h.split + {(k, b)}, alloc := h.alloc + {(k - 1, 2 * b)},
       free := h.free[k - 1 := [2 * b + 1] + h.free[k - 1]])
  }

  /** lst_remove of a block that is on the list. */
  function Remove(s: seq<nat>, x: nat): seq<nat> {
    if s == [] then [] else if s[0] == x then s[1..] else [s[0]] + Remove(s[1..], x)
  }

  /** One round of bd_free's loop that merges. */
  function MergeOne(h: Heap, k: nat, b: nat): Heap
    requires k < |h.free|
  {
    h.(alloc := h.alloc - {(k, b)}, split := h.split - {(k + 1, b / 2)},
       free := h.free[k := Remove(h.free[k], BuddyOf(b))])
  }

  /** The end of bd_free: bit_clear unless at MAXSIZE, and lst_push. */
  function Release(h: Heap, k: nat, b: nat): Heap
    requires k < |h.free|
  {
    h.(alloc := if k < h.max then h.alloc - {(k, b)} else h.alloc, free := h.free[k := [b] + h.free[k]])
  }

  // ---------- each step keeps the tree and moves exactly one block ----------

  lemma TakeKeeps(h: Heap, k: nat)
    requires Inv(h) && k <= h.max && h.free[k] != []
    ensures Inv(Take(h, k))
    ensures IsFree(h, k, h.free[k][0]) && Live(Take(h, k), k, h.free[k][0])
    ensures forall j, c :: Live(Take(h, k), j, c) <==> Live(h, j, c) || (j == k && c == h.free[k][0])
  {
    var h' := Take(h, k);
    var b := h.free[k][0];
    TakeBounds(h, k);
    TakeLive(h, k, k, b);
    hide Bounds, NodeOk, Live, Exists;
    forall j, c | InTree(h', j, c) ensures NodeOk(h', j, c) { TakeNode(h, k, j, c); }
    forall j, c ensures Live(h', j, c) <==> Live(h, j, c) || (j == k && c == b) { TakeLive(h, k, j, c); }
  }

  /** The first free block of size k. */
  lemma TakeFacts(h: Heap, k: nat)
    requires Inv(h) && k <= h.max && h.free[k] != []
    ensures var b := h.free[k][0];
      && InTree(h, k, b) && Exists(h, k, b) && (k, b) !in h.alloc && (k, b) !in h.split
      && (forall c :: c in h.free[k][1..] <==> c in h.free[k] && c != b)
  {
    var b, l := h.free[k][0], h.free[k];
    assert InTree(h, k, b) && b in l;
    assert NodeOk(h, k, b);
    hide NodeOk, Exists;
    forall c ensures c in l[1..] <==> c in l && c != b {
      if c in l && c != b {
        var i :| 0 <= i < |l| && l[i] == c;
        assert l[1..][i - 1] == c;
      }
      if c in l[1..] {
        var i :| 0 <= i < |l[1..]| && l[1..][i] == c;
        assert l[i + 1] == c;
      }
    }
  }

  lemma TakeBounds(h: Heap, k: nat)
    requires Inv(h) && k <= h.max && h.free[k] != []
    ensures Bounds(Take(h, k))
  {
    TakeFacts(h, k);
    hide NodeOk, Exists;
  }

  lemma TakeNode(h: Heap, k: nat, j: nat, c: nat)
    requires Inv(h) && k <= h.max && h.free[k] != [] && InTree(h, j, c)
    ensures NodeOk(Take(h, k), j, c)
  {
    TakeFacts(h, k);
    assert NodeOk(h, j, c);
    hide Bounds;
  }

  lemma TakeLive(h: Heap, k: nat, j: nat, c: nat)
    requires Inv(h) && k <= h.max && h.free[k] != []
    ensures Live(Take(h, k), j, c) <==> Live(h, j, c) || (j == k && c == h.free[k][0])
    ensures IsFree(h, k, h.free[k][0]) && Live(Take(h, k), k, h.free[k][0])
  {
    TakeFacts(h, k);
    hide Inv;
  }

  /** Below a block that is not split nothing is marked or listed. */
  lemma BelowUnsplit(h: Heap, k: nat, b: nat, c: nat)
    requires Inv(h) && InTree(h, k, b) && k > 0 && (k, b) !in h.split && c / 2 == b
    ensures InTree(h, k - 1, c)
    ensures (k - 1, c) !in h.alloc && (k - 1, c) !in h.split && c !in h.free[k - 1]
  {
    assert NodeOk(h, k - 1, c);
  }

  lemma SplitBounds(h: Heap, k: nat, b: nat)
    requires Inv(h) && 0 < k <= h.max && Live(h, k, b)
    ensures Bounds(SplitOne(h, k, b))
  {
    BelowUnsplit(h, k, b, 2 * b);
    BelowUnsplit(h, k, b, 2 * b + 1);
  }

  lemma SplitNode(h: Heap, k: nat, b: nat, j: nat, c: nat)
    requires Inv(h) && 0 < k <= h.max && Live(h, k, b) && InTree(h, j, c)
    ensures NodeOk(SplitOne(h, k, b), j, c)
  {
    BelowUnsplit(h, k, b, 2 * b);
    BelowUnsplit(h, k, b, 2 * b + 1);
    assert NodeOk(h, j, c);
    if j == k - 1 { assert c in SplitOne(h, k, b).free[j] <==> c == 2 * b + 1 || c in h.free[j]; }
  }

  lemma SplitLive(h: Heap, k: nat, b: nat, j: nat, c: nat)
    requires Inv(h) && 0 < k <= h.max && Live(h, k, b)
    ensures Live(SplitOne(h, k, b), j, c) <==> (Live(h, j, c) && !(j == k && c == b)) || (j == k - 1 && c == 2 * b)
  {
    BelowUnsplit(h, k, b, 2 * b);
    BelowUnsplit(h, k, b, 2 * b + 1);
    if InTree(h, j, c) { assert NodeOk(h, j, c); }
  }

  lemma SplitKeeps(h: Heap, k: nat, b: nat)
    requires Inv(h) && 0 < k <= h.max && Live(h, k, b)
    ensures Inv(SplitOne(h, k, b)) && Live(SplitOne(h, k, b), k - 1, 2 * b)
    ensures forall j, c :: Live(SplitOne(h, k, b), j, c) <==>
      (Live(h, j, c) && !(j == k && c == b)) || (j == k - 1 && c == 2 * b)
  {
    SplitBounds(h, k, b);
    var h' := SplitOne(h, k, b);
    hide Bounds, NodeOk, Live, Exists;
    forall j, c | InTree(h', j, c) ensures NodeOk(h', j, c) { SplitNode(h, k, b, j, c); }
    forall j, c
      ensures Live(h', j, c) <==> (Live(h, j, c) && !(j == k && c == b)) || (j == k - 1 && c == 2 * b)
    {
      SplitLive(h, k, b, j, c);
    }
  }

  lemma {:induction false} RemoveFacts(s: seq<nat>, x: nat)
    requires NoDup(s) && x in s
    ensures NoDup(Remove(s, x)) && |Remove(s, x)| == |s| - 1
    ensures forall y :: y in Remove(s, x) <==> y in s && y != x
  {
    if s[0] != x {
      assert x in s[1..];
      RemoveFacts(s[1..], x);
      assert forall y :: y in s <==> y == s[0] || y in s[1..];
      var r := Remove(s[1..], x);
      forall i | 0 <= i < |r| ensures r[i] != s[0] {
        assert r[i] in s[1..];
      }
    } else {
      assert forall y :: y in s <==> y == s[0] || y in s[1..];
    }
  }

  /** Merging needs the buddy to be free. */
  ghost predicate CanMerge(h: Heap, k: nat, b: nat) {
    Inv(h) && k < h.max && Live(h, k, b) && (k, BuddyOf(b)) !in h.alloc
  }

  lemma MergeFacts(h: Heap, k: nat, b: nat)
    requires CanMerge(h, k, b)
    ensures InTree(h, k + 1, b / 2) && InTree(h, k, BuddyOf(b)) && BuddyOf(b) in h.free[k]
    ensures (k + 1, b / 2) in h.split && (k + 1, b / 2) in h.alloc && Exists(h, k + 1, b / 2)
    ensures (k, BuddyOf(b)) !in h.split
    ensures {2 * (b / 2), 2 * (b / 2) + 1} == {b, BuddyOf(b)}
  {
    assert Pow2(h.max - k) == 2 * Pow2(h.max - k - 1);
    assert NodeOk(h, k + 1, b / 2);
    assert NodeOk(h, k, BuddyOf(b));
  }

  lemma MergeBounds(h: Heap, k: nat, b: nat)
    requires CanMerge(h, k, b)
    ensures Bounds(MergeOne(h, k, b))
  {
    MergeFacts(h, k, b);
    RemoveFacts(h.free[k], BuddyOf(b));
    var l := Remove(h.free[k], BuddyOf(b));
    forall i | 0 <= i < |l| ensures InTree(h, k, l[i]) {
      assert l[i] in h.free[k];
    }
  }

  lemma MergeNode(h: Heap, k: nat, b: nat, j: nat, c: nat)
    requires CanMerge(h, k, b) && InTree(h, j, c)
    ensures NodeOk(MergeOne(h, k, b), j, c)
  {
    MergeFacts(h, k, b);
    RemoveFacts(h.free[k], BuddyOf(b));
    assert NodeOk(h, j, c);
  }

  lemma MergeLive(h: Heap, k: nat, b: nat, j: nat, c: nat)
    requires CanMerge(h, k, b)
    ensures Live(MergeOne(h, k, b), j, c) <==> (Live(h, j, c) && !(j == k && c == b)) || (j == k + 1 && c == b / 2)
  {
    MergeFacts(h, k, b);
    if InTree(h, j, c) { assert NodeOk(h, j, c); }
  }

  lemma MergeKeeps(h: Heap, k: nat, b: nat)
    requires CanMerge(h, k, b)
    ensures Inv(MergeOne(h, k, b)) && Live(MergeOne(h, k, b), k + 1, b / 2)
    ensures forall j, c :: Live(MergeOne(h, k, b), j, c) <==>
      (Live(h, j, c) && !(j == k && c == b)) || (j == k + 1 && c == b / 2)
  {
    MergeBounds(h, k, b);
    var h' := MergeOne(h, k, b);
    hide Bounds, NodeOk, Live, Exists;
    forall j, c | InTree(h', j, c) ensures NodeOk(h', j, c) { MergeNode(h, k, b, j, c); }
    forall j, c
      ensures Live(h', j, c) <==> (Live(h, j, c) && !(j == k && c == b)) || (j == k + 1 && c == b / 2)
    {
      MergeLive(h, k, b, j, c);
    }
  }

  lemma ReleaseKeeps(h: Heap, k: nat, b: nat)
    requires Inv(h) && k < h.max && Live(h, k, b) && (k, BuddyOf(b)) in h.alloc
    ensures Inv(Release(h, k, b)) && IsFree(Release(h, k, b), k, b)
    ensures forall j, c :: Live(Release(h, k, b), j, c) <==> Live(h, j, c) && !(j == k && c == b)
  {
    ReleaseBounds(h, k, b);
    var h' := Release(h, k, b);
    ReleaseLive(h, k, b, k, b);
    hide Bounds, NodeOk, Live, Exists;
    forall j, c | InTree(h', j, c) ensures NodeOk(h', j, c) { ReleaseNode(h, k, b, j, c); }
    forall j, c ensures Live(h', j, c) <==> Live(h, j, c) && !(j == k && c == b) { ReleaseLive(h, k, b, j, c); }
  }

  lemma ReleaseBounds(h: Heap, k: nat, b: nat)
    requires Inv(h) && k < h.max && Live(h, k, b)
    ensures Bounds(Release(h, k, b))
  {
    assert NodeOk(h, k, b) && b !in h.free[k];
  }

  lemma ReleaseNode(h: Heap, k: nat, b: nat, j: nat, c: nat)
    requires Inv(h) && k < h.max && Live(h, k, b) && (k, BuddyOf(b)) in h.alloc && InTree(h, j, c)
    ensures NodeOk(Release(h, k, b), j, c)
  {
    var h' := Release(h, k, b);
    assert NodeOk(h, k, b);
    assert NodeOk(h, j, c);
    assert c in h'.free[j] <==> (j == k && c == b) || c in h.free[j];
  }

  lemma ReleaseLive(h: Heap, k: nat, b: nat, j: nat, c: nat)
    requires Inv(h) && k < h.max && Live(h, k, b)
    ensures Live(Release(h, k, b), j, c) <==> Live(h, j, c) && !(j == k && c == b)
    ensures IsFree(Release(h, k, b), k, b)
  {
  }

  // ---------- bd_malloc and bd_free ----------

  /** The search loop of bd_malloc: the smallest size from k on with a free block. */
  function FirstFit(free: seq<seq<nat>>, k: nat): (r: nat)
    ensures k <= r || r == |free|
    ensures r <= |free| || r == k
    ensures forall j :: k <= j < r && j < |free| ==> free[j] == []
    ensures r < |free| ==> free[r] != []
    decreases |free| - k
  {
    if k >= |free| then k else if free[k] != [] then k else FirstFit(free, k + 1)
  }

  /** The splitting loop of bd_malloc, from block b of size k down to size fk. */
  function SplitDown(h: Heap, k: nat, fk: nat, b: nat): (r: Heap)
    requires fk <= k < |h.free|
    ensures r.max == h.max && |r.free| == |h.free|
    decreases k
  {
    if k == fk then h else SplitDown(SplitOne(h, k, b), k - 1, fk, 2 * b)
  }

  /** bd_malloc for blocks of size fk: the block, by its index at that size, and the heap. */
  function Malloc(h: Heap, fk: nat): (r: Option<(nat, Heap)>)
    requires |h.free| == h.max + 1
    ensures r.Some? ==> fk <= h.max && r.value.1.max == h.max && |r.value.1.free| == h.max + 1
  {
    var k := FirstFit(h.free, fk);
    if k > h.max then None
    else
      var b := h.free[k][0];
      Some((Down(b, k - fk), SplitDown(Take(h, k), k, fk, b)))
  }

  /** bd_free from size k on. */
  function FreeUp(h: Heap, k: nat, b: nat): (r: Heap)
    requires k <= h.max < |h.free|
    ensures r.max == h.max && |r.free| == |h.free|
    decreases h.max - k
  {
    if k == h.max || (k, BuddyOf(b)) in h.alloc then Release(h, k, b)
    else FreeUp(MergeOne(h, k, b), k + 1, b / 2)
  }

  /** The metadata at the start of the heap is never freed. */
  ghost predicate Grounded(h: Heap) {
    Inv(h) && Live(h, 0, 0)
  }

  lemma {:induction false} AncestorsSplit(h: Heap, k: nat, b: nat, n: nat)
    requires Inv(h) && InTree(h, k, b) && Exists(h, k, b) && 0 < n <= h.max - k
    ensures InTree(h, k + n, Up(b, n)) && (k + n, Up(b, n)) in h.split
    decreases n
  {
    assert (k + 1, b / 2) in h.split;
    if n > 1 {
      assert NodeOk(h, k + 1, b / 2);
      AncestorsSplit(h, k + 1, b / 2, n - 1);
    }
  }

  lemma {:induction false} UpZero(n: nat)
    ensures Up(0, n) == 0
  {
    if n > 0 { UpZero(n - 1); }
  }

  /** The whole heap is always split, so it is never itself free or live. */
  lemma RootSplit(h: Heap, k: nat, b: nat)
    requires Grounded(h) && h.max > 0
    ensures (h.max, 0) in h.split
    ensures Live(h, k, b) || IsFree(h, k, b) ==> k < h.max
  {
    AncestorsSplit(h, 0, 0, h.max);
    UpZero(h.max);
    assert NodeOk(h, h.max, 0);
  }

  lemma {:induction false} SplitDownKeeps(h: Heap, k: nat, fk: nat, b: nat)
    requires Inv(h) && fk <= k <= h.max && Live(h, k, b)
    ensures var h' := SplitDown(h, k, fk, b);
      && Inv(h') && h'.max == h.max && Live(h', fk, Down(b, k - fk))
      && forall j, c :: Live(h', j, c) <==>
        (Live(h, j, c) && !(j == k && c == b)) || (j == fk && c == Down(b, k - fk))
    decreases k
  {
    if k > fk {
      SplitKeeps(h, k, b);
      hide Inv, Live;
      SplitDownKeeps(SplitOne(h, k, b), k - 1, fk, 2 * b);
    }
  }

  /** bd_malloc keeps the tree and makes exactly one more block live. */
  lemma MallocKeeps(h: Heap, fk: nat)
    requires Inv(h) && Malloc(h, fk).Some?
    ensures var (b, h') := Malloc(h, fk).value;
      && Inv(h') && h'.max == h.max && fk <= h.max && !Live(h, fk, b)
      && forall j, c :: Live(h', j, c) <==> Live(h, j, c) || (j == fk && c == b)
  {
    var k := FirstFit(h.free, fk);
    var b := h.free[k][0];
    TakeKeeps(h, k);
    SplitDownKeeps(Take(h, k), k, fk, b);
    if k == fk {
      assert !Live(h, fk, b);
    } else {
      FreshBelow(h, k, b, k - fk);
    }
  }

  /** Nothing inside a free block is live. */
  lemma {:induction false} FreshBelow(h: Heap, k: nat, b: nat, n: nat)
    requires Inv(h) && InTree(h, k, b) && (k, b) !in h.split && 0 < n <= k
    ensures InTree(h, k - n, Down(b, n)) && (k - n, Down(b, n)) !in h.alloc && (k - n, Down(b, n)) !in h.split
    decreases n
  {
    BelowUnsplit(h, k, b, 2 * b);
    if n > 1 { FreshBelow(h, k - 1, 2 * b, n - 1); }
  }

  /** bd_free keeps the tree and makes exactly the given block not live. */
  lemma {:induction false} FreeKeeps(h: Heap, k: nat, b: nat)
    requires Inv(h) && k < h.max && Live(h, k, b)
    requires exists j, c :: Live(h, j, c) && !(j == k && c == b)
    ensures var h' := FreeUp(h, k, b);
      && Inv(h') && h'.max == h.max
      && forall j, c :: Live(h', j, c) <==> Live(h, j, c) && !(j == k && c == b)
    decreases h.max - k
  {
    if (k, BuddyOf(b)) in h.alloc {
      ReleaseKeeps(h, k, b);
    } else {
      AnotherLeft(h, k, b);
      MergeKeeps(h, k, b);
      hide Inv, Live;
      FreeKeeps(MergeOne(h, k, b), k + 1, b / 2);
    }
  }

  /** Merging does not come to the root while another block is live. */
  lemma AnotherLeft(h: Heap, k: nat, b: nat)
    requires CanMerge(h, k, b)
    requires exists j, c :: Live(h, j, c) && !(j == k && c == b)
    ensures k + 1 < h.max && !Live(h, k + 1, b / 2)
    ensures exists j, c :: Live(MergeOne(h, k, b), j, c) && !(j == k + 1 && c == b / 2)
  {
    MergeKeeps(h, k, b);
    MergeFacts(h, k, b);
    var h1 := MergeOne(h, k, b);
    var j, c :| Live(h, j, c) && !(j == k && c == b);
    assert !Live(h, k + 1, b / 2);
    hide Inv;
    assert Live(h1, j, c);
    OnlyRootAlone(h1, k + 1, b / 2, j, c);
  }

  lemma OnlyRootAlone(h: Heap, k: nat, b: nat, j: nat, c: nat)
    requires Inv(h) && Live(h, k, b) && Live(h, j, c) && !(j == k && c == b)
    ensures k < h.max
  {
    if k == h.max && j < h.max {
      AncestorsSplit(h, j, c, h.max - j);
    }
  }

  // ---------- what the tree means for memory ----------

  /** The blocks the heap is cut into: handed out or on a free list. */
  predicate Piece(h: Heap, k: nat, b: nat) {
    Live(h, k, b) || IsFree(h, k, b)
  }

  lemma {:induction false} UpUp(i: nat, m: nat, n: nat)
    ensures Up(Up(i, m), n) == Up(i, m + n)
    decreases m
  {
    if m > 0 { UpUp(i / 2, m - 1, n); }
  }

  /** Two different pieces share no leaf: live blocks overlap neither each other nor
      free memory nor the memory marked at initialisation. */
  lemma PiecesDisjoint(h: Heap, k: nat, b: nat, j: nat, c: nat, leaf: nat)
    requires Inv(h) && Piece(h, k, b) && Piece(h, j, c) && Up(leaf, k) == b && Up(leaf, j) == c
    ensures k == j && b == c
  {
    assert NodeOk(h, k, b) && NodeOk(h, j, c);
    if k < j {
      AncestorsSplit(h, k, b, j - k);
      UpUp(leaf, k, j - k);
    } else if j < k {
      AncestorsSplit(h, j, c, k - j);
      UpUp(leaf, j, k - j);
    }
  }

  lemma {:induction false} UpInTree(h: Heap, k: nat, b: nat, n: nat)
    requires InTree(h, k, b) && n <= h.max - k
    ensures InTree(h, k + n, Up(b, n))
    decreases n
  {
    if n > 0 {
      assert Pow2(h.max - k) == 2 * Pow2(h.max - k - 1);
      UpInTree(h, k + 1, b / 2, n - 1);
    }
  }

  /** Every leaf of the heap lies in a piece. */
  lemma {:induction false} LeafCovered(h: Heap, leaf: nat, k: nat) returns (j: nat)
    requires Inv(h) && InTree(h, 0, leaf) && k <= h.max
    requires forall i :: 0 <= i < k ==> !Exists(h, i, Up(leaf, i))
    ensures j <= h.max && Piece(h, j, Up(leaf, j))
    decreases h.max - k
  {
    var b := Up(leaf, k);
    UpInTree(h, 0, leaf, k);
    assert NodeOk(h, k, b);
    if Exists(h, k, b) {
      j := k;
      if k > 0 {
        UpUp(leaf, k - 1, 1);
        assert Up(Up(leaf, k - 1), 1) == Up(leaf, k - 1) / 2;
        assert !Exists(h, k - 1, Up(leaf, k - 1));
      }
    } else {
      j := LeafCovered(h, leaf, k + 1);
    }
  }

  // ---------- bd_malloc fails only when it has to ----------

  /** The leaf lies in a block that is on a free list. */
  ghost predicate FreeLeaf(h: Heap, leaf: nat) {
    exists k :: 0 <= k <= h.max && IsFree(h, k, Up(leaf, k))
  }

  /** Every leaf of block b of size k is free. */
  ghost predicate WhollyFree(h: Heap, k: nat, b: nat) {
    forall leaf :: InTree(h, 0, leaf) && Up(leaf, k) == b ==> FreeLeaf(h, leaf)
  }

  lemma {:induction false} UpDown(b: nat, n: nat)
    ensures Up(Down(b, n), n) == b
    decreases n
  {
    if n > 0 {
      UpDown(2 * b, n - 1);
      UpUp(Down(b, n), n - 1, 1);
    }
  }

  lemma {:induction false} DownInTree(h: Heap, k: nat, b: nat, n: nat)
    requires InTree(h, k, b) && n <= k
    ensures InTree(h, k - n, Down(b, n))
    decreases n
  {
    if n > 0 {
      assert Pow2(h.max - (k - 1)) == 2 * Pow2(h.max - k);
      DownInTree(h, k - 1, 2 * b, n - 1);
    }
  }

  /** A half of a wholly free block is wholly free. */
  lemma HalfFree(h: Heap, k: nat, b: nat, c: nat)
    requires 0 < k && WhollyFree(h, k, b) && c / 2 == b
    ensures WhollyFree(h, k - 1, c)
  {
    forall leaf | InTree(h, 0, leaf) && Up(leaf, k - 1) == c ensures FreeLeaf(h, leaf) {
      UpUp(leaf, k - 1, 1);
      assert Up(c, 1) == c / 2;
    }
  }

  /** Coalescing is complete: free memory that fills an aligned block lies inside one
      block on a free list, at least as large. */
  lemma {:induction false} CoalescedCover(h: Heap, k: nat, b: nat) returns (j: nat)
    requires Inv(h) && InTree(h, k, b) && WhollyFree(h, k, b)
    ensures k <= j <= h.max && IsFree(h, j, Up(b, j - k))
    decreases k
  {
    var leaf := Down(b, k);
    UpDown(b, k);
    DownInTree(h, k, b, k);
    assert FreeLeaf(h, leaf);
    var m :| 0 <= m <= h.max && IsFree(h, m, Up(leaf, m));
    if m >= k {
      UpUp(leaf, k, m - k);
      j := m;
    } else {
      // a free block strictly inside b: b is split and each half is covered
      AncestorsSplit(h, m, Up(leaf, m), k - m);
      UpUp(leaf, m, k - m);
      assert NodeOk(h, k, b);
      HalfFree(h, k, b, 2 * b);
      HalfFree(h, k, b, 2 * b + 1);
      assert Pow2(h.max - (k - 1)) == 2 * Pow2(h.max - k);
      var l := CoalescedCover(h, k - 1, 2 * b);
      var r := CoalescedCover(h, k - 1, 2 * b + 1);
      HalfIsFree(h, k, b, 2 * b, l);
      HalfIsFree(h, k, b, 2 * b + 1, r);
      assert false;
    }
  }

  /** If b is split, a free block that covers one of its halves is that half. */
  lemma HalfIsFree(h: Heap, k: nat, b: nat, c: nat, j: nat)
    requires Inv(h) && 0 < k && InTree(h, k, b) && (k, b) in h.split && c / 2 == b
    requires k - 1 <= j <= h.max && IsFree(h, j, Up(c, j - (k - 1)))
    ensures (k - 1, c) !in h.alloc
  {
    assert NodeOk(h, j, Up(c, j - (k - 1)));
    assert NodeOk(h, k, b);
    if j > k { AncestorsSplit(h, k, b, j - k); }
    assert j >= k ==> Up(c, j - (k - 1)) == Up(b, j - k);
  }

  /** bd_malloc returns 0 only when no aligned block of the requested size lies wholly
      in free memory; and then no free block of that size or more exists. */
  lemma MallocComplete(h: Heap, fk: nat)
    requires Inv(h)
    ensures Malloc(h, fk) == None <==> forall b :: InTree(h, fk, b) ==> !WhollyFree(h, fk, b)
  {
    forall b | InTree(h, fk, b) && WhollyFree(h, fk, b) ensures Malloc(h, fk).Some? {
      var j := CoalescedCover(h, fk, b);
      assert NodeOk(h, j, Up(b, j - fk));
    }
    if Malloc(h, fk).Some? {
      var k := FirstFit(h.free, fk);
      var b := h.free[k][0];
      assert InTree(h, k, b) && NodeOk(h, k, b) && b in h.free[k];
      var c := Down(b, k - fk);
      DownInTree(h, k, b, k - fk);
      UpDown(b, k - fk);
      forall leaf | InTree(h, 0, leaf) && Up(leaf, fk) == c ensures FreeLeaf(h, leaf) {
        UpUp(leaf, fk, k - fk);
        assert IsFree(h, k, Up(leaf, k));
      }
      assert WhollyFree(h, fk, c);
    }
  }

  // ---------- bd_free undoes bd_malloc ----------

  lemma MergeUndoesSplit(h: Heap, k: nat, b: nat)
    requires Inv(h) && 0 < k <= h.max && Live(h, k, b)
    ensures (k - 1, BuddyOf(2 * b)) !in SplitOne(h, k, b).alloc
    ensures MergeOne(SplitOne(h, k, b), k - 1, 2 * b) == h
  {
    BelowUnsplit(h, k, b, 2 * b);
    BelowUnsplit(h, k, b, 2 * b + 1);
    var m := MergeOne(SplitOne(h, k, b), k - 1, 2 * b);
    assert m.alloc == h.alloc && m.split == h.split;
    assert m.free[k - 1] == h.free[k - 1];
    assert m.free == h.free;
  }

  lemma {:induction false} FreeUndoesSplits(h: Heap, k: nat, fk: nat, b: nat)
    requires Inv(h) && fk <= k <= h.max && Live(h, k, b)
    ensures FreeUp(SplitDown(h, k, fk, b), fk, Down(b, k - fk)) == FreeUp(h, k, b)
    decreases k
  {
    if k > fk {
      SplitKeeps(h, k, b);
      FreeUndoesSplits(SplitOne(h, k, b), k - 1, fk, 2 * b);
      MergeUndoesSplit(h, k, b);
    }
  }

  /** A free block's buddy is not free as well. */
  lemma BuddyBusy(h: Heap, k: nat, b: nat)
    requires Inv(h) && k < h.max && IsFree(h, k, b)
    ensures (k, BuddyOf(b)) in h.alloc
  {
    assert Pow2(h.max - k) == 2 * Pow2(h.max - k - 1);
    assert NodeOk(h, k + 1, b / 2);
  }

  /** bd_free right after a successful bd_malloc restores every bitmap and every free
      list, the order of the lists included. */
  lemma FreeUndoesMalloc(h: Heap, fk: nat)
    requires Grounded(h) && h.max > 0 && Malloc(h, fk).Some?
    ensures var (b, h') := Malloc(h, fk).value; FreeUp(h', fk, b) == h
  {
    var k := FirstFit(h.free, fk);
    var b := h.free[k][0];
    TakeKeeps(h, k);
    RootSplit(h, k, b);
    FreeUndoesSplits(Take(h, k), k, fk, b);
    BuddyBusy(h, k, b);
    var r := Release(Take(h, k), k, b);
    assert r.alloc == h.alloc;
    assert r.free[k] == h.free[k];
    assert r.free == h.free;
  }

  // ---------- bytes are conserved ----------

  /** Leaves on the free lists of sizes below n. */
  function FreeLeaves(free: seq<seq<nat>>, n: nat): nat
    requires n <= |free|
  {
    if n == 0 then 0 else FreeLeaves(free, n - 1) + |free[n - 1]| * Pow2(n - 1)
  }

  /** One block more, or one less, on the list of size k. */
  lemma {:induction false} FreeLeavesUpdate(free: seq<seq<nat>>, n: nat, k: nat, l: seq<nat>)
    requires n <= |free| && k < |free|
    ensures |l| == |free[k]| + 1 ==> FreeLeaves(free[k := l], n) == FreeLeaves(free, n) + if k < n then Pow2(k) else 0
    ensures |l| == |free[k]| - 1 ==> FreeLeaves(free[k := l], n) == FreeLeaves(free, n) - if k < n then Pow2(k) else 0
  {
    if n > 0 {
      FreeLeavesUpdate(free, n - 1, k, l);
      assert (|free[k]| + 1) * Pow2(k) == |free[k]| * Pow2(k) + Pow2(k);
      assert (|free[k]| - 1) * Pow2(k) == |free[k]| * Pow2(k) - Pow2(k);
    }
  }

  function TotalFree(h: Heap): nat
    requires |h.free| == h.max + 1
  {
    FreeLeaves(h.free, h.max + 1)
  }

  lemma {:induction false} SplitDownBytes(h: Heap, k: nat, fk: nat, b: nat)
    requires |h.free| == h.max + 1 && fk <= k <= h.max
    ensures TotalFree(SplitDown(h, k, fk, b)) == TotalFree(h) + Pow2(k) - Pow2(fk)
    decreases k
  {
    if k > fk {
      hide FreeLeaves;
      SplitDownBytes(SplitOne(h, k, b), k - 1, fk, 2 * b);
      FreeLeavesUpdate(h.free, h.max + 1, k - 1, [2 * b + 1] + h.free[k - 1]);
    }
  }

  /** bd_malloc takes exactly the bytes of the block it returns off the free lists. */
  lemma MallocBytes(h: Heap, fk: nat)
    requires Inv(h) && Malloc(h, fk).Some?
    ensures TotalFree(Malloc(h, fk).value.1) == TotalFree(h) - Pow2(fk)
  {
    hide FreeLeaves, SplitDown;
    var k := FirstFit(h.free, fk);
    FreeLeavesUpdate(h.free, h.max + 1, k, h.free[k][1..]);
    SplitDownBytes(Take(h, k), k, fk, h.free[k][0]);
  }

  lemma MergedBytes(h: Heap, k: nat, b: nat)
    requires Inv(h) && k < h.max && Live(h, k, b) && (k, BuddyOf(b)) !in h.alloc
    ensures TotalFree(MergeOne(h, k, b)) == TotalFree(h) - Pow2(k)
  {
    hide FreeLeaves;
    MergeFacts(h, k, b);
    RemoveFacts(h.free[k], BuddyOf(b));
    FreeLeavesUpdate(h.free, h.max + 1, k, Remove(h.free[k], BuddyOf(b)));
  }

  /** bd_free puts exactly the bytes of the block back, however often it merges. */
  lemma {:induction false} FreeBytes(h: Heap, k: nat, b: nat)
    requires Inv(h) && k < h.max && Live(h, k, b)
    requires exists j, c :: Live(h, j, c) && !(j == k && c == b)
    ensures TotalFree(FreeUp(h, k, b)) == TotalFree(h) + Pow2(k)
    decreases h.max - k
  {
    hide FreeLeaves;
    if (k, BuddyOf(b)) in h.alloc {
      FreeLeavesUpdate(h.free, h.max + 1, k, [b] + h.free[k]);
    } else {
      MergedBytes(h, k, b);
      AnotherLeft(h, k, b);
      MergeKeeps(h, k, b);
      hide Inv, Live;
      FreeBytes(MergeOne(h, k, b), k + 1, b / 2);
    }
  }

  // ---------- size ----------

  /** size(p), from size k on: the first size whose parent block is split; C reads past
      the table when there is none. */
  function SizeFrom(h: Heap, p: nat, k: nat): Option<nat>
    decreases h.max - k
  {
    if k >= h.max then None
    else if (k + 1, Up(p, k + 1)) in h.split then Some(k)
    else SizeFrom(h, p, k + 1)
  }

  lemma {:induction false} UpOfDown(b: nat, k: nat, j: nat)
    ensures Up(Down(b, k), j) == if j <= k then Down(b, k - j) else Up(b, j - k)
  {
    if j <= k {
      DownDown(b, k - j, j);
      UpDown(Down(b, k - j), j);
    } else {
      UpDown(b, k);
      UpUp(Down(b, k), k, j - k);
    }
  }

  lemma {:induction false} DownDown(b: nat, m: nat, n: nat)
    ensures Down(Down(b, m), n) == Down(b, m + n)
    decreases m
  {
    if m > 0 { DownDown(2 * b, m - 1, n); }
  }

  lemma {:induction false} SizeFinds(h: Heap, k: nat, b: nat, j: nat)
    requires Inv(h) && Live(h, k, b) && j <= k < h.max
    ensures SizeFrom(h, Down(b, k), j) == Some(k)
    decreases k - j
  {
    UpOfDown(b, k, j + 1);
    if j == k {
      assert Up(b, 1) == b / 2;
    } else {
      if j + 1 < k { FreshBelow(h, k, b, k - j - 1); }
      SizeFinds(h, k, b, j + 1);
    }
  }

  /** size recovers, from split bits alone, the size at which a block was handed out. */
  lemma SizeCorrect(h: Heap, k: nat, b: nat)
    requires Grounded(h) && h.max > 0 && Live(h, k, b)
    ensures SizeFrom(h, Down(b, k), 0) == Some(k)
  {
    RootSplit(h, k, b);
    SizeFinds(h, k, b, 0);
  }

  // ---------- whole runs ----------

  /** The allocator and the blocks its callers hold, oldest first. */
  datatype System = System(h: Heap, out: seq<(nat, nat)>)

  datatype Op = Alloc(fk: nat) | Dealloc(i: nat)

  function Bytes(out: seq<(nat, nat)>): nat {
    if out == [] then 0 else Pow2(out[0].0) + Bytes(out[1..])
  }

  /** marked are the leaves kept back at initialisation, leaf 0 among them; total is
      what was free then. */
  ghost predicate SystemOk(s: System, marked: set<nat>, total: nat) {
    && Grounded(s.h) && s.h.max > 0 && 0 in marked
    && (forall k: nat, b: nat :: Live(s.h, k, b) <==> (k == 0 && b in marked) || (k, b) in s.out)
    && (forall i, j :: 0 <= i < j < |s.out| ==> s.out[i] != s.out[j])
    && (forall i :: 0 <= i < |s.out| ==> s.out[i].0 == 0 ==> s.out[i].1 !in marked)
    && TotalFree(s.h) + Bytes(s.out) == total
  }

  /** Callers free only blocks they hold; a failed bd_malloc changes nothing. */
  function Step(s: System, op: Op): System
    requires |s.h.free| == s.h.max + 1
    requires forall i :: 0 <= i < |s.out| ==> s.out[i].0 <= s.h.max
  {
    match op
    case Alloc(fk) =>
      (match Malloc(s.h, fk)
       case None => s
       case Some((b, h')) => System(h', s.out + [(fk, b)]))
    case Dealloc(i) =>
      if i >= |s.out| then s
      else System(FreeUp(s.h, s.out[i].0, s.out[i].1), s.out[..i] + s.out[i + 1..])
  }

  lemma {:induction false} BytesAppend(out: seq<(nat, nat)>, x: (nat, nat))
    ensures Bytes(out + [x]) == Bytes(out) + Pow2(x.0)
  {
    if out != [] {
      assert (out + [x])[1..] == out[1..] + [x];
      BytesAppend(out[1..], x);
    }
  }

  lemma {:induction false} BytesRemove(out: seq<(nat, nat)>, i: nat)
    requires i < |out|
    ensures Bytes(out[..i] + out[i + 1..]) == Bytes(out) - Pow2(out[i].0)
  {
    if i == 0 {
      assert out[..0] + out[1..] == out[1..];
    } else {
      var r := out[..i] + out[i + 1..];
      assert r[1..] == out[1..][..i - 1] + out[1..][i..];
      BytesRemove(out[1..], i - 1);
    }
  }

  lemma AllocKeeps(s: System, marked: set<nat>, total: nat, fk: nat)
    requires SystemOk(s, marked, total) && Malloc(s.h, fk).Some?
    ensures var (b, h') := Malloc(s.h, fk).value; SystemOk(System(h', s.out + [(fk, b)]), marked, total)
  {
    MallocKeeps(s.h, fk);
    MallocBytes(s.h, fk);
    var (b, h') := Malloc(s.h, fk).value;
    BytesAppend(s.out, (fk, b));
    hide Malloc, Live, Inv, TotalFree;
    var out := s.out + [(fk, b)];
    assert Live(s.h, 0, 0);
    assert forall x :: x in out <==> x in s.out || x == (fk, b);
    assert (fk, b) !in s.out;
  }

  lemma DeallocHeap(h: Heap, k: nat, b: nat)
    requires Grounded(h) && h.max > 0 && Live(h, k, b) && !(k == 0 && b == 0)
    ensures k < h.max && Grounded(FreeUp(h, k, b)) && TotalFree(FreeUp(h, k, b)) == TotalFree(h) + Pow2(k)
    ensures forall j, c :: Live(FreeUp(h, k, b), j, c) <==> Live(h, j, c) && !(j == k && c == b)
  {
    RootSplit(h, k, b);
    FreeKeeps(h, k, b);
    FreeBytes(h, k, b);
  }

  lemma DeallocKeeps(s: System, marked: set<nat>, total: nat, i: nat)
    requires SystemOk(s, marked, total) && i < |s.out|
    ensures s.out[i].0 < s.h.max
    ensures SystemOk(System(FreeUp(s.h, s.out[i].0, s.out[i].1), s.out[..i] + s.out[i + 1..]), marked, total)
  {
    hide Live, TotalFree, Grounded, FreeUp;
    var (k, b) := s.out[i];
    assert (k, b) in s.out;
    DeallocHeap(s.h, k, b);
    BytesRemove(s.out, i);
    RemoveAt(s.out, i);
  }

  lemma RemoveAt(out: seq<(nat, nat)>, i: nat)
    requires i < |out| && forall m, n :: 0 <= m < n < |out| ==> out[m] != out[n]
    ensures var r := out[..i] + out[i + 1..];
      && (forall m, n :: 0 <= m < n < |r| ==> r[m] != r[n])
      && (forall x :: x in r <==> x in out && x != out[i])
  {
    var r := out[..i] + out[i + 1..];
    forall x ensures x in r <==> x in out && x != out[i] {
      if x in out && x != out[i] {
        var j :| 0 <= j < |out| && out[j] == x;
        assert x == if j < i then r[j] else r[j - 1];
      }
    }
  }

  lemma OutBelowMax(s: System, marked: set<nat>, total: nat)
    requires SystemOk(s, marked, total)
    ensures |s.h.free| == s.h.max + 1 && forall i :: 0 <= i < |s.out| ==> s.out[i].0 < s.h.max
  {
    forall i | 0 <= i < |s.out| ensures s.out[i].0 < s.h.max {
      assert s.out[i] in s.out && Live(s.h, s.out[i].0, s.out[i].1);
      RootSplit(s.h, s.out[i].0, s.out[i].1);
    }
  }

  ghost function Run(s: System, ops: seq<Op>): System
    decreases |ops|
  {
    if ops == [] then s
    else if |s.h.free| == s.h.max + 1 && forall i :: 0 <= i < |s.out| ==> s.out[i].0 <= s.h.max
    then Run(Step(s, ops[0]), ops[1..]) else s
  }

  /** Over every run of bd_malloc and bd_free the tree stays consistent, exactly the
      blocks callers hold and the marked leaves are live, and free bytes and held bytes
      add up to what was free at the start. */
  lemma {:induction false} RunKeeps(s: System, marked: set<nat>, total: nat, ops: seq<Op>)
    requires SystemOk(s, marked, total)
    ensures SystemOk(Run(s, ops), marked, total)
    decreases |ops|
  {
    if ops != [] {
      OutBelowMax(s, marked, total);
      match ops[0]
      case Alloc(fk) =>
        if Malloc(s.h, fk).Some? { AllocKeeps(s, marked, total, fk); }
        RunKeeps(Step(s, ops[0]), marked, total, ops[1..]);
      case Dealloc(i) =>
        if i < |s.out| { DeallocKeeps(s, marked, total, i); }
        RunKeeps(Step(s, ops[0]), marked, total, ops[1..]);
    }
  }

  /** Two blocks held at the same time never share memory, nor does a held block share
      any with the marked leaves. */
  lemma HeldDisjoint(s: System, marked: set<nat>, total: nat, i: nat, j: nat, leaf: nat)
    requires SystemOk(s, marked, total) && i < |s.out| && j < |s.out|
    requires Up(leaf, s.out[i].0) == s.out[i].1
    ensures Up(leaf, s.out[j].0) == s.out[j].1 ==> i == j
    ensures leaf !in marked
  {
    assert s.out[i] in s.out && s.out[j] in s.out;
    assert Live(s.h, s.out[i].0, s.out[i].1) && Live(s.h, s.out[j].0, s.out[j].1);
    if Up(leaf, s.out[j].0) == s.out[j].1 {
      PiecesDisjoint(s.h, s.out[i].0, s.out[i].1, s.out[j].0, s.out[j].1, leaf);
    }
    if leaf in marked {
      assert Live(s.h, 0, leaf);
      PiecesDisjoint(s.h, s.out[i].0, s.out[i].1, 0, leaf, leaf);
    }
  }
}
