/** The user-level allocator of user/umalloc.c (section 8.7 of The C Programming Language,
    2nd edition): a circular list of free blocks in address order. Addresses and sizes
    count header-sized units. */
module Umalloc {
  import opened Options

  datatype Blk = Blk(addr: nat, size: nat)

  predicate Has(b: Blk, u: nat) { b.addr <= u < b.addr + b.size }

  /** In address order and never adjacent. */
  ghost predicate Sorted(f: seq<Blk>) {
    forall i, j :: 0 <= i < j < |f| ==> f[i].addr + f[i].size < f[j].addr
  }

  /** The free list from the static header on, which has size 0. */
  ghost predicate ListOk(f: seq<Blk>, base: nat) {
    && |f| > 0 && f[0] == Blk(base, 0) && Sorted(f)
    && forall i :: 0 < i < |f| ==> f[i].size > 0
  }

  ghost predicate InList(f: seq<Blk>, u: nat) {
    exists i :: 0 <= i < |f| && Has(f[i], u)
  }

  function Units(f: seq<Blk>): nat {
    if |f| == 0 then 0 else f[0].size + Units(f[1..])
  }

  ghost predicate Disjoint(a: Blk, b: Blk) { a.addr + a.size <= b.addr || b.addr + b.size <= a.addr }

  ghost predicate Apart(f: seq<Blk>, b: Blk) {
    forall i :: 0 <= i < |f| ==> Disjoint(f[i], b)
  }

  lemma {:induction false} UnitsConcat(f: seq<Blk>, g: seq<Blk>)
    ensures Units(f + g) == Units(f) + Units(g)
  {
    if |f| == 0 {
      assert f + g == g;
    } else {
      assert (f + g)[1..] == f[1..] + g;
      UnitsConcat(f[1..], g);
    }
  }

  // ---------- free ----------

  /** Block b belongs after the j-th of the list. */
  ghost predicate IsPlace(f: seq<Blk>, j: nat, a: nat) {
    j < |f| && f[j].addr < a && (j + 1 < |f| ==> a < f[j + 1].addr)
  }

  predicate TouchesNext(f: seq<Blk>, j: nat, b: Blk) { j + 1 < |f| && b.addr + b.size == f[j + 1].addr }
  predicate TouchesLast(f: seq<Blk>, j: nat, b: Blk) { j < |f| && f[j].addr + f[j].size == b.addr }

  /** Block b joined with the one after it, and the blocks that then follow. */
  function Upper(f: seq<Blk>, j: nat, b: Blk): Blk {
    if TouchesNext(f, j, b) then Blk(b.addr, b.size + f[j + 1].size) else b
  }

  function Rest(f: seq<Blk>, j: nat, b: Blk): seq<Blk>
    requires j < |f|
  {
    if TouchesNext(f, j, b) then f[j + 2..] else f[j + 1..]
  }

  /** The blocks that take the place of the j-th and of the one b is joined with. */
  function Middle(f: seq<Blk>, j: nat, b: Blk): seq<Blk>
    requires j < |f|
  {
    var c := Upper(f, j, b);
    if TouchesLast(f, j, b) then [Blk(f[j].addr, f[j].size + c.size)] else [f[j], c]
  }

  /** free puts block b after the j-th, joined with its neighbours where they touch. */
  function Insert(f: seq<Blk>, j: nat, b: Blk): seq<Blk>
    requires j < |f|
  {
    f[..j] + Middle(f, j, b) + Rest(f, j, b)
  }

  ghost predicate CanInsert(f: seq<Blk>, base: nat, j: nat, b: Blk) {
    ListOk(f, base) && IsPlace(f, j, b.addr) && Apart(f, b) && b.size > 0
  }

  /** The blocks that Middle replaces. */
  function Replaced(f: seq<Blk>, j: nat, b: Blk): seq<Blk>
    requires j < |f|
  {
    if TouchesNext(f, j, b) then [f[j], f[j + 1]] else [f[j]]
  }

  lemma Parts(f: seq<Blk>, j: nat, b: Blk)
    requires j < |f|
    ensures f == f[..j] + Replaced(f, j, b) + Rest(f, j, b)
  {
  }

  lemma UnitsThree(f: seq<Blk>, g: seq<Blk>, h: seq<Blk>)
    ensures Units(f + g + h) == Units(f) + Units(g) + Units(h)
  {
    UnitsConcat(f + g, h);
    UnitsConcat(f, g);
  }

  lemma UnitsTwo(a: Blk, b: Blk)
    ensures Units([a, b]) == a.size + b.size && Units([a]) == a.size
  {
    assert Units([]) == 0;
    assert [a][1..] == [] && [b][1..] == [];
    assert Units([a]) == a.size && Units([b]) == b.size;
    assert [a, b] == [a] + [b];
    UnitsConcat([a], [b]);
  }

  lemma InsertUnits(f: seq<Blk>, j: nat, b: Blk)
    requires j < |f|
    ensures Units(Insert(f, j, b)) == Units(f) + b.size
  {
    hide Units, Rest;
    var pre, mid, was, rest := f[..j], Middle(f, j, b), Replaced(f, j, b), Rest(f, j, b);
    Parts(f, j, b);
    UnitsThree(pre, was, rest);
    UnitsThree(pre, mid, rest);
    assert Units(was) == f[j].size + (if TouchesNext(f, j, b) then f[j + 1].size else 0) by {
      if TouchesNext(f, j, b) { UnitsTwo(f[j], f[j + 1]); } else { UnitsTwo(f[j], b); }
    }
    assert Units(mid) == f[j].size + Upper(f, j, b).size by {
      UnitsTwo(f[j], Upper(f, j, b));
      UnitsTwo(Blk(f[j].addr, f[j].size + Upper(f, j, b).size), b);
    }
    assert pre + was + rest == f;
    assert Insert(f, j, b) == pre + mid + rest;
  }

  ghost predicate Before(f: seq<Blk>, g: seq<Blk>) {
    forall i, j :: 0 <= i < |f| && 0 <= j < |g| ==> f[i].addr + f[i].size < g[j].addr
  }

  lemma SortedConcat(f: seq<Blk>, g: seq<Blk>)
    requires Sorted(f) && Sorted(g) && Before(f, g)
    ensures Sorted(f + g)
  {
  }

  lemma MiddleOk(f: seq<Blk>, base: nat, j: nat, b: Blk)
    requires CanInsert(f, base, j, b)
    ensures Sorted(Middle(f, j, b)) && Middle(f, j, b)[0].addr == f[j].addr
    ensures forall i :: 0 < i < |Middle(f, j, b)| ==> Middle(f, j, b)[i].size > 0
    ensures j == 0 ==> Middle(f, j, b)[0] == f[0]
    ensures j > 0 ==> Middle(f, j, b)[0].size > 0
    ensures Before(Middle(f, j, b), Rest(f, j, b))
  {
    assert Disjoint(f[j], b);
    if j + 1 < |f| { assert Disjoint(f[j + 1], b); }
  }

  lemma InsertSorted(f: seq<Blk>, base: nat, j: nat, b: Blk)
    requires CanInsert(f, base, j, b)
    ensures ListOk(Insert(f, j, b), base) && Insert(f, j, b)[j].addr == f[j].addr
  {
    var pre, mid, rest := f[..j], Middle(f, j, b), Rest(f, j, b);
    MiddleOk(f, base, j, b);
    SliceSorted(f, 0, j);
    SliceSorted(f, |f| - |rest|, |f|);
    assert f[0..j] == pre && f[|f| - |rest|..|f|] == rest;
    assert Before(pre, rest);
    BeforeMiddle(f, base, j, b);
    InsertSizes(f, base, j, b);
    hide Sorted, Before, Middle, Rest;
    SortedConcat(pre, mid);
    BeforeConcat(pre, mid, rest);
    SortedConcat(pre + mid, rest);
  }

  lemma SliceSorted(f: seq<Blk>, i: nat, j: nat)
    requires Sorted(f) && i <= j <= |f|
    ensures Sorted(f[i..j])
  {
  }

  lemma BeforeConcat(f: seq<Blk>, g: seq<Blk>, h: seq<Blk>)
    requires Before(f, h) && Before(g, h)
    ensures Before(f + g, h)
  {
  }

  lemma BeforeMiddle(f: seq<Blk>, base: nat, j: nat, b: Blk)
    requires CanInsert(f, base, j, b)
    ensures Before(f[..j], Middle(f, j, b))
  {
    forall i | 0 <= i < j ensures f[i].addr + f[i].size < f[j].addr < b.addr {}
  }

  lemma InsertSizes(f: seq<Blk>, base: nat, j: nat, b: Blk)
    requires CanInsert(f, base, j, b)
    ensures var g := Insert(f, j, b);
      |g| > j && g[0] == Blk(base, 0) && g[j].addr == f[j].addr && forall i :: 0 < i < |g| ==> g[i].size > 0
  {
    MiddleOk(f, base, j, b);
    var mid, rest := Middle(f, j, b), Rest(f, j, b);
    assert forall i :: 0 <= i < |rest| ==> rest[i].size > 0;
    hide Sorted, Before, Middle, Rest, Apart;
  }

  /** Units are listed by the parts of a list. */
  lemma InConcat(f: seq<Blk>, g: seq<Blk>, u: nat)
    ensures InList(f + g, u) <==> InList(f, u) || InList(g, u)
  {
    if InList(f, u) {
      var i :| 0 <= i < |f| && Has(f[i], u);
      assert (f + g)[i] == f[i];
    }
    if InList(g, u) {
      var i :| 0 <= i < |g| && Has(g[i], u);
      assert (f + g)[|f| + i] == g[i];
    }
    if InList(f + g, u) {
      var i :| 0 <= i < |f + g| && Has((f + g)[i], u);
      assert if i < |f| then Has(f[i], u) else Has(g[i - |f|], u);
    }
  }

  lemma InThree(f: seq<Blk>, g: seq<Blk>, h: seq<Blk>, u: nat)
    ensures InList(f + g + h, u) <==> InList(f, u) || InList(g, u) || InList(h, u)
  {
    InConcat(f + g, h, u);
    InConcat(f, g, u);
  }

  lemma InTwo(a: Blk, b: Blk, u: nat)
    ensures InList([a, b], u) <==> Has(a, u) || Has(b, u)
    ensures InList([a], u) <==> Has(a, u)
  {
    assert [a, b][0] == a && [a, b][1] == b && [a][0] == a;
  }

  lemma InsertCovers(f: seq<Blk>, base: nat, j: nat, b: Blk, u: nat)
    requires CanInsert(f, base, j, b)
    ensures InList(Insert(f, j, b), u) <==> InList(f, u) || Has(b, u)
  {
    Parts(f, j, b);
    InThree(f[..j], Replaced(f, j, b), Rest(f, j, b), u);
    InThree(f[..j], Middle(f, j, b), Rest(f, j, b), u);
    InTwo(f[j], Upper(f, j, b), u);
    InTwo(Blk(f[j].addr, f[j].size + Upper(f, j, b).size), b, u);
    if TouchesNext(f, j, b) { InTwo(f[j], f[j + 1], u); }
    assert Disjoint(f[j], b);
    hide InList, Rest;
  }

  // ---------- malloc ----------

  /** malloc cuts n units off the end of the i-th block. */
  function Carve(f: seq<Blk>, i: nat, n: nat): seq<Blk>
    requires i < |f| && f[i].size >= n
  {
    if f[i].size == n then f[..i] + f[i + 1..] else f[i := Blk(f[i].addr, f[i].size - n)]
  }

  function Cut(f: seq<Blk>, i: nat, n: nat): Blk
    requires i < |f| && f[i].size >= n
  {
    Blk(f[i].addr + f[i].size - n, n)
  }

  lemma CarveList(f: seq<Blk>, base: nat, i: nat, n: nat)
    requires ListOk(f, base) && i < |f| && f[i].size >= n > 0
    ensures i > 0 && ListOk(Carve(f, i, n), base) && Carve(f, i, n)[i - 1] == f[i - 1]
  {
    if f[i].size == n {
      SliceSorted(f, 0, i);
      SliceSorted(f, i + 1, |f|);
      assert f[0..i] == f[..i] && f[i + 1..|f|] == f[i + 1..];
      assert Before(f[..i], f[i + 1..]);
      hide Sorted;
      SortedConcat(f[..i], f[i + 1..]);
    } else {
      CutSorted(f, base, i, n);
    }
  }

  lemma CutSorted(f: seq<Blk>, base: nat, i: nat, n: nat)
    requires ListOk(f, base) && i < |f| && f[i].size > n > 0
    ensures i > 0 && ListOk(Carve(f, i, n), base)
  {
  }

  lemma CarveOk(f: seq<Blk>, base: nat, i: nat, n: nat)
    requires ListOk(f, base) && i < |f| && f[i].size >= n > 0
    ensures i > 0 && ListOk(Carve(f, i, n), base) && Apart(Carve(f, i, n), Cut(f, i, n))
    ensures Carve(f, i, n)[i - 1] == f[i - 1]
  {
    var g, c := Carve(f, i, n), Cut(f, i, n);
    CarveList(f, base, i, n);
    forall k | 0 <= k < |g| ensures Disjoint(g[k], c) {
      if f[i].size == n { assert g[k] == f[if k < i then k else k + 1]; }
    }
  }

  function Remains(f: seq<Blk>, i: nat, n: nat): seq<Blk>
    requires i < |f| && f[i].size >= n
  {
    if f[i].size == n then [] else [Blk(f[i].addr, f[i].size - n)]
  }

  lemma CarveParts(f: seq<Blk>, i: nat, n: nat)
    requires i < |f| && f[i].size >= n
    ensures f == f[..i] + [f[i]] + f[i + 1..] && Carve(f, i, n) == f[..i] + Remains(f, i, n) + f[i + 1..]
  {
  }

  lemma CarveUnits(f: seq<Blk>, i: nat, n: nat)
    requires i < |f| && f[i].size >= n
    ensures Units(Carve(f, i, n)) + n == Units(f)
  {
    CarveParts(f, i, n);
    UnitsThree(f[..i], [f[i]], f[i + 1..]);
    UnitsThree(f[..i], Remains(f, i, n), f[i + 1..]);
    UnitsTwo(f[i], f[i]);
    UnitsTwo(Blk(f[i].addr, f[i].size - n), f[i]);
  }

  lemma CarveCovers(f: seq<Blk>, base: nat, i: nat, n: nat, u: nat)
    requires ListOk(f, base) && i < |f| && f[i].size >= n > 0
    ensures InList(f, u) <==> InList(Carve(f, i, n), u) || Has(Cut(f, i, n), u)
    ensures !(InList(Carve(f, i, n), u) && Has(Cut(f, i, n), u))
  {
    CarveOk(f, base, i, n);
    var g := Carve(f, i, n);
    if InList(g, u) {
      var k :| 0 <= k < |g| && Has(g[k], u);
      assert Disjoint(g[k], Cut(f, i, n));
    }
    CarveParts(f, i, n);
    InThree(f[..i], [f[i]], f[i + 1..], u);
    InThree(f[..i], Remains(f, i, n), f[i + 1..], u);
    InTwo(f[i], f[i], u);
    InTwo(Blk(f[i].addr, f[i].size - n), f[i], u);
    assert !InList([], u);
    hide InList, Carve, ListOk, Apart;
  }

  // ---------- the list in memory ----------

  function Next(i: nat, n: nat): (k: nat)
    ensures i < n ==> k < n
  {
    if i + 1 < n then i + 1 else 0
  }

  /** The header of one block of f. */
  ghost predicate LinkAt(ptr: map<nat, nat>, size: map<nat, nat>, f: seq<Blk>, i: nat) {
    && i < |f| && f[i].addr in ptr && f[i].addr in size
    && size[f[i].addr] == f[i].size && ptr[f[i].addr] == f[Next(i, |f|)].addr
  }

  /** The blocks handed out lie apart from each other and from the free ones. */
  ghost predicate LiveOk(f: seq<Blk>, live: map<nat, nat>, base: nat, top: nat) {
    && (forall a {:trigger a in live} :: a in live ==>
          base < a && live[a] > 0 && a + live[a] <= top && Apart(f, Blk(a, live[a])))
    && (forall a, b {:trigger a in live, b in live} ::
          a in live && b in live && a != b ==> Disjoint(Blk(a, live[a]), Blk(b, live[b])))
    && (forall i :: 0 <= i < |f| ==> f[i].addr + f[i].size <= top)
  }

  ghost predicate HeadersOk(size: map<nat, nat>, live: map<nat, nat>) {
    forall a {:trigger a in live} :: a in live ==> a in size && size[a] == live[a]
  }

  /** The order in which the loop of free comes to the place j from the k-th block. */
  function StepsTo(k: nat, j: nat, n: nat): nat
    requires k < n && j < n
  {
    if k <= j then j - k else n - k + j
  }

  /** free's loop stops exactly at the place for a. */
  lemma StopsAt(f: seq<Blk>, base: nat, k: nat, a: nat)
    requires ListOk(f, base) && k < |f| && base < a && Apart(f, Blk(a, 1))
    ensures IsPlace(f, k, a) <==>
      var p, q := f[k].addr, f[Next(k, |f|)].addr; (a > p && a < q) || (p >= q && (a > p || a < q))
  {
    assert base <= f[k].addr;
    if k + 1 < |f| { assert f[k].addr < f[k + 1].addr; }
  }

  lemma PlaceExists(f: seq<Blk>, base: nat, a: nat, n: nat) returns (j: nat)
    requires ListOk(f, base) && base < a && Apart(f, Blk(a, 1)) && 0 < n <= |f| && (n < |f| ==> a < f[n].addr)
    ensures IsPlace(f, j, a)
    decreases n
  {
    assert Disjoint(f[n - 1], Blk(a, 1));
    if f[n - 1].addr < a { j := n - 1; } else { j := PlaceExists(f, base, a, n - 1); }
  }

  /** What free leaves in memory: bp joined with its neighbours. */
  function FreedPtr(ptr: map<nat, nat>, size: map<nat, nat>, p: nat, bp: nat): map<nat, nat>
    requires p in ptr && ptr[p] in ptr && p in size && bp in size
  {
    var next := if bp + size[bp] == ptr[p] then ptr[ptr[p]] else ptr[p];
    ptr[bp := next][p := if p + size[p] == bp then next else bp]
  }

  function FreedSize(ptr: map<nat, nat>, size: map<nat, nat>, p: nat, bp: nat): map<nat, nat>
    requires p in ptr && ptr[p] in size && p in size && bp in size
  {
    var units := if bp + size[bp] == ptr[p] then size[bp] + size[ptr[p]] else size[bp];
    if p + size[p] == bp then size[bp := units][p := size[p] + units] else size[bp := units]
  }

  lemma AddrsDistinct(f: seq<Blk>, base: nat, j: nat, b: Blk)
    requires CanInsert(f, base, j, b)
    ensures forall i, k :: 0 <= i < k < |f| ==> f[i].addr < f[k].addr
    ensures forall i :: 0 <= i < |f| ==> if i <= j then f[i].addr < b.addr else b.addr < f[i].addr
    ensures TouchesNext(f, j, b) <==> b.addr + b.size == f[Next(j, |f|)].addr
  {
    forall i | j < i < |f| ensures b.addr < f[i].addr {
      assert f[j + 1].addr <= f[i].addr;
    }
    forall i | 0 <= i <= j ensures f[i].addr < b.addr {
      assert f[i].addr <= f[j].addr;
    }
  }

  /** Where the blocks of f are in g, the list with b put in after the j-th. */
  ghost predicate Placed(f: seq<Blk>, g: seq<Blk>, j: nat, b: Blk) {
    var up := if TouchesNext(f, j, b) then 1 else 0;
    var down := if TouchesLast(f, j, b) then 1 else 0;
    && j < |f| && |g| == |f| + 1 - up - down
    && (forall i :: 0 <= i < j ==> g[i] == f[i])
    && (forall i {:trigger g[i]} :: j + 2 - down <= i < |g| ==> g[i] == f[i + up + down - 1])
    && j < |g| && g[j].addr == f[j].addr
    && (if down == 1 then g[j].size == f[j].size + Upper(f, j, b).size
        else j + 1 < |g| && g[j] == f[j] && g[j + 1] == Upper(f, j, b))
  }

  lemma InsertPlaced(f: seq<Blk>, j: nat, b: Blk)
    requires j < |f|
    ensures Placed(f, Insert(f, j, b), j, b)
  {
  }

  ghost predicate AllLinked(ptr: map<nat, nat>, size: map<nat, nat>, f: seq<Blk>) {
    forall k: nat {:trigger LinkAt(ptr, size, f, k)} :: k < |f| ==> LinkAt(ptr, size, f, k)
  }

  /** Other headers are untouched. */
  lemma FreedElsewhere(ptr: map<nat, nat>, size: map<nat, nat>, p: nat, bp: nat, x: nat)
    requires p in ptr && ptr[p] in ptr && ptr[p] in size && p in size && bp in size && x != p && x != bp
    ensures var ptr', size' := FreedPtr(ptr, size, p, bp), FreedSize(ptr, size, p, bp);
      && (x in ptr ==> x in ptr' && ptr'[x] == ptr[x]) && (x in size ==> x in size' && size'[x] == size[x])
  {
  }

  ghost predicate Inserting(ptr: map<nat, nat>, size: map<nat, nat>, f: seq<Blk>, base: nat, j: nat, b: Blk,
                            g: seq<Blk>) {
    && CanInsert(f, base, j, b) && AllLinked(ptr, size, f) && Placed(f, g, j, b)
    && b.addr in size && size[b.addr] == b.size
    && LinkAt(ptr, size, f, j) && LinkAt(ptr, size, f, Next(j, |f|))
  }

  lemma LinkBelow(ptr: map<nat, nat>, size: map<nat, nat>, f: seq<Blk>, base: nat, j: nat, b: Blk, g: seq<Blk>, i: nat)
    requires Inserting(ptr, size, f, base, j, b, g) && i < j
    ensures LinkAt(FreedPtr(ptr, size, f[j].addr, b.addr), FreedSize(ptr, size, f[j].addr, b.addr), g, i)
  {
    assert LinkAt(ptr, size, f, i);
    AddrsDistinct(f, base, j, b);
    assert f[i].addr != f[j].addr && f[i].addr != b.addr;
    hide ListOk, Apart, FreedPtr, FreedSize, AllLinked;
    FreedElsewhere(ptr, size, f[j].addr, b.addr, f[i].addr);
    assert g[i] == f[i] && g[i + 1].addr == f[i + 1].addr;
  }

  lemma PlacedAbove(f: seq<Blk>, g: seq<Blk>, j: nat, b: Blk, i: nat)
    requires Placed(f, g, j, b) && (if TouchesLast(f, j, b) then j + 1 else j + 2) <= i < |g|
    ensures var k := i + |f| - |g|;
      && j < k < |f| && g[i] == f[k] && (i + 1 < |g| ==> k + 1 < |f| && g[i + 1] == f[k + 1])
      && (i + 1 == |g| ==> k + 1 == |f|) && g[0].addr == f[0].addr
  {
  }

  lemma LinkAbove(ptr: map<nat, nat>, size: map<nat, nat>, f: seq<Blk>, base: nat, j: nat, b: Blk, g: seq<Blk>, i: nat)
    requires Inserting(ptr, size, f, base, j, b, g) && (if TouchesLast(f, j, b) then j + 1 else j + 2) <= i < |g|
    ensures LinkAt(FreedPtr(ptr, size, f[j].addr, b.addr), FreedSize(ptr, size, f[j].addr, b.addr), g, i)
  {
    hide ListOk, Apart, FreedPtr, FreedSize, CanInsert, IsPlace;
    var k := i + |f| - |g|;
    PlacedAbove(f, g, j, b, i);
    assert LinkAt(ptr, size, f, k);
    AddrsDistinct(f, base, j, b);
    hide AllLinked, Placed, TouchesLast, TouchesNext;
    assert f[k].addr != f[j].addr && f[k].addr != b.addr;
    FreedElsewhere(ptr, size, f[j].addr, b.addr, f[k].addr);
  }

  /** What follows the new block. */
  lemma NextAfter(f: seq<Blk>, g: seq<Blk>, base: nat, j: nat, b: Blk)
    requires CanInsert(f, base, j, b) && Placed(f, g, j, b)
    ensures var last := if TouchesLast(f, j, b) then j else j + 1;
      var up := if TouchesNext(f, j, b) then Next(j + 1, |f|) else Next(j, |f|);
      last < |g| && g[Next(last, |g|)].addr == f[up].addr
  {
    var last := if TouchesLast(f, j, b) then j else j + 1;
    assert g[0].addr == f[0].addr;
    if last + 1 < |g| { assert g[last + 1] == f[last + 1 + |f| - |g|]; }
  }

  lemma FreedHere(ptr: map<nat, nat>, size: map<nat, nat>, p: nat, bp: nat)
    requires p in ptr && ptr[p] in ptr && ptr[p] in size && p in size && bp in size && p != bp
    ensures var ptr', size' := FreedPtr(ptr, size, p, bp), FreedSize(ptr, size, p, bp);
      var next := if bp + size[bp] == ptr[p] then ptr[ptr[p]] else ptr[p];
      var units := if bp + size[bp] == ptr[p] then size[bp] + size[ptr[p]] else size[bp];
      && p in ptr' && p in size' && bp in ptr' && bp in size'
      && (if p + size[p] == bp then ptr'[p] == next && size'[p] == size[p] + units
          else ptr'[p] == bp && size'[p] == size[p] && ptr'[bp] == next && size'[bp] == units)
  {
  }

  lemma LinkHere(ptr: map<nat, nat>, size: map<nat, nat>, f: seq<Blk>, base: nat, j: nat, b: Blk, g: seq<Blk>, i: nat)
    requires Inserting(ptr, size, f, base, j, b, g) && j <= i < if TouchesLast(f, j, b) then j + 1 else j + 2
    ensures LinkAt(FreedPtr(ptr, size, f[j].addr, b.addr), FreedSize(ptr, size, f[j].addr, b.addr), g, i)
  {
    hide ListOk, Apart, AllLinked, CanInsert, FreedPtr, FreedSize;
    NextAfter(f, g, base, j, b);
    AddrsDistinct(f, base, j, b);
    assert f[j].addr < b.addr;
    assert ptr[f[j].addr] == f[Next(j, |f|)].addr;
    if TouchesNext(f, j, b) { assert Next(j, |f|) == j + 1; }
    FreedHere(ptr, size, f[j].addr, b.addr);
    var last := if TouchesLast(f, j, b) then j else j + 1;
    assert g[j].addr == f[j].addr && g[last].addr == (if TouchesLast(f, j, b) then f[j].addr else b.addr);
    assert Next(i, |g|) == if i == last then Next(last, |g|) else j + 1;
    hide Next;
  }

  /** The headers that free leaves are those of the new list. */
  lemma InsertLinks(ptr: map<nat, nat>, size: map<nat, nat>, f: seq<Blk>, base: nat, j: nat, b: Blk)
    requires CanInsert(f, base, j, b) && AllLinked(ptr, size, f) && b.addr in size && size[b.addr] == b.size
    ensures LinkAt(ptr, size, f, j) && LinkAt(ptr, size, f, Next(j, |f|))
    ensures AllLinked(FreedPtr(ptr, size, f[j].addr, b.addr), FreedSize(ptr, size, f[j].addr, b.addr), Insert(f, j, b))
  {
    assert LinkAt(ptr, size, f, j) && LinkAt(ptr, size, f, Next(j, |f|));
    InsertPlaced(f, j, b);
    var g := Insert(f, j, b);
    hide Insert, CanInsert, Placed, FreedPtr, FreedSize;
    forall i: nat | i < |g|
      ensures LinkAt(FreedPtr(ptr, size, f[j].addr, b.addr), FreedSize(ptr, size, f[j].addr, b.addr), g, i)
    {
      if i < j { LinkBelow(ptr, size, f, base, j, b, g, i); }
      else if i < (if TouchesLast(f, j, b) then j + 1 else j + 2) { LinkHere(ptr, size, f, base, j, b, g, i); }
      else { LinkAbove(ptr, size, f, base, j, b, g, i); }
    }
  }

  // ---------- malloc, in memory ----------

  function TakenPtr(ptr: map<nat, nat>, size: map<nat, nat>, prev: nat, p: nat, n: nat): map<nat, nat>
    requires p in ptr && p in size
  {
    if size[p] == n then ptr[prev := ptr[p]] else ptr
  }

  function TakenSize(size: map<nat, nat>, p: nat, n: nat): map<nat, nat>
    requires p in size && size[p] >= n
  {
    if size[p] == n then size else size[p := size[p] - n][p + size[p] - n := n]
  }

  lemma TakenWhole(ptr: map<nat, nat>, size: map<nat, nat>, f: seq<Blk>, base: nat, i: nat, k: nat)
    requires ListOk(f, base) && AllLinked(ptr, size, f) && 0 < i < |f| && k + 1 < |f| && LinkAt(ptr, size, f, i)
    ensures LinkAt(ptr[f[i - 1].addr := ptr[f[i].addr]], size, f[..i] + f[i + 1..], k)
  {
    var g := f[..i] + f[i + 1..];
    var o := if k < i then k else k + 1;
    assert LinkAt(ptr, size, f, o) && g[k] == f[o];
    assert k + 1 < |g| ==> g[k + 1] == f[if k + 1 < i then k + 1 else k + 2];
    assert g[0] == f[0];
    assert o < i - 1 || o == i - 1 || o > i - 1;
    assert o != i - 1 ==> f[o].addr != f[i - 1].addr;
    hide ListOk, AllLinked;
  }

  lemma TakenTail(ptr: map<nat, nat>, size: map<nat, nat>, f: seq<Blk>, base: nat, i: nat, n: nat, k: nat)
    requires ListOk(f, base) && AllLinked(ptr, size, f) && 0 < i < |f| && f[i].size > n > 0 && k < |f|
    requires LinkAt(ptr, size, f, i)
    ensures LinkAt(ptr, size[f[i].addr := f[i].size - n][f[i].addr + f[i].size - n := n],
                   f[i := Blk(f[i].addr, f[i].size - n)], k)
  {
    assert LinkAt(ptr, size, f, k);
    assert k < i || k == i || k > i;
    assert k != i ==> f[k].addr != f[i].addr && f[k].addr != f[i].addr + f[i].size - n;
    hide ListOk, AllLinked;
  }

  lemma CarveLinks(ptr: map<nat, nat>, size: map<nat, nat>, f: seq<Blk>, base: nat, i: nat, n: nat)
    requires ListOk(f, base) && AllLinked(ptr, size, f) && 0 < i < |f| && f[i].size >= n > 0
    ensures LinkAt(ptr, size, f, i)
    ensures AllLinked(TakenPtr(ptr, size, f[i - 1].addr, f[i].addr, n), TakenSize(size, f[i].addr, n), Carve(f, i, n))
  {
    assert LinkAt(ptr, size, f, i);
    var g, ptr', size' := Carve(f, i, n), TakenPtr(ptr, size, f[i - 1].addr, f[i].addr, n),
        TakenSize(size, f[i].addr, n);
    forall k: nat {:trigger LinkAt(ptr', size', g, k)} | k < |g| ensures LinkAt(ptr', size', g, k) {
      if f[i].size == n { TakenWhole(ptr, size, f, base, i, k); } else { TakenTail(ptr, size, f, base, i, n, k); }
    }
  }

  // ---------- blocks in use ----------

  /** A block in use can be put back. */
  lemma LiveInsert(f: seq<Blk>, live: map<nat, nat>, base: nat, top: nat, j: nat, a: nat)
    requires ListOk(f, base) && LiveOk(f, live, base, top) && a in live && IsPlace(f, j, a)
    ensures CanInsert(f, base, j, Blk(a, live[a]))
    ensures LiveOk(Insert(f, j, Blk(a, live[a])), live - {a}, base, top)
  {
    hide Insert, Sorted, Apart, Disjoint, Placed, Upper;
    var b := Blk(a, live[a]);
    var g, l := Insert(f, j, b), live - {a};
    InsertPlaced(f, j, b);
    forall x | x in l ensures Apart(g, Blk(x, l[x])) { InsertApart(f, g, j, b, Blk(x, l[x])); }
    PlacedTop(f, g, j, b, top);
  }

  lemma PlacedTop(f: seq<Blk>, g: seq<Blk>, j: nat, b: Blk, top: nat)
    requires Placed(f, g, j, b) && b.addr + b.size <= top
    requires forall i :: 0 <= i < |f| ==> f[i].addr + f[i].size <= top
    ensures forall i :: 0 <= i < |g| ==> g[i].addr + g[i].size <= top
  {
  }

  lemma InsertApart(f: seq<Blk>, g: seq<Blk>, j: nat, b: Blk, c: Blk)
    requires Placed(f, g, j, b) && Apart(f, c) && Disjoint(b, c) && c.size > 0
    requires TouchesNext(f, j, b) ==> f[j + 1].size > 0
    requires b.size > 0
    ensures Apart(g, c)
  {
    forall i | 0 <= i < |g| ensures Disjoint(g[i], c) {
      assert Disjoint(f[j], c);
      if TouchesNext(f, j, b) { assert Disjoint(f[j + 1], c); }
      if i < j { assert Disjoint(f[i], c); }
    }
  }

  lemma FreedHeaders(ptr: map<nat, nat>, size: map<nat, nat>, f: seq<Blk>, live: map<nat, nat>, base: nat, top: nat,
                     j: nat, a: nat)
    requires ListOk(f, base) && LiveOk(f, live, base, top) && HeadersOk(size, live) && a in live && j < |f|
    requires LinkAt(ptr, size, f, j) && LinkAt(ptr, size, f, Next(j, |f|))
    ensures HeadersOk(FreedSize(ptr, size, f[j].addr, a), live - {a})
  {
    var l := live - {a};
    forall x | x in l ensures x != f[j].addr && x != a { assert Disjoint(f[j], Blk(x, live[x])); }
    hide ListOk, LiveOk;
  }

  /** The n units cut off the i-th block are in use. */
  lemma LiveCarve(size: map<nat, nat>, f: seq<Blk>, live: map<nat, nat>, base: nat, top: nat, i: nat, n: nat)
    requires ListOk(f, base) && LiveOk(f, live, base, top) && HeadersOk(size, live) && i < |f| && f[i].size >= n > 0
    requires f[i].addr in size && size[f[i].addr] == f[i].size
    ensures var c := Cut(f, i, n);
      && c.addr !in live && LiveOk(Carve(f, i, n), live[c.addr := n], base, top)
      && HeadersOk(TakenSize(size, f[i].addr, n), live[c.addr := n])
  {
    CarveOk(f, base, i, n);
    var g, c := Carve(f, i, n), Cut(f, i, n);
    CarveBounds(f, i, n, top);
    forall x | x in live
      ensures Disjoint(Blk(x, live[x]), c) && x != f[i].addr && x != c.addr && Apart(g, Blk(x, live[x]))
    {
      CarveApart(f, i, n, Blk(x, live[x]));
    }
    hide ListOk, Carve, Apart;
  }

  lemma CarveBounds(f: seq<Blk>, i: nat, n: nat, top: nat)
    requires i < |f| && f[i].size >= n && forall k :: 0 <= k < |f| ==> f[k].addr + f[k].size <= top
    ensures forall k :: 0 <= k < |Carve(f, i, n)| ==> Carve(f, i, n)[k].addr + Carve(f, i, n)[k].size <= top
  {
  }

  lemma CarveApart(f: seq<Blk>, i: nat, n: nat, x: Blk)
    requires i < |f| && f[i].size >= n > 0 && Apart(f, x) && x.size > 0
    ensures Apart(Carve(f, i, n), x) && Disjoint(x, Cut(f, i, n)) && x.addr != f[i].addr && x.addr != Cut(f, i, n).addr
  {
    assert Disjoint(f[i], x);
    var g := Carve(f, i, n);
    forall k | 0 <= k < |g| ensures Disjoint(g[k], x) {
      assert Disjoint(f[if f[i].size == n && k >= i then k + 1 else k], x);
    }
  }

  lemma PlaceFacts(size: map<nat, nat>, f: seq<Blk>, live: map<nat, nat>, base: nat, j: nat, bp: nat)
    requires ListOk(f, base) && HeadersOk(size, live) && bp in live && IsPlace(f, j, bp)
    ensures base <= f[j].addr < bp && bp in size && size[bp] == live[bp]
  {
  }

  lemma InsertAt(f: seq<Blk>, j: nat, b: Blk)
    requires j < |f|
    ensures j < |Insert(f, j, b)| && Insert(f, j, b)[j].addr == f[j].addr
  {
    InsertPlaced(f, j, b);
  }

  /** What free needs of the memory and makes of it. */
  lemma FreeFacts(ptr: map<nat, nat>, size: map<nat, nat>, f: seq<Blk>, live: map<nat, nat>, base: nat, top: nat,
                  j: nat, bp: nat)
    requires ListOk(f, base) && AllLinked(ptr, size, f) && LiveOk(f, live, base, top) && HeadersOk(size, live)
    requires bp in live && IsPlace(f, j, bp) && base > 0
    ensures j < |f| && f[j].addr != 0 && f[j].addr != bp && bp in size && f[j].addr in ptr && f[j].addr in size
    ensures ptr[f[j].addr] in ptr && ptr[f[j].addr] in size
    ensures var p, g, l := f[j].addr, Insert(f, j, Blk(bp, live[bp])), live - {bp};
      && ListOk(g, base) && LiveOk(g, l, base, top) && IsNode(g, p) && Freed(f, g, Blk(bp, live[bp]), p)
      && AllLinked(FreedPtr(ptr, size, p, bp), FreedSize(ptr, size, p, bp), g)
      && HeadersOk(FreedSize(ptr, size, p, bp), l)
  {
    hide ListOk, LiveOk, AllLinked, Insert, Units, InList, CanInsert, FreedPtr, FreedSize, Apart, HeadersOk, Has;
    PlaceFacts(size, f, live, base, j, bp);
    var b := Blk(bp, live[bp]);
    InsertAt(f, j, b);
    LiveInsert(f, live, base, top, j, bp);
    InsertLinks(ptr, size, f, base, j, b);
    FreedHeaders(ptr, size, f, live, base, top, j, bp);
    InsertSorted(f, base, j, b);
    InsertUnits(f, j, b);
    forall u: nat ensures InList(Insert(f, j, b), u) <==> InList(f, u) || Has(b, u) {
      InsertCovers(f, base, j, b, u);
    }
  }

  /** What malloc's fitting branch needs of the memory and makes of it. */
  lemma TakeFacts(ptr: map<nat, nat>, size: map<nat, nat>, f: seq<Blk>, live: map<nat, nat>, base: nat, top: nat,
                  i: nat, n: nat)
    requires ListOk(f, base) && AllLinked(ptr, size, f) && LiveOk(f, live, base, top) && HeadersOk(size, live)
    requires 0 < i < |f| && f[i].size >= n > 0
    ensures f[i].addr in ptr && f[i].addr in size && size[f[i].addr] == f[i].size && base <= f[i - 1].addr
    ensures var g, a := Carve(f, i, n), Cut(f, i, n).addr;
      var ptr', size' := TakenPtr(ptr, size, f[i - 1].addr, f[i].addr, n), TakenSize(size, f[i].addr, n);
      && a == f[i].addr + f[i].size - n && ListOk(g, base) && AllLinked(ptr', size', g) && IsNode(g, f[i - 1].addr)
      && a !in live && LiveOk(g, live[a := n], base, top) && HeadersOk(size', live[a := n])
  {
    CarveOk(f, base, i, n);
    assert f[0].addr <= f[i - 1].addr && LinkAt(ptr, size, f, i);
    hide ListOk, LiveOk, AllLinked, HeadersOk, Carve, TakenPtr, TakenSize, Apart;
    CarveLinks(ptr, size, f, base, i, n);
    LiveCarve(size, f, live, base, top, i, n);
  }

  // ---------- the requests ----------

  /** nunits of malloc: the payload rounded up to units, and the header. */
  function NUnits(nbytes: nat): nat { (nbytes + 15) / 16 + 1 }

  /** The caller's nbytes bytes from address 16 * q on fill the block of which unit q - 1 is the
      header, but for less than a unit, and lie in no other block in use and in no free one. */
  ghost predicate OwnBytes(f: seq<Blk>, live: map<nat, nat>, q: nat, nbytes: nat)
    requires q > 0
  {
    && q - 1 in live && nbytes <= 16 * (live[q - 1] - 1) < nbytes + 16
    && forall x: nat {:trigger ByteUnit(x)} :: 16 * q <= x < 16 * q + nbytes ==>
         && Has(Blk(q - 1, live[q - 1]), ByteUnit(x)) && !InList(f, ByteUnit(x))
         && forall a :: a in live && a != q - 1 ==> !Has(Blk(a, live[a]), ByteUnit(x))
  }

  /** The unit that a byte lies in. */
  function ByteUnit(x: nat): nat { x / 16 }

  lemma BytesOwned(f: seq<Blk>, live: map<nat, nat>, base: nat, top: nat, a: nat, nbytes: nat)
    requires LiveOk(f, live, base, top) && a in live && live[a] == NUnits(nbytes)
    ensures OwnBytes(f, live, a + 1, nbytes)
  {
    var b := Blk(a, live[a]);
    assert nbytes <= 16 * (live[a] - 1) < nbytes + 16;
    forall x: nat | 16 * (a + 1) <= x < 16 * (a + 1) + nbytes
      ensures Has(b, ByteUnit(x)) && !InList(f, ByteUnit(x))
      ensures forall c :: c in live && c != a ==> !Has(Blk(c, live[c]), ByteUnit(x))
    {
      assert Apart(f, b);
    }
  }

  /** The int that sbrk receives for nu units. */
  function SbrkArg(nu: nat): int {
    var x := nu * 16 % 0x1_0000_0000;
    if x < 0x8000_0000 then x else x - 0x1_0000_0000
  }

  /** The request reaches sbrk unchanged exactly for less than 2^27 units; beyond, the int
      wraps and can even shrink the process. */
  lemma SbrkExact(nu: nat)
    requires nu <= NUnits(0xFFFF_FFFF)
    ensures SbrkArg(nu) == nu * 16 <==> nu < 0x800_0000
    ensures nu >= 0x800_0000 ==> SbrkArg(nu) < nu * 16
    ensures 0x800_0000 <= nu < 0x1000_0000 ==> SbrkArg(nu) < 0
  {
  }

  function CoreUnits(n: nat): nat { if n < 4096 then 4096 else n }

  ghost predicate IsNode(f: seq<Blk>, p: nat) {
    exists k :: 0 <= k < |f| && f[k].addr == p
  }

  /** No block fits. */
  ghost predicate NoFit(f: seq<Blk>, n: nat) {
    forall i :: 0 <= i < |f| ==> f[i].size < n
  }

  /** The blocks after the k0-th and before the k-th, in the circle, are too small. */
  ghost predicate Scanned(f: seq<Blk>, k0: nat, k: nat, n: nat) {
    forall i :: 0 <= i < |f| && (if k > k0 then k0 < i < k else k0 < i || i < k) ==> f[i].size < n
  }

  /** free of block b: it is at its place, joined with its neighbours, freep is the block
      before it, and the units of the list are those before and those of b. */
  ghost predicate Freed(f: seq<Blk>, f': seq<Blk>, b: Blk, freep: nat) {
    && (exists j: nat :: IsPlace(f, j, b.addr) && f' == Insert(f, j, b) && j < |f'| && freep == f'[j].addr)
    && Units(f') == Units(f) + b.size
    && (forall u: nat {:trigger InList(f', u)} :: InList(f', u) <==> InList(f, u) || Has(b, u))
  }

  /** morecore gives the header the size it asked for, whatever sbrk did. The list that free
      makes of it stays below the new break, SbrkArg(nu) bytes past the old one at hp,
      exactly when sbrk got the whole request. */
  lemma CoreExists(f: seq<Blk>, f': seq<Blk>, hp: nat, nu: nat, freep: nat)
    requires 0 < nu <= NUnits(0xFFFF_FFFF) && Freed(f, f', Blk(hp, nu), freep)
    requires forall u: nat {:trigger InList(f, u)} :: InList(f, u) ==> u < hp
    ensures (forall u: nat {:trigger InList(f', u)} :: InList(f', u) ==> (u + 1) * 16 <= hp * 16 + SbrkArg(nu))
            <==> nu < 0x800_0000
  {
    SbrkExact(nu);
    var last := hp + nu - 1;
    assert Has(Blk(hp, nu), last) && InList(f', last);
  }

  lemma FreedFits(f: seq<Blk>, f': seq<Blk>, hp: nat, freep: nat, n: nat)
    requires Freed(f, f', Blk(hp, CoreUnits(n)), freep)
    ensures !NoFit(f', n) && Units(f') == Units(f) + CoreUnits(n)
    ensures NoFit(f, n) ==> GrownBy(f, f', n, Some(hp))
  {
    hide Insert, Units, InList, NoFit, Has;
    var b := Blk(hp, CoreUnits(n));
    var j: nat :| IsPlace(f, j, b.addr) && f' == Insert(f, j, b) && j < |f'| && freep == f'[j].addr;
    InsertFits(f, j, b, n);
  }

  lemma InsertFits(f: seq<Blk>, j: nat, b: Blk, n: nat)
    requires j < |f| && b.size >= n
    ensures !NoFit(Insert(f, j, b), n)
  {
    InsertPlaced(f, j, b);
    var g := Insert(f, j, b);
    assert g[if TouchesLast(f, j, b) then j else j + 1].size >= n;
  }

  /** The scan starts anew after the k-th block. */
  lemma ScanStart(f: seq<Blk>, k: nat, n: nat)
    requires k < |f|
    ensures Scanned(f, k, Next(k, |f|), n)
  {
  }

  lemma ScanStep(f: seq<Blk>, k0: nat, k: nat, n: nat)
    requires k0 < |f| && k < |f| && Scanned(f, k0, k, n) && f[k].size < n
    ensures if k == k0 then NoFit(f, n)
            else Scanned(f, k0, Next(k, |f|), n) && StepsTo(Next(k, |f|), k0, |f|) < StepsTo(k, k0, |f|)
  {
  }

  /** A region beyond top is in use until it is freed. */
  lemma LiveCore(f: seq<Blk>, live: map<nat, nat>, size: map<nat, nat>, base: nat, top: nat, hp: nat, nu: nat)
    requires ListOk(f, base) && LiveOk(f, live, base, top) && HeadersOk(size, live) && base < top <= hp && nu > 0
    ensures hp !in live && LiveOk(f, live[hp := nu], base, hp + nu) && HeadersOk(size[hp := nu], live[hp := nu])
  {
  }

  /** Nor is its header one of the list. */
  lemma LinksCore(ptr: map<nat, nat>, size: map<nat, nat>, f: seq<Blk>, top: nat, base: nat, hp: nat, nu: nat)
    requires ListOk(f, base) && AllLinked(ptr, size, f) && base < top <= hp
    requires forall i :: 0 <= i < |f| ==> f[i].addr + f[i].size <= top
    ensures AllLinked(ptr, size[hp := nu], f)
  {
    var size' := size[hp := nu];
    forall i: nat {:trigger LinkAt(ptr, size', f, i)} | i < |f| ensures LinkAt(ptr, size', f, i) {
      assert LinkAt(ptr, size, f, i);
      assert f[i].addr != hp;
    }
  }

  lemma AddrAt(f: seq<Blk>, base: nat, i: nat, k: nat)
    requires ListOk(f, base) && i < |f| && k < |f|
    ensures f[i].addr == f[k].addr <==> i == k
  {
    assert i < k || i == k || k < i;
  }

  /** The k-th block is the first that fits after the one at freep. */
  ghost predicate FirstFit(f: seq<Blk>, freep: nat, k: nat, n: nat) {
    0 < k < |f| && f[k].size >= n && exists k0: nat :: k0 < |f| && f[k0].addr == freep && Scanned(f, k0, k, n)
  }

  lemma FitNotNone(f: seq<Blk>, freep: nat, k: nat, n: nat)
    requires FirstFit(f, freep, k, n)
    ensures !NoFit(f, n)
  {
  }

  lemma FitBounds(f: seq<Blk>, freep: nat, k: nat, n: nat)
    requires FirstFit(f, freep, k, n)
    ensures 0 < k < |f| && f[k].size >= n
  {
  }

  /** malloc of n units, from the list f and the blocks in use live. It fails only without
      a fit and without more core; else a is a block of its own, cut from the first fit or
      from what core was added, and not a unit is lost. */
  ghost predicate MallocOutcome(f: seq<Blk>, freep: nat, live: map<nat, nat>, f': seq<Blk>, live': map<nat, nat>,
                                n: nat, core: Option<nat>, r: Option<nat>) {
    match r
    case None => NoFit(f, n) && core == None && f' == f && live' == live
    case Some(q) =>
      && q > 0 && q - 1 !in live && live' == live[q - 1 := n] && (NoFit(f, n) ==> core.Some?)
      && (!NoFit(f, n) ==>
            exists k: nat :: FirstFit(f, freep, k, n) && f' == Carve(f, k, n) && q - 1 == Cut(f, k, n).addr)
      && Units(f') + n == Units(f) + (if NoFit(f, n) then CoreUnits(n) else 0)
      && (forall u: nat {:trigger InList(f', u)} ::
            && (InList(f', u) || Has(Blk(q - 1, n), u) <==>
                  InList(f, u) || (NoFit(f, n) && Has(Blk(core.value, CoreUnits(n)), u)))
            && !(InList(f', u) && Has(Blk(q - 1, n), u)))
  }

  /** g is the list f with the region c added, when nothing in f fits. */
  ghost predicate GrownBy(f: seq<Blk>, g: seq<Blk>, n: nat, core: Option<nat>) {
    && NoFit(f, n) && core.Some? && Units(g) == Units(f) + CoreUnits(n)
    && forall u: nat {:trigger InList(g, u)} :: InList(g, u) <==> InList(f, u) || Has(Blk(core.value, CoreUnits(n)), u)
  }

  lemma MallocFails(f: seq<Blk>, fp: nat, live: map<nat, nat>, n: nat)
    requires NoFit(f, n)
    ensures MallocOutcome(f, fp, live, f, live, n, None, None)
  {
  }

  lemma MallocDone(f: seq<Blk>, fp: nat, live: map<nat, nat>, g: seq<Blk>, gp: nat, base: nat, k: nat, n: nat,
                   core: Option<nat>)
    requires ListOk(g, base) && FirstFit(g, gp, k, n) && n > 0 && Cut(g, k, n).addr !in live
    requires (g == f && gp == fp) || GrownBy(f, g, n, core)
    ensures MallocOutcome(f, fp, live, Carve(g, k, n), live[Cut(g, k, n).addr := n], n, core,
                          Some(Cut(g, k, n).addr + 1))
  {
    if !GrownBy(f, g, n, core) { FitNotNone(f, fp, k, n); } else { assert NoFit(f, n); }
    CarveUnits(g, k, n);
    var g', a := Carve(g, k, n), Cut(g, k, n).addr;
    assert Cut(g, k, n) == Blk(a, n);
    forall u: nat {:trigger InList(g', u)}
      ensures InList(g', u) || Has(Blk(a, n), u) <==>
        InList(f, u) || (NoFit(f, n) && Has(Blk(core.value, CoreUnits(n)), u))
      ensures !(InList(g', u) && Has(Blk(a, n), u))
    {
      CarveCovers(g, base, k, n, u);
      assert InList(g, u) <==> InList(f, u) || (NoFit(f, n) && Has(Blk(core.value, CoreUnits(n)), u));
    }
    hide ListOk, FirstFit, Carve, Units, InList, NoFit, GrownBy;
  }

  class UserHeap {
    const base: nat
    var ptr: map<nat, nat>
    var size: map<nat, nat>
    var freep: nat            // 0 is the null pointer
    ghost var list: seq<Blk>
    ghost var live: map<nat, nat>
    ghost var top: nat

    ghost predicate Valid()
      reads this
    {
      && 0 < base < top
      && (freep == 0 ==> list == [] && live == map[])
      && (freep != 0 ==>
            && ListOk(list, base) && AllLinked(ptr, size, list) && IsNode(list, freep)
            && LiveOk(list, live, base, top) && HeadersOk(size, live))
    }

    constructor (base: nat)
      requires base > 0
      ensures Valid() && freep == 0 && this.base == base
    {
      this.base := base;
      ptr, size, freep := map[], map[], 0;
      list, live, top := [], map[], base + 1;
    }

    /** The search loop of free. */
    method Search(bp: nat) returns (p: nat, ghost k: nat)
      requires Valid() && freep != 0 && bp in live
      ensures IsPlace(list, k, bp) && p == list[k].addr
    {
      ghost var b := Blk(bp, 1);
      assert Apart(list, b) by {
        forall i | 0 <= i < |list| ensures Disjoint(list[i], b) { assert Disjoint(list[i], Blk(bp, live[bp])); }
      }
      ghost var j := PlaceExists(list, base, bp, |list|);
      p := freep;
      k :| 0 <= k < |list| && list[k].addr == freep;
      hide LiveOk, HeadersOk, Apart, ListOk;
      while true
        invariant k < |list| && p == list[k].addr
        decreases StepsTo(k, j, |list|)
      {
        assert LinkAt(ptr, size, list, k);
        StopsAt(list, base, k, bp);
        if bp > p && bp < ptr[p] { break; }
        if p >= ptr[p] && (bp > p || bp < ptr[p]) { break; }
        p, k := ptr[p], Next(k, |list|);
      }
    }

    /** The pointer is one from malloc. */
    method Free(ap: nat)
      requires Valid() && freep != 0 && ap > 0 && ap - 1 in live
      modifies this`ptr, this`size, this`freep, this`list, this`live
      ensures Valid() && freep != 0 && live == old(live) - {ap - 1}
      ensures Freed(old(list), list, Blk(ap - 1, old(live)[ap - 1]), freep)
    {
      hide ListOk, LiveOk, AllLinked, HeadersOk, Insert, Freed, IsPlace, FreedPtr, FreedSize, IsNode;
      var bp := ap - 1;
      ghost var j;
      var p;
      p, j := Search(bp);
      ghost var f, l, b := list, live, Blk(bp, live[bp]);
      FreeFacts(ptr, size, f, l, base, top, j, bp);
      Join(p, bp);
      freep := p;
      list := Insert(f, j, b);
      live := l - {bp};
    }

    /** The second half of free: bp goes after p, joined with what it touches. */
    method Join(p: nat, bp: nat)
      requires p in ptr && ptr[p] in ptr && ptr[p] in size && p in size && bp in size && p != bp
      modifies this`ptr, this`size
      ensures ptr == FreedPtr(old(ptr), old(size), p, bp) && size == FreedSize(old(ptr), old(size), p, bp)
    {
      if bp + size[bp] == ptr[p] {
        size := size[bp := size[bp] + size[ptr[p]]];
        ptr := ptr[bp := ptr[ptr[p]]];
      } else {
        ptr := ptr[bp := ptr[p]];
      }
      if p + size[p] == bp {
        size := size[p := size[p] + size[bp]];
        ptr := ptr[p := ptr[bp]];
      } else {
        ptr := ptr[p := bp];
      }
    }

    /** core is what sbrk answers: None, or a region above all earlier ones. */
    method Morecore(n: nat, core: Option<nat>) returns (ok: bool)
      requires Valid() && freep != 0 && n > 0 && (core.Some? ==> core.value >= top)
      modifies this
      ensures Valid() && freep != 0 && ok == core.Some? && live == old(live)
      ensures !ok ==> list == old(list) && freep == old(freep) && top == old(top)
      ensures ok ==>
        !NoFit(list, n) && top == core.value + CoreUnits(n) && Units(list) == Units(old(list)) + CoreUnits(n)
      ensures ok ==> 16 * (top - core.value) == if 16 * n < 65536 then 65536 else 16 * n
      ensures ok && NoFit(old(list), n) ==> GrownBy(old(list), list, n, core)
    {
      hide Valid, Freed, Units, NoFit, GrownBy;
      var nu := if n < 4096 then 4096 else n;
      if core.None? { return false; }
      var hp := core.value;
      ghost var l, f := live, list;
      AddCore(hp, nu);
      Free(hp + 1);
      FreedFits(f, list, hp, freep, n);
      assert l[hp := nu] - {hp} == l;
      return true;
    }

    /** The header of the new region: the region counts as in use until it is freed. */
    method AddCore(hp: nat, nu: nat)
      requires Valid() && freep != 0 && hp >= top && nu > 0
      modifies this`size, this`live, this`top
      ensures Valid() && top == hp + nu && hp !in old(live) && live == old(live)[hp := nu]
    {
      LiveCore(list, live, size, base, top, hp, nu);
      LinksCore(ptr, size, list, top, base, hp, nu);
      hide ListOk, LiveOk, AllLinked, HeadersOk;
      size := size[hp := nu];
      live := live[hp := nu];
      top := hp + nu;
    }

    /** malloc's fitting branch. */
    method TakeBlock(prevp: nat, p: nat, n: nat, ghost i: nat) returns (a: nat)
      requires Valid() && freep != 0 && 0 < i < |list| && list[i].addr == p && list[i].size >= n > 0
      requires list[i - 1].addr == prevp
      modifies this
      ensures Valid() && freep == prevp && freep != 0 && top == old(top)
      ensures list == Carve(old(list), i, n) && a == Cut(old(list), i, n).addr
      ensures a !in old(live) && live == old(live)[a := n]
    {
      hide ListOk, LiveOk, AllLinked, HeadersOk, Carve, Cut, TakenPtr, TakenSize, IsNode;
      ghost var f := list;
      TakeFacts(ptr, size, f, live, base, top, i, n);
      a := Unlink(prevp, p, n);
      freep := prevp;
      list := Carve(f, i, n);
      live := live[a := n];
    }

    method Unlink(prevp: nat, p: nat, n: nat) returns (a: nat)
      requires p in ptr && p in size && size[p] >= n
      modifies this`ptr, this`size
      ensures ptr == TakenPtr(old(ptr), old(size), prevp, p, n) && size == TakenSize(old(size), p, n)
      ensures a == p + old(size)[p] - n
    {
      a := p;
      if size[p] == n {
        ptr := ptr[prevp := ptr[p]];
      } else {
        size := size[p := size[p] - n];
        a := a + size[p];
        size := size[a := n];
      }
    }

    /** The list and freep once the allocator has been started. */
    ghost function List0(): seq<Blk>
      reads this
    {
      if freep == 0 then [Blk(base, 0)] else list
    }

    ghost function Freep0(): nat
      reads this
    {
      if freep == 0 then base else freep
    }

    /** The first call makes the list of the static header alone. */
    method Start()
      requires Valid()
      modifies this`ptr, this`size, this`freep, this`list
      ensures Valid() && freep != 0 && list == old(List0()) && freep == old(Freep0())
    {
      if freep == 0 {
        ptr, size, freep := ptr[base := base], size[base := 0], base;
        list := [Blk(base, 0)];
        assert list[0].addr == freep;
        assert LinkAt(ptr, size, list, 0);
      }
    }

    /** One pass of malloc's loop around the circle, from the block after freep. */
    method Scan(n: nat) returns (found: bool, prevp: nat, p: nat, ghost k: nat)
      requires Valid() && freep != 0 && n > 0
      ensures !found ==> NoFit(list, n)
      ensures found ==> FirstFit(list, freep, k, n) && list[k].addr == p && list[k - 1].addr == prevp
    {
      ghost var k0: nat :| k0 < |list| && list[k0].addr == freep;
      assert LinkAt(ptr, size, list, k0);
      prevp, p := freep, ptr[freep];
      k := Next(k0, |list|);
      ghost var kp: nat := k0;
      ScanStart(list, k0, n);
      assert list[0].size == 0;
      hide LiveOk, HeadersOk, ListOk, Scanned, NoFit, Apart;
      while true
        invariant kp < |list| && k < |list| && k == Next(kp, |list|) && list[kp].addr == prevp && list[k].addr == p
        invariant Scanned(list, k0, k, n)
        decreases StepsTo(k, k0, |list|)
      {
        assert LinkAt(ptr, size, list, k);
        if size[p] >= n { return true, prevp, p, k; }
        ScanStep(list, k0, k, n);
        AddrAt(list, base, k0, k);
        if p == freep { return false, prevp, p, k; }
        prevp, p := p, ptr[p];
        kp, k := k, Next(k, |list|);
      }
    }

    /** core is what sbrk answers if it is asked: after a pass without a fit, and then the
        second pass finds one. */
    method Malloc(nbytes: nat, core: Option<nat>) returns (r: Option<nat>)
      requires Valid() && NUnits(nbytes) < 0x800_0000 && (core.Some? ==> core.value >= top)
      modifies this
      ensures Valid() && freep != 0
      ensures MallocOutcome(old(List0()), old(Freep0()), old(live), list, live, NUnits(nbytes), core, r)
      ensures r.Some? ==> r.value > 0 && OwnBytes(list, live, r.value, nbytes)
    {
      hide OwnBytes;
      hide Valid, List0, Freep0, Carve, Cut, Units, NoFit, FirstFit, GrownBy, MallocOutcome;
      var n := NUnits(nbytes);
      assert n > 0;
      hide NUnits;
      Start();
      ghost var f, fp, l := list, freep, live;
      var found, prevp, p; ghost var k;
      found, prevp, p, k := Scan(n);
      if !found {
        var ok := Morecore(n, core);
        if !ok {
          MallocFails(f, fp, l, n);
          return None;
        }
        found, prevp, p, k := Scan(n);
      }
      ghost var g, gp := list, freep;
      ListIsOk();
      FitBounds(g, gp, k, n);
      var a := TakeBlock(prevp, p, n, k);
      MallocDone(f, fp, l, g, gp, base, k, n, core);
      LiveIsOk();
      BytesOwned(list, live, base, top, a, nbytes);
      return Some(a + 1);
    }

    lemma ListIsOk()
      requires Valid() && freep != 0
      ensures ListOk(list, base)
    {
    }

    lemma LiveIsOk()
      requires Valid() && freep != 0
      ensures LiveOk(list, live, base, top)
    {
    }
  }
}
