/** kernel/kalloc.c and kernel/vm.c as code over physical memory. Physical pages are given
    by frame number; a panic is an outcome. */
module VmCode {
  import opened Options
  import opened VmModel
  import opened VmRange
  import opened VmGrow
  import opened VmFree

  const PGSIZE := 4096
  const WORD64 := 0x1_0000_0000_0000_0000

  datatype Outcome = Done | NoMemory | Panic

  /** What walk returns: the address of an entry, if it does not panic. */
  datatype Place = Panics | NoTable | At(t: nat, i: nat)

  function PlaceOf(m: Mem, r: nat, v: nat): Place
    requires IsFrame(m, r) && v < MAXVPN
  {
    match LowTable(m, r, v)
    case None => NoTable
    case Some(t) => At(t, Px0(v))
  }

  function Px(level: nat, v: nat): nat { if level == 2 then Px2(v) else if level == 1 then Px1(v) else Px0(v) }

  /** The pages that a loop over va and size visits are First..End; a range that wraps
      around, and so an empty one, has no end below the limit. */
  function First(va: nat): nat { va / PGSIZE }
  function Last(va: nat, size: nat): nat { (va + size + WORD64 - 1) % WORD64 / PGSIZE }
  function End(va: nat, size: nat): nat {
    if First(va) <= Last(va, size) then Last(va, size) + 1 else MAXVPN + 1
  }

  /** Page v holds one of the bytes from va on. */
  ghost predicate Touches(v: nat, va: nat, size: nat) {
    exists x: nat :: va <= x < va + size && PageOf(x, v)
  }

  ghost predicate PageOf(x: nat, v: nat) { v * PGSIZE <= x < (v + 1) * PGSIZE }

  /** For bytes within the address space these are exactly the pages that hold one of them. */
  lemma PagesOfRange(va: nat, size: nat, v: nat)
    requires size > 0 && va + size <= WORD64
    ensures First(va) <= v < End(va, size) <==> Touches(v, va, size)
  {
    assert (va + size + WORD64 - 1) % WORD64 == va + size - 1;
    if First(va) <= v < End(va, size) {
      var x := if va < v * PGSIZE then v * PGSIZE else va;
      assert PageOf(x, v);
    }
  }

  lemma EndStep(va: nat, size: nat, a: nat)
    requires First(va) <= a < End(va, size)
    ensures a == Last(va, size) ==> a + 1 == End(va, size)
    ensures a != Last(va, size) ==> a + 1 < End(va, size) || a == MAXVPN
  {
  }

  lemma Unchanged(m: Mem)
    requires Inv(m)
    ensures SameMap(m, m) && Keeps(m, m)
  {
  }

  /** PGROUNDUP, in pages. */
  function Up(sz: nat): nat { (sz + PGSIZE - 1) / PGSIZE }

  /** The same with the wrap-around of the uint64 sum. */
  function UpWord(sz: nat): nat { (sz + PGSIZE - 1) % WORD64 / PGSIZE }

  lemma NoWrap(sz: nat)
    requires sz < WORD64
    ensures UpWord(sz) == if sz <= WORD64 - PGSIZE then Up(sz) else 0
  {
  }

  /** From a page boundary to any byte. */
  lemma SpanTo(a: nat, sz: nat)
    requires a * PGSIZE < sz < WORD64
    ensures First(a * PGSIZE) == a && End(a * PGSIZE, sz - a * PGSIZE) == Up(sz) && a < Up(sz)
  {
    assert (sz + WORD64 - 1) % WORD64 == sz - 1;
    assert Up(sz) == (sz - 1) / PGSIZE + 1;
  }

  lemma UpExact(a: nat, sz: nat)
    ensures a * PGSIZE >= sz <==> a >= Up(sz)
  {
  }

  /** From page 0 on; the empty range ends beyond the limit. */
  lemma UndoSpan(i: nat)
    requires i <= MAXVPN
    ensures First(0) == 0 && if i == 0 then End(0, 0) > MAXVPN else End(0, i * PGSIZE) == i
  {
    if i > 0 {
      SpanTo(0, i * PGSIZE);
      UpExact(i, i * PGSIZE);
    }
  }

  lemma FreeSpan(sz: nat)
    requires sz < WORD64
    ensures First(0) == 0 && if sz == 0 then End(0, 0) > MAXVPN else End(0, sz) == Up(sz)
  {
    if sz > 0 { SpanTo(0, sz); }
  }

  /** Entries that freewalk has not come to are as they were. */
  lemma SameEntry(m: Mem, m1: Mem, t: nat, i: nat)
    requires Emptied(m, m1, t, i) && i < ENTRIES
    ensures m1.pages[t][i] == m.pages[t][i]
  {
  }

  lemma SameMapTrans(m: Mem, m1: Mem, m2: Mem)
    requires SameMap(m, m1) && SameMap(m1, m2)
    ensures SameMap(m, m2)
  {
    hide Translate;
    forall q: nat, w: nat {:trigger Translate(m2, q, w)} | IsRoot(m, q) && w < MAXVPN
      ensures Translate(m2, q, w) == Translate(m, q, w)
    {
      assert Translate(m1, q, w) == Translate(m, q, w);
    }
  }

  /** What becomes of frame g of use u when the page table of a process of size sz is freed:
      the pages at the top go back to their owners; the rest of the tree is freed, but only
      when the process has memory. */
  function FreedUse(u: Use, r: nat, g: nat, sz: nat): Use {
    if u.Leaf? && u.r == r && u.v >= MAXVPN - 2 then Held
    else if sz > 0 && (g == r || OfTree(u, r)) then Free
    else u
  }

  lemma TopSpan()
    ensures First((MAXVPN - 1) * PGSIZE) == MAXVPN - 1 && End((MAXVPN - 1) * PGSIZE, PGSIZE) == MAXVPN
    ensures First((MAXVPN - 2) * PGSIZE) == MAXVPN - 2 && End((MAXVPN - 2) * PGSIZE, PGSIZE) == MAXVPN - 1
  {
    SpanOne(MAXVPN - 1);
    SpanOne(MAXVPN - 2);
  }

  /** Unmapping the two pages at the top. */
  lemma TopUnmapped(m: Mem, m1: Mem, m2: Mem, r: nat, n: nat)
    requires Inv(m) && IsRoot(m, r) && n <= MAXVPN - 2 && Solid(m, r, 0, n) && Vacant(m, r, n, MAXVPN - 2)
    requires Unmapped(m, m1, r, MAXVPN - 1, MAXVPN, false) && Unmapped(m1, m2, r, MAXVPN - 2, MAXVPN - 1, false)
    requires forall v: nat {:trigger Owned(m, r, v)} :: v < n ==> Owned(m, r, v) < |m.use|
    ensures IsRoot(m2, r) && Inv(m2) && Solid(m2, r, 0, n) && Vacant(m2, r, n, MAXVPN)
    ensures forall v: nat {:trigger Owned(m2, r, v)} ::
      v < MAXVPN && Solid(m2, r, 0, v + 1) ==> Owned(m2, r, v) < |m2.use|
  {
    hide Inv, Translate, Frame, SameTables;
    assert IsRoot(m1, r) && IsRoot(m2, r);
    forall v: nat {:trigger Translate(m2, r, v)} | v < MAXVPN
      ensures Translate(m2, r, v) == if v < MAXVPN - 2 then Translate(m, r, v) else None
    {
      assert Translate(m1, r, v) == if v == MAXVPN - 1 then None else Translate(m, r, v);
    }
    forall v: nat {:trigger Owned(m2, r, v)} | v < MAXVPN && Solid(m2, r, 0, v + 1) ensures Owned(m2, r, v) < |m2.use| {
      assert Translate(m2, r, v).Some?;
      assert v < n;
      assert Translate(m2, r, v) == Translate(m, r, v);
      assert Owned(m, r, v) < |m.use|;
    }
  }

  lemma SolidCut(m: Mem, m1: Mem, r: nat)
    requires IsRoot(m, r) && MapCut(m, m1, r, MAXVPN - 1, MAXVPN) && Solid(m, r, MAXVPN - 2, MAXVPN)
    ensures IsRoot(m1, r) && Translate(m1, r, MAXVPN - 2).Some?
  {
    assert IsRoot(m1, r) && Translate(m1, r, MAXVPN - 2) == Translate(m, r, MAXVPN - 2);
  }

  lemma TopShape(m: Mem, m1: Mem, m2: Mem, m3: Mem, r: nat, sz: nat)
    requires CutUse(m, m1, r, MAXVPN - 1, MAXVPN, false) && CutUse(m1, m2, r, MAXVPN - 2, MAXVPN - 1, false)
    requires Inv(m2) && if sz > 0 then Gone(m2, m3, r) else m3 == m2
    ensures |m3.use| == |m.use| && Inv(m3)
  {
  }

  lemma TopUse(m: Mem, m1: Mem, m2: Mem, m3: Mem, r: nat, sz: nat, g: nat)
    requires IsFrame(m, g) && CutUse(m, m1, r, MAXVPN - 1, MAXVPN, false)
    requires CutUse(m1, m2, r, MAXVPN - 2, MAXVPN - 1, false)
    requires if sz > 0 then Gone(m2, m3, r) else m3 == m2
    requires m.use[g].Leaf? ==> m.use[g].v < MAXVPN
    requires IsRoot(m, r)
    ensures m3.use[g] == FreedUse(m.use[g], r, g, sz)
  {
    hide Inv, Translate;
    assert m1.use[g] == if InRun(m.use[g], r, MAXVPN - 1, MAXVPN) then Held else m.use[g];
    assert m2.use[g] == if InRun(m1.use[g], r, MAXVPN - 2, MAXVPN - 1) then Held else m1.use[g];
  }

  lemma SpanOne(a: nat)
    requires a <= MAXVPN
    ensures First(a * PGSIZE) == a && End(a * PGSIZE, PGSIZE) == a + 1 && Up(a * PGSIZE) == a
  {
    SpanTo(a, a * PGSIZE + PGSIZE);
  }

  /** Page v of tree r is owned and has the given contents and flags. */
  ghost predicate Holds(m: Mem, r: nat, v: nat, data: Page, fl: nat) {
    && v < MAXVPN && IsRoot(m, r) && Translate(m, r, v).Some? && Flags(Translate(m, r, v).value) == fl
    && Owned(m, r, v) < |m.use| == |m.pages| && m.pages[Owned(m, r, v)] == data
  }

  lemma AddedHolds(m: Mem, m': Mem, r: nat, v: nat, f: nat, data: Page, fl: nat)
    requires Added(m, m', r, v, f, data, fl) && fl < 1024
    ensures Holds(m', r, v, data, fl)
  {
    PteFields(f, fl);
    hide Inv, Pte, Frame, Flags;
    assert Translate(m', r, v) == Some(Pte(f, fl));
  }

  /** Adding another page leaves it so. */
  lemma StillHolds(m: Mem, m': Mem, r: nat, v: nat, data: Page, fl: nat, t: nat, w: nat, e: Option<nat>)
    requires Holds(m, r, v, data, fl) && Keeps(m, m') && MapSet(m, m', t, w, e) && (r != t || v != w)
    ensures Holds(m', r, v, data, fl)
  {
    hide Translate, Frame, Flags;
    assert Translate(m', r, v) == Translate(m, r, v);
  }

  ghost predicate AddOutcome(m: Mem, m': Mem, r: nat, v: nat, data: Page, fl: nat, o: Outcome)
    requires IsFrame(m, r)
  {
    match o
    case Done =>
      m.free != [] && v < MAXVPN && Translate(m, r, v) == None && Added(m, m', r, v, m.free[0], data, fl)
    case NoMemory =>
      && Inv(m') && SameMap(m, m') && Keeps(m, m')
      && |m.free| < 1 + if v < MAXVPN then Missing(m, r, v) else 0
    case Panic =>
      v >= MAXVPN || Translate(m, r, v).Some?
  }

  /** What uvmalloc and uvmcopy make of pages a..b. */
  ghost predicate GrowOutcome(m: Mem, m': Mem, r: nat, a: nat, b: nat, o: Outcome)
    requires IsFrame(m, r) && a <= b
  {
    match o
    case Done => Vacant(m, r, a, b) && Grown(m, m', r, a, b)
    case NoMemory =>
      Inv(m') && SameMap(m, m') && Keeps(m, m') && (b <= MAXVPN ==> |m.free| < AllocCost(m, r, a, b))
    case Panic => !Vacant(m, r, a, b)
  }

  /** Pages a..b of tree r are owned, zero, and valid, readable, writable, executable and
      open to the user. */
  ghost predicate AllZero(m: Mem, r: nat, a: nat, b: nat) {
    forall v: nat {:trigger Holds(m, r, v, ZeroPage(), 31)} :: a <= v < b ==> Holds(m, r, v, ZeroPage(), 31)
  }

  lemma AllHold(m: Mem, m': Mem, r: nat, a: nat, v: nat, f: nat)
    requires Added(m, m', r, v, f, ZeroPage(), 31)
    requires AllZero(m, r, a, v)
    ensures AllZero(m', r, a, v + 1)
  {
    AddedHolds(m, m', r, v, f, ZeroPage(), 31);
    hide Inv, Holds, ZeroPage, Pte;
    forall w: nat {:trigger Holds(m', r, w, ZeroPage(), 31)} | a <= w < v ensures Holds(m', r, w, ZeroPage(), 31) {
      assert Holds(m, r, w, ZeroPage(), 31);
      StillHolds(m, m', r, w, ZeroPage(), 31, r, v, Some(Pte(f, 31)));
    }
  }

  lemma OutcomePanic(m: Mem, m': Mem, r: nat, a: nat, b: nat, v: nat)
    requires IsRoot(m, r) && a <= v < b && (v < MAXVPN ==> Translate(m, r, v).Some?)
    ensures GrowOutcome(m, m', r, a, b, Panic)
  {
  }

  lemma OutcomeFail(m: Mem, m': Mem, r: nat, a: nat, b: nat, v: nat)
    requires IsRoot(m, r) && a <= v < b && Inv(m') && SameMap(m, m') && Keeps(m, m')
    requires v < MAXVPN ==> |m.free| < AllocCost(m, r, a, v + 1)
    ensures GrowOutcome(m, m', r, a, b, NoMemory)
  {
    if b <= MAXVPN { CostMono(m, r, a, v + 1, b); }
  }

  lemma OutcomeDone(m: Mem, m': Mem, r: nat, a: nat, b: nat)
    requires Vacant(m, r, a, b) && Grown(m, m', r, a, b)
    ensures GrowOutcome(m, m', r, a, b, Done)
  {
  }

  lemma VacantStep(m: Mem, r: nat, a: nat, v: nat)
    requires Vacant(m, r, a, v) && v < MAXVPN && Translate(m, r, v) == None
    ensures Vacant(m, r, a, v + 1)
  {
  }

  /** Page v of tree c is a frame of its own with the bytes and flags of page v of tree p. */
  ghost predicate Copied(m: Mem, m': Mem, p: nat, c: nat, v: nat) {
    && v < MAXVPN && IsRoot(m, p) && Translate(m, p, v).Some? && Owned(m, p, v) < |m.use| == |m.pages|
    && Holds(m', c, v, m.pages[Owned(m, p, v)], Flags(Translate(m, p, v).value))
  }

  ghost predicate AllCopied(m: Mem, m': Mem, p: nat, c: nat, n: nat) {
    forall v: nat {:trigger Copied(m, m', p, c, v)} :: v < n ==> Copied(m, m', p, c, v)
  }

  lemma CopyStep(m: Mem, m1: Mem, m2: Mem, p: nat, c: nat, v: nat, f: nat, data: Page, fl: nat)
    requires AllCopied(m, m1, p, c, v) && Added(m1, m2, c, v, f, data, fl)
    requires IsRoot(m, p) && Translate(m, p, v).Some? && Owned(m, p, v) < |m.use| == |m.pages|
    requires data == m.pages[Owned(m, p, v)] && fl == Flags(Translate(m, p, v).value)
    ensures AllCopied(m, m2, p, c, v + 1)
  {
    AddedHolds(m1, m2, c, v, f, data, fl);
    hide Inv, Holds, Owned, Translate, Pte;
    forall w: nat {:trigger Copied(m, m2, p, c, w)} | w < v ensures Copied(m, m2, p, c, w) {
      assert Copied(m, m1, p, c, w);
      StillHolds(m1, m2, c, w, m.pages[Owned(m, p, w)], Flags(Translate(m, p, w).value), c, v, Some(Pte(f, fl)));
    }
  }

  lemma CopyFails(m: Mem, c: nat, i: nat, b: nat)
    requires IsFrame(m, c) && i < b && i < MAXVPN && |m.free| < AllocCost(m, c, 0, i + 1)
    ensures b <= MAXVPN ==> |m.free| < AllocCost(m, c, 0, b)
  {
    if b <= MAXVPN { CostMono(m, c, 0, i + 1, b); }
  }

  lemma CopyFits(m: Mem, m1: Mem, c: nat, i: nat)
    requires Grown(m, m1, c, 0, i) && i > 0
    ensures AllocCost(m, c, 0, 1) <= |m.free|
  {
    CostMono(m, c, 0, 1, i);
  }

  /** The parent's page is unchanged when it comes to be copied. */
  lemma ParentKept(m: Mem, m1: Mem, p: nat, c: nat, v: nat)
    requires Inv(m) && Grown(m, m1, c, 0, v) && v < MAXVPN && IsRoot(m, p)
    requires Translate(m, p, v).Some? ==> Owned(m, p, v) < |m.use|
    ensures IsRoot(m1, p) && Translate(m1, p, v) == Translate(m, p, v)
    ensures Translate(m, p, v).Some? ==>
      var e := Translate(m, p, v).value;
      && Frame(e) == Owned(m, p, v) && IsFrame(m1, Frame(e)) && m1.use[Frame(e)].Leaf?
      && m1.pages[Frame(e)] == m.pages[Owned(m, p, v)]
      && IsValid(e) && IsLeaf(e) && WithValid(Flags(e)) == Flags(e) && Flags(e) < 1024 && Flags(e) / 2 % 8 != 0
  {
    PathUse(m, p, v);
    WalkIdle(m, p, v);
    if Translate(m, p, v).Some? {
      var e := Translate(m, p, v).value;
      assert Pte(Frame(e), Flags(e)) == e;
      PteFields(Frame(e), Flags(e));
    }
    hide Inv, LowTable, IsValid, IsLeaf, Frame, Flags, Pte;
  }

  /** The new pages can be unmapped and freed. */
  lemma FreshOwned(m: Mem, m': Mem, r: nat, a: nat, b: nat)
    requires Partly(m, m', r, a, b)
    ensures Solid(m', r, a, b)
    ensures forall v: nat {:trigger Owned(m', r, v)} :: a <= v < b ==> Owned(m', r, v) < |m'.use|
  {
    hide Inv, Translate, Frame;
    forall v: nat {:trigger Translate(m', r, v)} | a <= v < b ensures Translate(m', r, v).Some? {
      assert FreshPage(m, m', r, v);
    }
    forall v: nat {:trigger Owned(m', r, v)} | a <= v < b ensures Owned(m', r, v) < |m'.use| {
      assert FreshPage(m, m', r, v);
    }
  }

  /** A leaf entry has more than the valid bit. */
  lemma LeafFlags(e: nat)
    ensures IsLeaf(e) ==> Flags(e) != 1
  {
    var k := e / 1024;
    assert e == 1024 * k + Flags(e);
    if Flags(e) == 1 {
      assert e / 2 == 512 * k;
      assert 512 * k == 8 * (64 * k);
    }
  }

  function WithValid(perm: nat): nat { if perm % 2 == 1 then perm else perm + 1 }

  lemma UserFlags()
    ensures WithValid(30) == 31
  {
  }

  lemma WithValidBits(perm: nat)
    requires perm < 1024 && perm / 2 % 8 != 0
    ensures WithValid(perm) < 1024 && WithValid(perm) % 2 == 1 && WithValid(perm) / 2 == perm / 2
  {
  }

  /** An entry for frame f: valid, and each of the nine other flags as perm has it. */
  ghost predicate EntryFor(t: Option<nat>, f: nat, perm: nat) {
    t.Some? && Frame(t.value) == f && Flags(t.value) % 2 == 1 && Flags(t.value) / 2 == perm / 2
  }

  /** Every byte of the range is in a page that translates to its frame with the flags asked
      for. */
  ghost predicate RangeMapped(m: Mem, r: nat, va: nat, size: nat, pf: nat, perm: nat)
    requires Inv(m) && IsRoot(m, r)
  {
    forall x: nat {:trigger First(x)} :: va <= x < va + size ==>
      First(x) < MAXVPN && EntryFor(Translate(m, r, First(x)), pf + First(x) - First(va), perm)
  }

  lemma RangeBytes(m: Mem, m': Mem, r: nat, va: nat, size: nat, pf: nat, perm: nat)
    requires Mapped(m, m', r, First(va), End(va, size), pf, WithValid(perm)) && perm < 1024 && perm / 2 % 8 != 0
    requires va + size <= WORD64
    ensures Inv(m') && IsRoot(m', r) && RangeMapped(m', r, va, size, pf, perm)
  {
    hide Inv, Translate, RunUse, Upto, TableCost, End, WithValid, EntryFor;
    forall x: nat | va <= x < va + size
      ensures First(x) < MAXVPN && EntryFor(Translate(m', r, First(x)), pf + First(x) - First(va), perm)
    {
      RangeByte(m, m', r, va, size, pf, perm, x);
    }
  }

  lemma RangeByte(m: Mem, m': Mem, r: nat, va: nat, size: nat, pf: nat, perm: nat, x: nat)
    requires Mapped(m, m', r, First(va), End(va, size), pf, WithValid(perm)) && perm < 1024 && perm / 2 % 8 != 0
    requires va <= x < va + size <= WORD64
    ensures First(x) < MAXVPN && EntryFor(Translate(m', r, First(x)), pf + First(x) - First(va), perm)
  {
    WithValidBits(perm);
    assert (va + size + WORD64 - 1) % WORD64 == va + size - 1;
    assert First(va) <= First(x) <= Last(va, size);
    PteFields(pf + First(x) - First(va), WithValid(perm));
    hide Inv, Translate, RunUse, Upto, TableCost, WithValid, Pte, Frame, Flags;
  }

  /** Pages that the loop of mappages has not reached yet translate as before. */
  lemma MappedAhead(m0: Mem, m: Mem, r: nat, a: nat, v: nat, pf: nat, fl: nat)
    requires Mapped(m0, m, r, a, v, pf, fl)
    ensures Inv(m) && IsRoot(m0, r) && IsRoot(m, r) && v <= MAXVPN
    ensures v < MAXVPN ==> Translate(m, r, v) == Translate(m0, r, v)
  {
    hide Inv, Translate, RunUse, Upto, TableCost;
  }

  lemma EndAhead(va: nat, size: nat)
    requires va < WORD64 && size < WORD64 && First(va) <= MAXVPN
    ensures First(va) < End(va, size)
  {
  }

  lemma VacantNone(m: Mem, r: nat, a: nat)
    requires Inv(m) && IsRoot(m, r) && a <= MAXVPN
    ensures Vacant(m, r, a, a)
  {
  }

  class PhysMem {
    var pages: seq<Page>
    var free: seq<nat>
    ghost var use: seq<Use>

    ghost function M(): Mem
      reads this
    {
      Mem(pages, free, use)
    }

    /** kinit: n frames, of which those from start on are given to the allocator. */
    constructor (n: nat, start: nat)
      requires start <= n
      ensures Inv(M()) && |pages| == n && |free| == n - start
      ensures forall f: nat :: f < n ==> use[f] == if f < start then Outside else Free
    {
      pages := seq(n, _ => ZeroPage());
      free := [];
      use := seq(n, (i: nat) => if i < start then Outside else Held);
      new;
      for p := start to n
        invariant Inv(M()) && |pages| == n && |free| == p - start
        invariant forall f: nat :: f < n ==> use[f] == if f < start then Outside else if f < p then Free else Held
      {
        GiveKeeps(M(), p);
        Kfree(p);
      }
    }

    method Kalloc() returns (f: Option<nat>)
      requires Inv(M())
      modifies this
      ensures old(free) == [] ==> f == None && M() == old(M())
      ensures old(free) != [] ==> f == Some(old(free)[0]) && IsFrame(old(M()), f.value) && M() == Take(old(M()))
    {
      if free == [] { return None; }
      TakeKeeps(M());
      var r := free[0];
      free := free[1..];
      pages := pages[r := JunkPage(0x0505_0505_0505_0505)];
      use := use[r := Held];
      return Some(r);
    }

    method Kfree(f: nat)
      requires IsFrame(M(), f)
      modifies this
      ensures M() == Give(old(M()), f)
    {
      pages := pages[f := JunkPage(0x0101_0101_0101_0101)];
      free := [f] + free;
      use := use[f := Free];
    }

    /** The allocating branch of walk's loop: a zeroed table, linked from table t. */
    method NewTable(r: nat, v: nat, t: nat, level: nat) returns (f: Option<nat>)
      requires Inv(M()) && IsRoot(M(), r) && v < MAXVPN && 1 <= level <= 2
      requires level == 2 ==> t == r && !HasMid(M(), r, v)
      requires level == 1 ==> Child(M(), r, Px2(v)) == Some(t) && !HasLow(M(), r, v)
      modifies this
      ensures old(free) == [] ==> f == None && M() == old(M())
      ensures old(free) != [] ==> f == Some(old(free)[0])
      ensures old(free) != [] && level == 2 ==> M() == GrowMid(old(M()), r, v)
      ensures old(free) != [] && level == 1 ==>
        IsFrame(old(M()), t) && old(M()).use[t] == Mid(r, Px2(v)) && M() == GrowLow(old(M()), r, v, t)
    {
      PathUse(M(), r, v);
      f := Kalloc();
      if f.None? { return; }
      var pte := Px(level, v);
      pages := pages[f.value := ZeroPage()];
      pages := pages[t := pages[t][pte := Pte(f.value, 1)]];
      use := use[f.value := if level == 2 then Mid(r, Px2(v)) else Low(r, Px2(v), Px1(v))];
    }

    /** One round of walk's loop: from table t to the table below it. */
    method WalkLevel(r: nat, v: nat, t: nat, level: nat, alloc: bool) returns (f: Option<nat>)
      requires Inv(M()) && IsRoot(M(), r) && v < MAXVPN && 1 <= level <= 2
      requires level == 2 ==> t == r
      requires level == 1 ==> Child(M(), r, Px2(v)) == Some(t)
      modifies this
      ensures IsRoot(M(), r)
      ensures level == 2 ==> M() == (if alloc then WalkMid(old(M()), r, v) else old(M())) && f == Child(M(), r, Px2(v))
      ensures level == 1 ==> M() == (if alloc then WalkLow(old(M()), r, v) else old(M())) && f == LowTable(M(), r, v)
    {
      PathUse(M(), r, v);
      ghost var m := M();
      if IsValid(pages[t][Px(level, v)]) { return Some(Frame(pages[t][Px(level, v)])); }
      if !alloc { return None; }
      f := NewTable(r, v, t, level);
      if f.Some? {
        if level == 2 { GrowMidKeeps(m, r, v); } else { GrowLowKeeps(m, r, v, t); }
      }
    }

    method Walk(r: nat, va: nat, alloc: bool) returns (w: Place)
      requires Inv(M()) && IsRoot(M(), r)
      modifies this
      ensures va / PGSIZE >= MAXVPN ==> w == Panics && M() == old(M())
      ensures va / PGSIZE < MAXVPN ==>
        && M() == (if alloc then WalkMem(old(M()), r, va / PGSIZE) else old(M()))
        && IsRoot(M(), r) && w == PlaceOf(M(), r, va / PGSIZE)
    {
      if va / PGSIZE >= MAXVPN { return Panics; }
      var v := va / PGSIZE;
      VpnFields(v);
      ghost var m0 := M();
      var t, level := r, 2;
      while level > 0
        invariant level <= 2 && Inv(M()) && IsRoot(M(), r) && IsFrame(M(), t)
        invariant level == 2 ==> t == r && M() == m0
        invariant level == 1 ==> M() == (if alloc then WalkMid(m0, r, v) else m0) && Child(M(), r, Px2(v)) == Some(t)
        invariant level == 0 ==> M() == (if alloc then WalkMem(m0, r, v) else m0) && LowTable(M(), r, v) == Some(t)
      {
        var f := WalkLevel(r, v, t, level, alloc);
        if level == 2 { WalkMidKeeps(m0, r, v); } else { WalkKeeps(m0, r, v); }
        if f.None? { return NoTable; }
        PathUse(M(), r, v);
        t := f.value;
        level := level - 1;
      }
      return At(t, Px0(v));
    }

    // ---------- mappages ----------

    /** One round of mappages' loop. */
    method MapPage(r: nat, v: nat, f: nat, fl: nat) returns (o: Outcome)
      requires Inv(M()) && IsRoot(M(), r) && v <= MAXVPN && fl < 1024
      modifies this
      ensures v == MAXVPN || Translate(old(M()), r, v).Some? ==> o == Panic && M() == old(M())
      ensures v < MAXVPN && Translate(old(M()), r, v) == None && |old(free)| < Missing(old(M()), r, v) ==>
        o == NoMemory && M() == WalkMem(old(M()), r, v)
      ensures v < MAXVPN && Translate(old(M()), r, v) == None && |old(free)| >= Missing(old(M()), r, v) ==>
        o == Done && HasLow(WalkMem(old(M()), r, v), r, v) && M() == MapOne(old(M()), r, v, Pte(f, fl))
    {
      ghost var m := M();
      var w := Walk(r, v * PGSIZE, true);
      if w.Panics? { return Panic; }
      WalkKeeps(m, r, v);
      WalkIdle(m, r, v);
      WalkIdle(M(), r, v);
      PathUse(M(), r, v);
      hide Inv, WalkMem, Translate, LowTable, Child, Frame, Pte, IsValid, Px0, Px1, Px2, Missing;
      assert Translate(M(), r, v) == Translate(m, r, v);
      if w.NoTable? { return NoMemory; }
      if IsValid(pages[w.t][w.i]) { return Panic; }
      pages := pages[w.t := pages[w.t][w.i := Pte(f, fl)]];
      if f < |use| && use[f] == Held { use := use[f := Leaf(r, v)]; }
      PteFrame(f, fl);
      return Done;
    }

    /** The same round, seen from page a0 and memory m0 on, where the loop began. */
    method MapNext(r: nat, v: nat, f: nat, fl: nat, ghost m0: Mem, ghost a0: nat) returns (o: Outcome)
      requires fl < 1024 && fl % 2 == 1 && fl / 2 % 8 != 0 && a0 <= v && v - a0 <= f && Mappable(m0, f)
      requires Mapped(m0, M(), r, a0, v, f - (v - a0), fl)
      modifies this
      ensures o == Done ==> v < MAXVPN && Translate(m0, r, v) == None && Mapped(m0, M(), r, a0, v + 1, f - (v - a0), fl)
      ensures o == NoMemory ==> v < MAXVPN && Translate(m0, r, v) == None && Stuck(m0, M(), r, a0, v, f - (v - a0), fl)
      ensures o == Panic ==> M() == old(M()) && (v == MAXVPN || Translate(m0, r, v).Some?)
    {
      hide Inv, RunMap, RunUse, Mapped, Stuck, MapOne, WalkMem, Translate, Missing, HasLow, Upto, TableCost;
      ghost var m, pf := M(), f - (v - a0);
      MappedAhead(m0, m, r, a0, v, pf, fl);
      o := MapPage(r, v, f, fl);
      if o == NoMemory { MappedFails(m0, m, r, a0, v, pf, fl); }
      if o == Done { MappedStep(m0, m, r, a0, v, pf, fl); }
    }

    /** b is the page at which the loop stopped. */
    method Mappages(r: nat, va: nat, size: nat, pf: nat, perm: nat) returns (o: Outcome, ghost b: nat)
      requires Inv(M()) && IsRoot(M(), r) && va < WORD64 && size < WORD64 && perm < 1024 && perm / 2 % 8 != 0
      requires forall g: nat {:trigger Mappable(M(), g)} ::
        pf <= g < pf + (End(va, size) - First(va)) ==> Mappable(M(), g)
      modifies this
      ensures First(va) > MAXVPN ==> o == Panic && M() == old(M())
      ensures First(va) <= MAXVPN ==>
        && First(va) <= b <= End(va, size) && Vacant(old(M()), r, First(va), b)
        && (o == Done <==> b == End(va, size))
        && (o != NoMemory ==> Mapped(old(M()), M(), r, First(va), b, pf, WithValid(perm)))
        && (o == NoMemory ==>
              Stuck(old(M()), M(), r, First(va), b, pf, WithValid(perm)) && Translate(old(M()), r, b) == None)
        && (o == Panic ==> b == MAXVPN || Translate(old(M()), r, b).Some?)
      ensures o == Done && va + size <= WORD64 ==>
        Inv(M()) && IsRoot(M(), r) && RangeMapped(M(), r, va, size, pf, perm)
    {
      hide Inv, First, Last, End, WithValid, Translate, Mapped, Stuck, Mappable, Vacant, RangeMapped;
      b := First(va);
      if First(va) > MAXVPN { return Panic, b; }
      WithValidBits(perm);
      EndAhead(va, size);
      var a, p, last := First(va), pf, Last(va, size);
      ghost var m0 := M();
      MappedStart(m0, r, a, pf, WithValid(perm));
      VacantNone(m0, r, a);
      while true
        invariant IsRoot(m0, r) && a == b <= MAXVPN && First(va) <= a && p == pf + (a - First(va)) && a < End(va, size)
        invariant Mapped(m0, M(), r, First(va), a, pf, WithValid(perm))
        invariant Vacant(m0, r, First(va), b)
        decreases MAXVPN - a
      {
        EndStep(va, size, a);
        assert Mappable(m0, p);
        o := MapNext(r, a, p, WithValid(perm), m0, First(va));
        if o != Done { return; }
        VacantStep(m0, r, First(va), a);
        b := b + 1;
        if a == last {
          if va + size <= WORD64 { RangeBytes(m0, M(), r, va, size, pf, perm); }
          return;
        }
        a, p := a + 1, p + 1;
      }
    }

    // ---------- uvmunmap ----------

    /** One round of uvmunmap's loop. */
    method UnmapPage(r: nat, v: nat, doFree: bool) returns (o: Outcome)
      requires Inv(M()) && IsRoot(M(), r) && v <= MAXVPN
      requires doFree && v < MAXVPN && Translate(M(), r, v).Some? ==> Owned(M(), r, v) < |use|
      modifies this
      ensures v == MAXVPN || Translate(old(M()), r, v) == None ==> o == Panic && M() == old(M())
      ensures v < MAXVPN && Translate(old(M()), r, v).Some? ==> o == Done && M() == UnmapOne(old(M()), r, v, doFree)
    {
      ghost var m := M();
      var w := Walk(r, v * PGSIZE, false);
      if w.Panics? || w.NoTable? { return Panic; }
      WalkIdle(m, r, v);
      PathUse(m, r, v);
      var e := pages[w.t][w.i];
      LeafFlags(e);
      if !IsValid(e) || Flags(e) == 1 { return Panic; }
      ghost var f := Owned(m, r, v);
      hide Inv, Translate, LowTable, Px0, IsValid, IsLeaf;
      if doFree { Kfree(Frame(e)); }
      pages := pages[w.t := pages[w.t][w.i := 0]];
      if !doFree && f < |use| { use := use[f := Held]; }
      return Done;
    }

    /** b is the page at which the loop stopped. */
    method Uvmunmap(r: nat, va: nat, size: nat, doFree: bool) returns (o: Outcome, ghost b: nat)
      requires Inv(M()) && IsRoot(M(), r) && va < WORD64 && size < WORD64
      requires doFree ==> forall v: nat {:trigger Owned(M(), r, v)} ::
        First(va) <= v < End(va, size) && v < MAXVPN && Solid(M(), r, First(va), v + 1) ==> Owned(M(), r, v) < |use|
      modifies this
      ensures o != NoMemory
      ensures First(va) > MAXVPN ==> o == Panic && M() == old(M())
      ensures First(va) <= MAXVPN ==>
        && First(va) <= b <= End(va, size) && Solid(old(M()), r, First(va), b)
        && (o == Done <==> b == End(va, size))
        && Unmapped(old(M()), M(), r, First(va), b, doFree)
        && (o == Panic ==> b == MAXVPN || Translate(old(M()), r, b) == None)
    {
      b := First(va);
      if First(va) > MAXVPN { return Panic, b; }
      var a, last := First(va), Last(va, size);
      ghost var m0 := M();
      UnmappedStart(m0, r, a, doFree);
      assert a < End(va, size);
      hide Inv, First, Last, End, Translate, Unmapped;
      while true
        invariant a == b <= MAXVPN && First(va) <= a && a < End(va, size)
        invariant Unmapped(m0, M(), r, First(va), a, doFree) && Solid(m0, r, First(va), b)
        decreases MAXVPN - a
      {
        EndStep(va, size, a);
        assert a < MAXVPN && Translate(m0, r, a).Some? ==> Solid(m0, r, First(va), a + 1);
        o := UnmapNext(r, a, doFree, m0, First(va));
        if o != Done { return; }
        b := b + 1;
        if a == last { return; }
        a := a + 1;
      }
    }

    /** The same round, seen from page a0 and memory m0 on, where the loop began. */
    method UnmapNext(r: nat, v: nat, doFree: bool, ghost m0: Mem, ghost a0: nat) returns (o: Outcome)
      requires Inv(m0) && a0 <= v && Unmapped(m0, M(), r, a0, v, doFree)
      requires doFree && v < MAXVPN && Translate(m0, r, v).Some? ==> Owned(m0, r, v) < |m0.use|
      modifies this
      ensures o == Done ==> v < MAXVPN && Translate(m0, r, v).Some? && Unmapped(m0, M(), r, a0, v + 1, doFree)
      ensures o == Panic ==> M() == old(M()) && (v == MAXVPN || Translate(m0, r, v) == None)
      ensures o != NoMemory
    {
      ghost var m := M();
      assert IsRoot(m, r);
      assert v < MAXVPN ==> Translate(m, r, v) == Translate(m0, r, v);
      if v < MAXVPN && Translate(m0, r, v).Some? { UnmappedStep(m0, m, r, a0, v, doFree); }
      hide Inv, MapCut, CutUse, Unmapped, UnmapOne, Translate, Owned;
      o := UnmapPage(r, v, doFree);
    }

    // ---------- growing and shrinking ----------

    /** Above 2^64 - PGSIZE the rounded old size wraps to 0, and nothing is unmapped. */
    method Uvmdealloc(r: nat, oldsz: nat, newsz: nat) returns (o: Outcome, sz: nat)
      requires Inv(M()) && IsRoot(M(), r) && oldsz < WORD64
      requires forall v: nat {:trigger Owned(M(), r, v)} ::
        Up(newsz) <= v < UpWord(oldsz) && v < MAXVPN && Solid(M(), r, Up(newsz), v + 1) ==> Owned(M(), r, v) < |use|
      modifies this
      ensures sz == if newsz < oldsz then newsz else oldsz
      ensures newsz >= oldsz || UpWord(newsz) >= UpWord(oldsz) ==> o == Done && M() == old(M())
      ensures newsz < oldsz && UpWord(newsz) < UpWord(oldsz) ==>
        && Up(newsz) < Up(oldsz) && (o == Done <==> Solid(old(M()), r, Up(newsz), Up(oldsz)))
        && (o == Done ==> Unmapped(old(M()), M(), r, Up(newsz), Up(oldsz), true))
    {
      if newsz >= oldsz { return Done, oldsz; }
      var newup := UpWord(newsz);
      o := Done;
      if newup < UpWord(oldsz) {
        NoWrap(oldsz);
        NoWrap(newsz);
        SpanTo(newup, oldsz);
        hide First, End, Up, UpWord, Unmapped, Inv, Owned, Translate;
        ghost var b;
        o, b := Uvmunmap(r, newup * PGSIZE, oldsz - newup * PGSIZE, true);
      }
      return o, newsz;
    }

    /** A round of uvmalloc's and uvmcopy's loops: a frame, zeroed or copied from src, is
        mapped at page v, or given back. */
    method AddPage(r: nat, v: nat, src: Option<nat>, perm: nat) returns (o: Outcome)
      requires Inv(M()) && IsRoot(M(), r) && v <= MAXVPN && perm < 1024 && perm / 2 % 8 != 0
      requires src.Some? ==> IsFrame(M(), src.value) && use[src.value].Leaf?
      modifies this
      ensures AddOutcome(old(M()), M(), r, v, if src.None? then ZeroPage() else old(pages)[src.value],
                         WithValid(perm), o)
    {
      ghost var m := M();
      ghost var data := if src.None? then ZeroPage() else pages[src.value];
      var mem := Kalloc();
      if mem.None? {
        Unchanged(m);
        return NoMemory;
      }
      pages := pages[mem.value := if src.None? then ZeroPage() else pages[src.value]];
      assert M() == TakeFilled(m, data);
      hide Inv, ZeroPage, TakeFilled, AddOutcome;
      o := MapOrFree(r, v, mem.value, perm, m, data);
    }

    /** What follows once the frame is filled. */
    method MapOrFree(r: nat, v: nat, mem: nat, perm: nat, ghost m: Mem, ghost data: Page) returns (o: Outcome)
      requires Inv(m) && IsRoot(m, r) && v <= MAXVPN && perm < 1024 && perm / 2 % 8 != 0
      requires m.free != [] && mem == m.free[0] && M() == TakeFilled(m, data)
      modifies this
      ensures AddOutcome(m, M(), r, v, data, WithValid(perm), o)
    {
      TakeFilledKeeps(m, data);
      SpanOne(v);
      assert v < MAXVPN ==> Translate(M(), r, v) == Translate(m, r, v);
      assert Mappable(M(), mem);
      hide Inv, First, End, Up, WithValid, Mapped, Stuck, Translate;
      hide TakeFilled, Added, Missing, Keeps, SameTables, SameMap, Mappable;
      ghost var b;
      o, b := Mappages(r, v * PGSIZE, PGSIZE, mem, perm);
      if o == NoMemory {
        StuckFresh(m, M(), r, v, data, WithValid(perm));
        Kfree(mem);
      } else if o == Done {
        MappedFresh(m, M(), r, v, data, WithValid(perm));
      }
    }

    /** The same round, seen from page a0 and memory m0 on, where the loop began. */
    method GrowNext(r: nat, v: nat, src: Option<nat>, perm: nat, ghost m0: Mem, ghost a0: nat) returns (o: Outcome)
      requires Inv(m0) && Grown(m0, M(), r, a0, v) && perm < 1024 && perm / 2 % 8 != 0
      requires src.Some? ==> IsFrame(M(), src.value) && use[src.value].Leaf?
      modifies this
      ensures o == Done ==>
        && v < MAXVPN && Translate(m0, r, v) == None && Grown(m0, M(), r, a0, v + 1) && old(free) != []
        && Added(old(M()), M(), r, v, old(free)[0], if src.None? then ZeroPage() else old(pages)[src.value],
                 WithValid(perm))
      ensures o == NoMemory ==> Partly(m0, M(), r, a0, v) && (v < MAXVPN ==> |m0.free| < AllocCost(m0, r, a0, v + 1))
      ensures o == Panic ==> v == MAXVPN || Translate(m0, r, v).Some?
    {
      ghost var m := M();
      ghost var data := if src.None? then ZeroPage() else pages[src.value];
      assert v < MAXVPN ==> Translate(m, r, v) == Translate(m0, r, v);
      assert Partly(m0, m, r, a0, v);
      WithValidBits(perm);
      hide Inv, WithValid, Translate, Missing, Added, Keeps, SameMap, MapOutside, Partly, Upto, AllocCost, ZeroPage;
      o := AddPage(r, v, src, perm);
      match o
      case Done => GrownStep(m0, m, M(), r, a0, v, m.free[0], data, WithValid(perm));
      case NoMemory =>
        PartlyAfter(m0, m, M(), r, a0, v);
        if v < MAXVPN { GrownFails(m0, m, r, a0, v); }
      case Panic =>
    }

    method Uvmalloc(r: nat, oldsz: nat, newsz: nat) returns (o: Outcome, sz: nat)
      requires Inv(M()) && IsRoot(M(), r) && Up(oldsz) <= MAXVPN && newsz < WORD64
      modifies this
      ensures newsz < oldsz ==> o == Done && sz == oldsz && M() == old(M())
      ensures newsz >= oldsz ==>
        && Up(oldsz) <= Up(newsz) && GrowOutcome(old(M()), M(), r, Up(oldsz), Up(newsz), o)
        && sz == (if o == Done then newsz else 0)
      ensures newsz >= oldsz && o == Done ==> AllZero(M(), r, Up(oldsz), Up(newsz))
    {
      if newsz < oldsz { return Done, oldsz; }
      ghost var m0 := M();
      var oldup := Up(oldsz);
      var a := oldup;
      GrownStart(m0, r, a);
      assert oldup <= Up(newsz);
      hide Inv, Up, Grown, Vacant, GrowOutcome, WithValid, Added, AllZero;
      hide ZeroPage, Translate, Partly, AllocCost, SameMap, Keeps;
      while a * PGSIZE < newsz
        invariant oldup <= a <= Up(newsz) && a <= MAXVPN && Grown(m0, M(), r, oldup, a) && Vacant(m0, r, oldup, a)
        invariant AllZero(M(), r, oldup, a)
      {
        SpanTo(a, newsz);
        ghost var m := M();
        o := GrowNext(r, a, None, 30, m0, oldup);
        UserFlags();
        if o == Panic {
          OutcomePanic(m0, M(), r, oldup, Up(newsz), a);
          return o, 0;
        }
        if o == NoMemory {
          TakeBack(r, a, oldup, m0);
          OutcomeFail(m0, M(), r, oldup, Up(newsz), a);
          return o, 0;
        }
        VacantStep(m0, r, oldup, a);
        AllHold(m, M(), r, oldup, a, m.free[0]);
        a := a + 1;
      }
      UpExact(a, newsz);
      OutcomeDone(m0, M(), r, oldup, a);
      return Done, newsz;
    }

    /** uvmalloc's error path: uvmdealloc from page b back to page a. */
    method TakeBack(r: nat, b: nat, a: nat, ghost m0: Mem)
      requires Inv(m0) && Partly(m0, M(), r, a, b) && Vacant(m0, r, a, b)
      modifies this
      ensures Inv(M()) && SameMap(m0, M()) && Keeps(m0, M())
    {
      ghost var m := M();
      SpanOne(a);
      SpanOne(b);
      FreshOwned(m0, m, r, a, b);
      assert Inv(m) && IsRoot(m, r);
      UnmappedStart(m, r, a, true);
      hide Up, Inv, Partly, Unmapped, Translate, Owned, Keeps, SameMap;
      var o, sz := Uvmdealloc(r, b * PGSIZE, a * PGSIZE);
      ShrinkBack(m0, m, M(), r, a, b);
    }

    // ---------- uvmcopy ----------

    /** uvmcopy's error path, after i pages: with none copied the range to unmap wraps around. */
    method UndoCopy(c: nat, i: nat, ghost m0: Mem) returns (o: Outcome)
      requires Inv(m0) && Partly(m0, M(), c, 0, i) && Vacant(m0, c, 0, i) && Translate(m0, c, 0) == None
      modifies this
      ensures i > 0 ==> o == Done && Inv(M()) && SameMap(m0, M()) && Keeps(m0, M())
      ensures i == 0 ==> o == Panic
    {
      ghost var m := M();
      FreshOwned(m0, m, c, 0, i);
      assert i == 0 ==> Translate(m, c, 0) == None;
      UndoSpan(i);
      hide First, Last, End, Inv, Partly, Unmapped, Translate, Owned, Keeps, SameMap;
      ghost var b;
      o, b := Uvmunmap(c, 0, i * PGSIZE, true);
      if i > 0 { ShrinkBack(m0, m, M(), c, 0, i); }
    }

    /** One round of the loop. */
    method CopyPage(p: nat, c: nat, v: nat, ghost m0: Mem) returns (o: Outcome)
      requires Inv(m0) && IsRoot(m0, p) && Grown(m0, M(), c, 0, v)
      requires v < MAXVPN && Translate(m0, p, v).Some? ==> Owned(m0, p, v) < |m0.use|
      requires v < MAXVPN ==> Translate(m0, c, v) == None
      requires AllCopied(m0, M(), p, c, v)
      modifies this
      ensures o == Done ==>
        v < MAXVPN && Translate(m0, p, v).Some? && Grown(m0, M(), c, 0, v + 1) && AllCopied(m0, M(), p, c, v + 1)
      ensures o == NoMemory ==> v < MAXVPN && Partly(m0, M(), c, 0, v) && |m0.free| < AllocCost(m0, c, 0, v + 1)
      ensures o == Panic ==> v == MAXVPN || Translate(m0, p, v) == None
    {
      ghost var m := M();
      assert IsRoot(m, p);
      if v < MAXVPN { ParentKept(m0, m, p, c, v); WalkIdle(m, p, v); }
      var w := Walk(p, v * PGSIZE, false);
      if w.Panics? || w.NoTable? { return Panic; }
      var e := pages[w.t][w.i];
      if !IsValid(e) { return Panic; }
      hide Inv, Translate, LowTable, IsValid, IsLeaf, Frame, Flags, WithValid;
      hide Grown, Partly, AllCopied, Added, AllocCost, Px0;
      o := GrowNext(c, v, Some(Frame(e)), Flags(e), m0, 0);
      if o == Done {
        CopyStep(m0, m, M(), p, c, v, m.free[0], m0.pages[Owned(m0, p, v)], Flags(e));
      }
    }

    method Uvmcopy(p: nat, c: nat, sz: nat) returns (o: Outcome)
      requires Inv(M()) && IsRoot(M(), p) && IsRoot(M(), c) && sz < WORD64
      requires forall v: nat {:trigger Owned(M(), p, v)} ::
        v < Up(sz) && v < MAXVPN && Translate(M(), p, v).Some? ==> Owned(M(), p, v) < |use|
      requires forall v: nat {:trigger Translate(M(), c, v)} ::
        v < Up(sz) && v < MAXVPN ==> Translate(M(), c, v) == None
      modifies this
      ensures o == Done ==>
        Solid(old(M()), p, 0, Up(sz)) && Grown(old(M()), M(), c, 0, Up(sz)) && AllCopied(old(M()), M(), p, c, Up(sz))
      ensures o == NoMemory ==>
        && Inv(M()) && SameMap(old(M()), M()) && Keeps(old(M()), M()) && sz > 0
        && AllocCost(old(M()), c, 0, 1) <= |old(free)|
        && (Up(sz) <= MAXVPN ==> |old(free)| < AllocCost(old(M()), c, 0, Up(sz)))
      ensures o == Panic ==> !Solid(old(M()), p, 0, Up(sz)) || (sz > 0 && |old(free)| < AllocCost(old(M()), c, 0, 1))
    {
      ghost var m0 := M();
      var i := 0;
      GrownStart(m0, c, 0);
      hide Inv, Up, Grown, AllCopied, Translate, Partly, AllocCost, SameMap, Keeps, Owned;
      while i * PGSIZE < sz
        invariant i <= Up(sz) && i <= MAXVPN && Grown(m0, M(), c, 0, i) && Solid(m0, p, 0, i)
        invariant AllCopied(m0, M(), p, c, i)
      {
        SpanTo(i, sz);
        if i > 0 { CopyFits(m0, M(), c, i); }
        o := CopyPage(p, c, i, m0);
        if o == Panic { return; }
        if o == NoMemory {
          CopyFails(m0, c, i, Up(sz));
          var u := UndoCopy(c, i, m0);
          if u == Panic { return Panic; }
          return NoMemory;
        }
        i := i + 1;
      }
      UpExact(i, sz);
      return Done;
    }

    // ---------- freewalk and uvmfree ----------

    /** m1 is memory when the table itself is about to be freed. */
    method Freewalk(t: nat) returns (ok: bool, ghost m1: Mem)
      requires Inv(M()) && IsFrame(M(), t) && IsTable(use[t])
      modifies this
      decreases Level(use[t])
      ensures IsRoot(old(M()), TreeOf(old(use)[t], t))
      ensures ok <==> Bare(old(M()), t, ENTRIES)
      ensures ok ==> Emptied(old(M()), m1, t, ENTRIES) && M() == Give(m1, t)
    {
      ghost var m := M();
      EmptiedStart(m, t);
      m1 := m;
      hide Inv, Bare, Emptied, Linked, Frame, IsValid, IsLeaf;
      for i := 0 to ENTRIES
        invariant Emptied(m, M(), t, i) && Bare(m, t, i) && |pages| == |m.pages| == |use|
      {
        var e := pages[t][i];
        if IsValid(e) && !IsLeaf(e) {
          var k := FreeChild(t, i, m);
          if !k { return false, m; }
        } else if IsValid(e) {
          SameEntry(m, M(), t, i);
          NotBare(m, t, i);
          return false, m;
        } else {
          SameEntry(m, M(), t, i);
          SkipEntry(m, M(), t, i);
          BareInvalid(m, t, i);
        }
      }
      m1 := M();
      Kfree(t);
      return true, m1;
    }

    /** The recursive branch, for entry i; m is memory when the loop began. */
    method FreeChild(t: nat, i: nat, ghost m: Mem) returns (ok: bool)
      requires Inv(m) && Emptied(m, M(), t, i) && IsTable(m.use[t]) && i < ENTRIES
      requires IsRoot(m, TreeOf(m.use[t], t)) && Bare(m, t, i)
      requires IsValid(pages[t][i]) && !IsLeaf(pages[t][i])
      modifies this
      decreases Level(m.use[t]), 0
      ensures ok ==> Emptied(m, M(), t, i + 1) && Bare(m, t, i + 1)
      ensures !ok ==> !Bare(m, t, ENTRIES)
    {
      ghost var mi := M();
      var c := Frame(pages[t][i]);
      ChildLinked(m, mi, t, i);
      hide Bare, Frame, IsValid, IsLeaf;
      var k; ghost var mc;
      k, mc := Freewalk(c);
      BareSame(m, mi, c, ENTRIES);
      if !k {
        NotBareUp(m, t, i, c);
        return false;
      }
      DropEntry(m, mi, mc, t, i, c);
      BareChild(m, t, i, c);
      pages := pages[t := pages[t][i := 0]];
      return true;
    }

    method Uvmfree(r: nat, sz: nat) returns (o: Outcome)
      requires Inv(M()) && IsRoot(M(), r) && sz < WORD64
      requires forall v: nat {:trigger Owned(M(), r, v)} ::
        v < MAXVPN && Solid(M(), r, 0, v + 1) ==> Owned(M(), r, v) < |use|
      modifies this
      ensures o != NoMemory
      ensures o == Done <==> sz > 0 && Solid(old(M()), r, 0, Up(sz)) && Vacant(old(M()), r, Up(sz), MAXVPN)
      ensures o == Done ==> Gone(old(M()), M(), r)
    {
      ghost var m := M();
      FreeSpan(sz);
      hide First, Last, End, Up, Inv, Owned, Translate, Bare, Emptied, Gone;
      ghost var b;
      o, b := Uvmunmap(r, 0, sz, true);
      if o == Panic { return Panic; }
      ghost var m1 := M();
      BareAfter(m, m1, r, b);
      var ok; ghost var m2;
      ok, m2 := Freewalk(r);
      if !ok { return Panic; }
      RootGone(m1, m2, r);
      GoneAfter(m, m1, M(), r, b);
    }

    method Uvmcreate() returns (o: Outcome, r: nat)
      requires Inv(M())
      modifies this
      ensures o == Done <==> old(free) != []
      ensures o != NoMemory
      ensures o == Done ==>
        && Inv(M()) && IsRoot(M(), r) && Vacant(M(), r, 0, MAXVPN) && SameMap(old(M()), M()) && Keeps(old(M()), M())
        && !IsRoot(old(M()), r)
    {
      ghost var m := M();
      var f := Kalloc();
      if f.None? { return Panic, 0; }
      TakeKeeps(m);
      r := f.value;
      ghost var m1 := M();
      NewRootKeeps(m1, r);
      pages := pages[r := ZeroPage()];
      use := use[r := Root];
      assert M() == NewRoot(m1, r);
      SameMapTrans(m, m1, M());
      return Done, r;
    }

    /** proc_freepagetable: the two pages at the top, which belong to others, then uvmfree
        unless the process is empty. */
    method ProcFreepagetable(r: nat, sz: nat) returns (o: Outcome)
      requires Inv(M()) && IsRoot(M(), r) && Up(sz) <= MAXVPN - 2
      requires Solid(M(), r, 0, Up(sz)) && Vacant(M(), r, Up(sz), MAXVPN - 2) && Solid(M(), r, MAXVPN - 2, MAXVPN)
      requires forall v: nat {:trigger Owned(M(), r, v)} :: v < Up(sz) ==> Owned(M(), r, v) < |use|
      modifies this
      ensures o == Done && Inv(M()) && |use| == |old(use)|
      ensures forall g: nat {:trigger use[g]} :: IsFrame(old(M()), g) ==>
        use[g] == FreedUse(old(use)[g], r, g, sz)
    {
      ghost var m := M();
      TopSpan();
      forall g: nat | IsFrame(m, g) ensures m.use[g].Leaf? ==> m.use[g].v < MAXVPN { assert FrameOk(m, g); }
      hide First, Last, End, Inv, Translate, Owned, Gone, MapCut, CutUse;
      ghost var b;
      o, b := Uvmunmap(r, (MAXVPN - 1) * PGSIZE, PGSIZE, false);
      ghost var m1 := M();
      SolidCut(m, m1, r);
      o, b := Uvmunmap(r, (MAXVPN - 2) * PGSIZE, PGSIZE, false);
      ghost var m2 := M();
      TopUnmapped(m, m1, m2, r, Up(sz));
      if sz > 0 { o := Uvmfree(r, sz); }
      TopShape(m, m1, m2, M(), r, sz);
      forall g: nat | IsFrame(m, g) ensures use[g] == FreedUse(m.use[g], r, g, sz) {
        TopUse(m, m1, m2, M(), r, sz, g);
      }
    }
  }
}
