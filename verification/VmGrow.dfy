/** New pages for a tree: what uvmalloc and uvmcopy build page after page, and how they
    take it back when memory runs out. */
module VmGrow {
  import opened Options
  import opened VmModel
  import opened VmRange

  /** A fresh frame f with the given contents. */
  function Fill(m: Mem, f: nat, data: Page): Mem
    requires IsFrame(m, f)
  {
    m.(pages := m.pages[f := data])
  }

  function TakeFilled(m: Mem, data: Page): Mem
    requires Inv(m) && m.free != []
  {
    TakeKeeps(m);
    Fill(Take(m), m.free[0], data)
  }

  lemma TakeFilledKeeps(m: Mem, data: Page)
    requires Inv(m) && m.free != []
    ensures var m', f := TakeFilled(m, data), m.free[0];
      && Inv(m') && SameMap(m, m') && SameTables(m, m') && Keeps(m, m')
      && IsFrame(m, f) && m.use[f] == Free && m'.use[f] == Held && m'.pages[f] == data && m'.free == m.free[1..]
  {
    TakeKeeps(m);
    var m1, m', f := Take(m), TakeFilled(m, data), m.free[0];
    HeldKeeps(m1, m', f);
    hide FrameOk, Translate, HasMid, HasLow;
    forall q: nat, w: nat | IsRoot(m, q) && w < MAXVPN
      ensures Translate(m', q, w) == Translate(m, q, w)
      ensures HasMid(m', q, w) == HasMid(m, q, w) && HasLow(m', q, w) == HasLow(m, q, w)
    {
      assert Translate(m1, q, w) == Translate(m, q, w);
      assert HasMid(m1, q, w) == HasMid(m, q, w);
    }
  }

  /** Page v of tree r has become frame f, free before, with the given contents. */
  ghost predicate Added(m: Mem, m': Mem, r: nat, v: nat, f: nat, data: Page, fl: nat) {
    && v < MAXVPN && IsRoot(m, r) && IsRoot(m', r) && Inv(m') && MapSet(m, m', r, v, Some(Pte(f, fl)))
    && Upto(m, m', r, v, v + 1) && Keeps(m, m')
    && IsFrame(m, f) && m.use[f] == Free && m'.use[f] == Leaf(r, v) && m'.pages[f] == data
    && |m'.free| + 1 + Missing(m, r, v) == |m.free|
  }

  /** kalloc, fill, and mappages for one page. */
  lemma MappedFresh(m: Mem, m2: Mem, r: nat, v: nat, data: Page, fl: nat)
    requires Inv(m) && IsRoot(m, r) && v < MAXVPN && m.free != []
    requires Mapped(TakeFilled(m, data), m2, r, v, v + 1, m.free[0], fl)
    ensures Added(m, m2, r, v, m.free[0], data, fl)
  {
    TakeFilledKeeps(m, data);
    var m1, f := TakeFilled(m, data), m.free[0];
    CostOne(m1, r, v);
    assert HasMid(m1, r, v) == HasMid(m, r, v) && HasLow(m1, r, v) == HasLow(m, r, v);
    hide Inv, Translate, HasMid, HasLow, Pte, Px2, Px1, TakeFilled, TableCost;
    forall q: nat, w: nat {:trigger Translate(m2, q, w)} | IsRoot(m, q) && w < MAXVPN
      ensures Translate(m2, q, w) == if q == r && w == v then Some(Pte(f, fl)) else Translate(m, q, w)
    {
      assert Translate(m1, q, w) == Translate(m, q, w);
      assert f + (v - v) == f;
    }
    UptoAfter(m, m1, m2, r, v);
    RunFresh(m, m1, m2, r, v, f);
  }

  lemma UptoAfter(m: Mem, m1: Mem, m2: Mem, r: nat, v: nat)
    requires IsRoot(m, r) && IsRoot(m1, r) && IsRoot(m2, r) && SameTables(m, m1) && Upto(m1, m2, r, v, v + 1)
    ensures Upto(m, m2, r, v, v + 1)
  {
    hide Px2, Px1, HasMid, HasLow;
    forall w: nat | v + 1 <= w < MAXVPN
      ensures HasMid(m2, r, w) == (HasMid(m, r, w) || Px2(w) == Px2(v))
      ensures HasLow(m2, r, w) == (HasLow(m, r, w) || SamePrefix(w, v))
    {
      assert HasMid(m1, r, w) == HasMid(m, r, w);
    }
  }

  lemma RunFresh(m: Mem, m1: Mem, m2: Mem, r: nat, v: nat, f: nat)
    requires Keeps(m, m1) && RunUse(m1, m2, r, v, v + 1, f) && IsFrame(m, f) && m.use[f] == Free && m1.use[f] == Held
    ensures Keeps(m, m2) && m2.use[f] == Leaf(r, v) && m2.pages[f] == m1.pages[f]
  {
  }

  /** The same when mappages runs out of memory and the frame is given back. */
  lemma StuckFresh(m: Mem, m2: Mem, r: nat, v: nat, data: Page, fl: nat)
    requires Inv(m) && IsRoot(m, r) && v < MAXVPN && m.free != []
    requires Stuck(TakeFilled(m, data), m2, r, v, v, m.free[0], fl)
    ensures IsFrame(m2, m.free[0]) && m2.use[m.free[0]] == Held && |m.free| < 1 + Missing(m, r, v)
    ensures var m3 := Give(m2, m.free[0]); Inv(m3) && SameMap(m, m3) && Keeps(m, m3)
  {
    TakeFilledKeeps(m, data);
    var m1, f := TakeFilled(m, data), m.free[0];
    CostOne(m1, r, v);
    assert HasMid(m1, r, v) == HasMid(m, r, v) && HasLow(m1, r, v) == HasLow(m, r, v);
    assert m2.use[f] == Held;
    GiveKeeps(m2, f);
    var m3 := Give(m2, f);
    hide Inv, Translate, HasMid, HasLow, Pte, Px2, Px1, TakeFilled, TableCost;
    forall q: nat, w: nat {:trigger Translate(m3, q, w)} | IsRoot(m, q) && w < MAXVPN
      ensures Translate(m3, q, w) == Translate(m, q, w)
    {
      assert Translate(m2, q, w) == Translate(m1, q, w) == Translate(m, q, w);
    }
  }
  // ---------- a range of new pages ----------

  function AllocCost(m: Mem, r: nat, a: nat, b: nat): nat
    requires IsFrame(m, r) && a <= b <= MAXVPN
  {
    TableCost(m, r, a, b) + (b - a)
  }

  lemma {:induction false} CostMono(m: Mem, r: nat, a: nat, b: nat, c: nat)
    requires IsFrame(m, r) && a <= b <= c <= MAXVPN
    ensures AllocCost(m, r, a, b) <= AllocCost(m, r, a, c)
    decreases c
  {
    if b < c {
      CostStep(m, r, a, c - 1);
      CostMono(m, r, a, b, c - 1);
    }
  }

  /** Page v of tree r is a frame that was free before. */
  ghost predicate FreshPage(m: Mem, m': Mem, r: nat, v: nat) {
    && v < MAXVPN && IsRoot(m', r) && Shape(m) && |m'.pages| == |m.pages| && Translate(m', r, v).Some?
    && var f := Frame(Translate(m', r, v).value);
      IsFrame(m', f) && m.use[f] == Free && m'.use[f] == Leaf(r, v)
  }

  ghost predicate MapOutside(m: Mem, m': Mem, r: nat, a: nat, b: nat) {
    && (forall q: nat :: IsRoot(m, q) ==> IsRoot(m', q))
    && (forall q: nat, w: nat {:trigger Translate(m', q, w)} ::
          IsRoot(m, q) && w < MAXVPN && !(q == r && a <= w < b) ==> Translate(m', q, w) == Translate(m, q, w))
  }

  /** Pages a..b of tree r are fresh frames; all that was allocated before is untouched. */
  ghost predicate Grown(m: Mem, m': Mem, r: nat, a: nat, b: nat) {
    && a <= b <= MAXVPN && IsRoot(m, r) && Inv(m') && IsRoot(m', r)
    && MapOutside(m, m', r, a, b) && Keeps(m, m') && Upto(m, m', r, a, b)
    && (forall v: nat {:trigger FreshPage(m, m', r, v)} :: a <= v < b ==> FreshPage(m, m', r, v))
    && |m'.free| + AllocCost(m, r, a, b) == |m.free|
  }

  lemma GrownStart(m: Mem, r: nat, a: nat)
    requires Inv(m) && IsRoot(m, r) && a <= MAXVPN
    ensures Grown(m, m, r, a, a)
  {
    hide Px2, Px1, HasMid, HasLow, Translate;
    assert MissingMids(m, r, a, a) == {} && MissingLows(m, r, a, a) == {};
  }

  lemma GrownStep(m: Mem, m1: Mem, m2: Mem, r: nat, a: nat, v: nat, f: nat, data: Page, fl: nat)
    requires Inv(m) && Grown(m, m1, r, a, v) && Added(m1, m2, r, v, f, data, fl) && fl < 1024
    ensures Grown(m, m2, r, a, v + 1)
    ensures Translate(m2, r, v) == Some(Pte(f, fl)) && m2.pages[f] == data && Frame(Pte(f, fl)) == f
  {
    PteFields(f, fl);
    MissingUpto(m, m1, r, a, v);
    CostStep(m, r, a, v);
    assert IsRoot(m2, r);
    UptoStep(m, m1, m2, r, a, v);
    hide Inv, Upto, Tables, TableCost, Missing, NewTables, Translate, Pte, Frame;
    GrownPages(m, m1, m2, r, a, v, f, fl);
    forall q: nat, w: nat {:trigger Translate(m2, q, w)} | IsRoot(m, q) && w < MAXVPN && !(q == r && a <= w < v + 1)
      ensures Translate(m2, q, w) == Translate(m, q, w)
    {
      assert Translate(m1, q, w) == Translate(m, q, w);
    }
    assert Translate(m2, r, v) == Some(Pte(f, fl));
  }

  lemma GrownFails(m: Mem, m1: Mem, r: nat, a: nat, v: nat)
    requires Grown(m, m1, r, a, v) && v < MAXVPN && |m1.free| < 1 + Missing(m1, r, v)
    ensures |m.free| < AllocCost(m, r, a, v + 1)
  {
    MissingUpto(m, m1, r, a, v);
    CostStep(m, r, a, v);
  }

  lemma GrownPages(m: Mem, m1: Mem, m2: Mem, r: nat, a: nat, v: nat, f: nat, fl: nat)
    requires IsRoot(m1, r) && a <= v < MAXVPN && Keeps(m, m1) && Keeps(m1, m2)
    requires forall w: nat {:trigger FreshPage(m, m1, r, w)} :: a <= w < v ==> FreshPage(m, m1, r, w)
    requires MapSet(m1, m2, r, v, Some(Pte(f, fl))) && Frame(Pte(f, fl)) == f
    requires IsFrame(m1, f) && m1.use[f] == Free && m2.use[f] == Leaf(r, v)
    ensures forall w: nat {:trigger FreshPage(m, m2, r, w)} :: a <= w < v + 1 ==> FreshPage(m, m2, r, w)
  {
    hide Translate, Pte, Frame;
    forall w: nat {:trigger FreshPage(m, m2, r, w)} | a <= w < v + 1 ensures FreshPage(m, m2, r, w) {
      if w < v {
        assert FreshPage(m, m1, r, w);
        assert Translate(m2, r, w) == Translate(m1, r, w);
      } else {
        assert Translate(m2, r, v) == Some(Pte(f, fl));
      }
    }
  }

  /** The part of Grown that survives a failed attempt at one more page. */
  ghost predicate Partly(m: Mem, m': Mem, r: nat, a: nat, b: nat) {
    && a <= b <= MAXVPN && IsRoot(m, r) && Inv(m') && IsRoot(m', r)
    && MapOutside(m, m', r, a, b) && Keeps(m, m')
    && (forall v: nat {:trigger FreshPage(m, m', r, v)} :: a <= v < b ==> FreshPage(m, m', r, v))
  }

  lemma PartlyAfter(m: Mem, m1: Mem, m2: Mem, r: nat, a: nat, b: nat)
    requires Partly(m, m1, r, a, b) && Inv(m2) && SameMap(m1, m2) && Keeps(m1, m2)
    ensures Partly(m, m2, r, a, b)
  {
    hide Inv, Translate, Frame;
    forall q: nat, w: nat {:trigger Translate(m2, q, w)} | IsRoot(m, q) && w < MAXVPN && !(q == r && a <= w < b)
      ensures Translate(m2, q, w) == Translate(m, q, w)
    {
      assert Translate(m1, q, w) == Translate(m, q, w);
    }
    forall w: nat {:trigger FreshPage(m, m2, r, w)} | a <= w < b ensures FreshPage(m, m2, r, w) {
      assert FreshPage(m, m1, r, w);
      assert Translate(m2, r, w) == Translate(m1, r, w);
    }
  }

  /** Taking the new pages back restores every translation. */
  lemma ShrinkBack(m: Mem, m1: Mem, m2: Mem, r: nat, a: nat, b: nat)
    requires Inv(m) && Partly(m, m1, r, a, b) && Unmapped(m1, m2, r, a, b, true)
    requires forall v: nat {:trigger Translate(m, r, v)} :: a <= v < b ==> Translate(m, r, v) == None
    ensures Inv(m2) && SameMap(m, m2) && Keeps(m, m2)
  {
    forall g: nat | IsFrame(m, g) ensures !InRun(m.use[g], r, a, b) {
      assert FrameOk(m, g);
    }
    hide Inv, FrameOk, Upto, SameTables, Translate;
    forall q: nat, w: nat {:trigger Translate(m2, q, w)} | IsRoot(m, q) && w < MAXVPN
      ensures Translate(m2, q, w) == Translate(m, q, w)
    {
      assert Translate(m2, q, w) == if q == r && a <= w < b then None else Translate(m1, q, w);
    }
  }

  // ---------- a new tree ----------

  function NewRoot(m: Mem, f: nat): Mem
    requires IsFrame(m, f)
  {
    SetUse(Fill(m, f, ZeroPage()), f, Root)
  }

  lemma RootPath(m: Mem, f: nat, q: nat, v: nat)
    requires Inv(m) && IsFrame(m, f) && m.use[f] == Held && (IsRoot(m, q) || q == f) && v < MAXVPN
    ensures Translate(NewRoot(m, f), q, v) == if q == f then None else Translate(m, q, v)
  {
    ZeroEntry();
    VpnFields(v);
    if q != f { PathUse(m, q, v); }
    hide Inv, Frame, IsValid, IsLeaf, ZeroPage, Px0, Px1, Px2;
  }

  lemma RootFrame(m: Mem, f: nat, g: nat)
    requires Inv(m) && IsFrame(m, f) && m.use[f] == Held && IsFrame(m, g) && SameMap(m, NewRoot(m, f))
    ensures FrameOk(NewRoot(m, f), g)
  {
    var m' := NewRoot(m, f);
    ZeroEntry();
    assert FrameOk(m, g);
    hide Inv, Frame, IsValid, IsLeaf, ZeroPage, Vpn, Translate;
    if m.use[g].Low? {
      var q: nat :| IsFrame(m, q) && m.use[q] == Mid(m.use[g].r, m.use[g].i2) && Child(m, q, m.use[g].i1) == Some(g);
      assert IsFrame(m', q) && m'.use[q] == m.use[q] && Child(m', q, m.use[g].i1) == Some(g);
    }
  }

  /** A zeroed page is an empty tree. */
  lemma NewRootKeeps(m: Mem, f: nat)
    requires Inv(m) && IsFrame(m, f) && m.use[f] == Held
    ensures var m' := NewRoot(m, f); Inv(m') && SameMap(m, m') && Vacant(m', f, 0, MAXVPN)
  {
    var m' := NewRoot(m, f);
    forall q: nat, v: nat {:trigger Translate(m', q, v)} | (IsRoot(m, q) || q == f) && v < MAXVPN
      ensures Translate(m', q, v) == if q == f then None else Translate(m, q, v)
    {
      RootPath(m, f, q, v);
    }
    assert SameMap(m, m');
    forall g: nat | IsFrame(m', g) ensures FrameOk(m', g) { RootFrame(m, f, g); }
  }
}
