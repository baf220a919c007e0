/** Ranges of pages: what mapping and unmapping page after page amounts to, and how many
    table frames a range needs. */
module VmRange {
  import opened Options
  import opened VmModel

  predicate Mappable(m: Mem, f: nat) { IsFrame(m, f) ==> m.use[f] in {Held, Outside} }

  ghost predicate IsData(u: Use) { u.Held? || u.Leaf? || u.Outside? }

  // ---------- one page ----------

  /** What mapping page v of tree r to entry e leaves. */
  function MapOne(m: Mem, r: nat, v: nat, e: nat): Mem
    requires Inv(m) && IsRoot(m, r) && v < MAXVPN && HasLow(WalkMem(m, r, v), r, v)
  {
    WalkKeeps(m, r, v);
    var w := WalkMem(m, r, v);
    PathUse(w, r, v);
    PutLeaf(w, LowTable(w, r, v).value, v, e, Adopted(w, e), Leaf(r, v))
  }

  ghost predicate Adopts(m: Mem, m': Mem, r: nat, v: nat, f: nat) {
    && Shape(m) && Shape(m') && |m'.pages| == |m.pages|
    && (forall g: nat {:trigger m'.use[g]} :: IsFrame(m, g) && m.use[g] != Free ==>
          m'.use[g] == if g == f && m.use[g] == Held then Leaf(r, v) else m.use[g])
    && (forall g: nat {:trigger m'.pages[g]} :: IsFrame(m, g) && IsData(m.use[g]) ==> m'.pages[g] == m.pages[g])
  }

  lemma MapOneKeeps(m: Mem, r: nat, v: nat, e: nat)
    requires Inv(m) && IsRoot(m, r) && v < MAXVPN && IsValid(e) && IsLeaf(e) && Mappable(m, Frame(e))
    requires |m.free| >= Missing(m, r, v) && Translate(m, r, v) == None
    ensures HasLow(WalkMem(m, r, v), r, v)
    ensures var m' := MapOne(m, r, v, e);
      && Inv(m') && MapSet(m, m', r, v, Some(e)) && Tables(m, m', r, v, true, true)
      && Adopts(m, m', r, v, Frame(e)) && |m'.free| == |m.free| - Missing(m, r, v)
  {
    WalkKeeps(m, r, v);
    var w := WalkMem(m, r, v);
    PathUse(w, r, v);
    var t := LowTable(w, r, v).value;
    assert Translate(w, r, v) == None;
    assert w.use[t].Low?;
    assert Mappable(w, Frame(e));
    hide Inv, IsValid, IsLeaf, Px0, Px1, Px2, WalkMem, Translate, LowTable, HasMid, HasLow, Missing;
    MapKeeps(w, r, v, t, e);
    MapOneRest(m, w, MapOne(m, r, v, e), r, v, e, true);
    AdoptsOne(m, w, r, v, t, e);
  }

  lemma AdoptsOne(m: Mem, w: Mem, r: nat, v: nat, t: nat, e: nat)
    requires Keeps(m, w) && IsFrame(w, t) && w.use[t].Low? && Mappable(m, Frame(e))
    ensures Adopts(m, PutLeaf(w, t, v, e, Adopted(w, e), Leaf(r, v)), r, v, Frame(e))
  {
    VpnFields(v);
    hide Px0, Frame;
  }

  lemma MapOneRest(m: Mem, w: Mem, m': Mem, r: nat, v: nat, e: nat, before: bool)
    requires SameMap(m, w) && MapSet(w, m', r, v, Some(e))
    requires Tables(m, w, r, v, before, before) && Tables(w, m', r, v, !before, !before)
    ensures MapSet(m, m', r, v, Some(e)) && Tables(m, m', r, v, true, true)
  {
    hide Translate, HasMid, HasLow, Px1, Px2;
    forall q: nat, x: nat {:trigger Translate(m', q, x)} | IsRoot(m, q) && x < MAXVPN
      ensures Translate(m', q, x) == if q == r && x == v then Some(e) else Translate(m, q, x)
    {
      assert Translate(w, q, x) == Translate(m, q, x);
    }
    forall q: nat, x: nat | IsRoot(m, q) && x < MAXVPN
      ensures HasMid(m', q, x) == (HasMid(m, q, x) || (q == r && Px2(x) == Px2(v)))
      ensures HasLow(m', q, x) == (HasLow(m, q, x) || (q == r && Px2(x) == Px2(v) && Px1(x) == Px1(v)))
    {
      assert HasMid(w, q, x) == (HasMid(m, q, x) || (before && q == r && Px2(x) == Px2(v)));
    }
  }

  /** What unmapping page v leaves; the frame goes to the free list or to the caller. */
  function UnmapOne(m: Mem, r: nat, v: nat, doFree: bool): Mem
    requires Inv(m) && IsRoot(m, r) && v < MAXVPN && Translate(m, r, v).Some?
    requires doFree ==> Owned(m, r, v) < |m.use|
  {
    PathUse(m, r, v);
    var m1 := PutLeaf(m, LowTable(m, r, v).value, v, 0, Owned(m, r, v), Held);
    if doFree then Give(m1, Owned(m, r, v)) else m1
  }

  ghost predicate Releases(m: Mem, m': Mem, f: nat, doFree: bool) {
    && Shape(m) && Shape(m') && |m'.pages| == |m.pages|
    && (forall g: nat {:trigger m'.use[g]} :: IsFrame(m, g) ==>
          m'.use[g] == if g == f then (if doFree then Free else Held) else m.use[g])
    && (forall g: nat {:trigger m'.pages[g]} :: IsFrame(m, g) && IsData(m.use[g]) && (g != f || !doFree) ==>
          m'.pages[g] == m.pages[g])
  }

  lemma UnmapOneKeeps(m: Mem, r: nat, v: nat, doFree: bool)
    requires Inv(m) && IsRoot(m, r) && v < MAXVPN && Translate(m, r, v).Some?
    requires doFree ==> Owned(m, r, v) < |m.use|
    ensures var m' := UnmapOne(m, r, v, doFree);
      && Inv(m') && MapSet(m, m', r, v, None) && SameTables(m, m')
      && Releases(m, m', Owned(m, r, v), doFree)
      && |m'.free| == |m.free| + (if doFree then 1 else 0)
  {
    PathUse(m, r, v);
    var t, f := LowTable(m, r, v).value, Owned(m, r, v);
    var m1, m' := PutLeaf(m, t, v, 0, f, Held), UnmapOne(m, r, v, doFree);
    UnmapKeeps(m, r, v, t);
    assert m.use[t].Low?;
    hide Inv, IsValid, IsLeaf, Px0, Px1, Px2, Translate, LowTable, HasMid, HasLow;
    if doFree {
      GiveKeeps(m1, f);
      forall q: nat, w: nat {:trigger Translate(m', q, w)} | IsRoot(m, q) && w < MAXVPN
        ensures Translate(m', q, w) == if q == r && w == v then None else Translate(m, q, w)
      {
        assert Translate(m1, q, w) == if q == r && w == v then None else Translate(m, q, w);
      }
      forall q: nat, w: nat | IsRoot(m, q) && w < MAXVPN
        ensures HasMid(m', q, w) == HasMid(m, q, w) && HasLow(m', q, w) == HasLow(m, q, w)
      {
        assert HasMid(m1, q, w) == HasMid(m, q, w);
      }
    }
  }

  // ---------- tables that a range needs ----------

  /** The places of the tables that pages a..b of tree r still lack. */
  function MissingMids(m: Mem, r: nat, a: nat, b: nat): set<nat>
    requires IsFrame(m, r) && b <= MAXVPN
  {
    set v: nat | a <= v < b && !HasMid(m, r, v) :: Px2(v)
  }

  function Prefix(v: nat): (nat, nat) { (Px2(v), Px1(v)) }

  function MissingLows(m: Mem, r: nat, a: nat, b: nat): set<(nat, nat)>
    requires IsFrame(m, r) && b <= MAXVPN
  {
    set v: nat | a <= v < b && !HasLow(m, r, v) :: Prefix(v)
  }

  function TableCost(m: Mem, r: nat, a: nat, b: nat): nat
    requires IsFrame(m, r) && b <= MAXVPN
  {
    |MissingMids(m, r, a, b)| + |MissingLows(m, r, a, b)|
  }

  lemma PrefixMono(a: nat, b: nat, c: nat)
    requires a <= b <= c
    ensures Px2(a) == Px2(c) ==> Px2(b) == Px2(c)
    ensures Px2(a) == Px2(c) && Px1(a) == Px1(c) ==> Px1(b) == Px1(c)
  {
    Px2Div(a); Px2Div(b); Px2Div(c);
    var x, y, z := a / ENTRIES, b / ENTRIES, c / ENTRIES;
    assert x <= y <= z;
    assert x / ENTRIES <= y / ENTRIES <= z / ENTRIES;
    if Px2(a) == Px2(c) && Px1(a) == Px1(c) {
      assert x == z;
    }
  }

  lemma Px2Div(v: nat)
    ensures Px2(v) == v / ENTRIES / ENTRIES
  {
    VpnFields(v);
  }

  ghost predicate SamePrefix(v: nat, w: nat) { Px2(v) == Px2(w) && Px1(v) == Px1(w) }

  /** The tables that page v needs when pages a..v already have theirs. */
  function NewTables(m: Mem, r: nat, a: nat, v: nat): nat
    requires IsFrame(m, r) && a <= v < MAXVPN
  {
    (if HasMid(m, r, v) || (a < v && Px2(v - 1) == Px2(v)) then 0 else 1)
    + (if HasLow(m, r, v) || (a < v && Px2(v - 1) == Px2(v) && Px1(v - 1) == Px1(v)) then 0 else 1)
  }

  lemma CostStep(m: Mem, r: nat, a: nat, v: nat)
    requires IsFrame(m, r) && a <= v < MAXVPN
    ensures TableCost(m, r, a, v + 1) == TableCost(m, r, a, v) + NewTables(m, r, a, v)
  {
    MidStep(m, r, a, v);
    LowStep(m, r, a, v);
  }

  lemma MidStep(m: Mem, r: nat, a: nat, v: nat)
    requires IsFrame(m, r) && a <= v < MAXVPN
    ensures |MissingMids(m, r, a, v + 1)| == |MissingMids(m, r, a, v)|
      + if HasMid(m, r, v) || (a < v && Px2(v - 1) == Px2(v)) then 0 else 1
  {
    var s, s' := MissingMids(m, r, a, v), MissingMids(m, r, a, v + 1);
    hide Px2, Frame, IsValid;
    if HasMid(m, r, v) {
      assert s' == s;
    } else {
      assert s' == s + {Px2(v)};
      if a < v && Px2(v - 1) == Px2(v) {
        assert !HasMid(m, r, v - 1);
        assert Px2(v) in s;
        assert s' == s;
      } else {
        forall w: nat | a <= w < v ensures Px2(w) != Px2(v) { PrefixMono(w, v - 1, v); }
        assert Px2(v) !in s;
      }
    }
  }

  lemma PrefixLow(m: Mem, r: nat, v: nat, w: nat)
    requires IsFrame(m, r) && v < MAXVPN && w < MAXVPN
    ensures SamePrefix(v, w) <==> Prefix(v) == Prefix(w)
    ensures SamePrefix(v, w) ==> HasLow(m, r, v) == HasLow(m, r, w)
  {
    hide Px2, Px1, Frame, IsValid;
  }

  lemma LowStep(m: Mem, r: nat, a: nat, v: nat)
    requires IsFrame(m, r) && a <= v < MAXVPN
    ensures |MissingLows(m, r, a, v + 1)| == |MissingLows(m, r, a, v)|
      + if HasLow(m, r, v) || (a < v && SamePrefix(v - 1, v)) then 0 else 1
  {
    var s, s' := MissingLows(m, r, a, v), MissingLows(m, r, a, v + 1);
    var p := Prefix(v);
    hide Prefix, Px2, Px1, HasLow;
    if HasLow(m, r, v) {
      assert s' == s;
    } else {
      assert s' == s + {p};
      if a < v && SamePrefix(v - 1, v) {
        PrefixLow(m, r, v - 1, v);
        assert p in s;
        assert s' == s;
      } else {
        forall w: nat | a <= w < v ensures Prefix(w) != p {
          PrefixMono(w, v - 1, v);
          PrefixLow(m, r, w, v);
        }
        assert p !in s;
      }
    }
  }

  /** Tables beyond page b when those for pages a..b have been added. */
  ghost predicate Upto(m: Mem, m': Mem, r: nat, a: nat, b: nat)
    requires IsFrame(m, r) && IsFrame(m', r)
  {
    forall w: nat {:trigger HasMid(m', r, w)} {:trigger HasLow(m', r, w)} :: b <= w < MAXVPN ==>
      && HasMid(m', r, w) == (HasMid(m, r, w) || (a < b && Px2(w) == Px2(b - 1)))
      && HasLow(m', r, w) == (HasLow(m, r, w) || (a < b && SamePrefix(w, b - 1)))
  }

  lemma MissingUpto(m: Mem, m': Mem, r: nat, a: nat, v: nat)
    requires IsFrame(m, r) && IsFrame(m', r) && a <= v < MAXVPN && Upto(m, m', r, a, v)
    ensures Missing(m', r, v) == NewTables(m, r, a, v)
  {
    assert HasLow(m', r, v) ==> HasMid(m', r, v);
    assert HasMid(m', r, v) == (HasMid(m, r, v) || (a < v && Px2(v) == Px2(v - 1)));
  }

  lemma UptoOne(m: Mem, m': Mem, r: nat, v: nat)
    requires IsRoot(m, r) && IsRoot(m', r) && Tables(m, m', r, v, true, true)
    ensures Upto(m, m', r, v, v + 1)
  {
    hide Px2, Px1, HasMid, HasLow;
  }

  /** One page needs the tables that are missing on its way. */
  lemma CostOne(m: Mem, r: nat, v: nat)
    requires IsFrame(m, r) && v < MAXVPN
    ensures TableCost(m, r, v, v + 1) == Missing(m, r, v)
  {
    CostStep(m, r, v, v);
    assert MissingMids(m, r, v, v) == {} && MissingLows(m, r, v, v) == {};
  }

  lemma UptoStep(m: Mem, m1: Mem, m2: Mem, r: nat, a: nat, v: nat)
    requires IsRoot(m, r) && IsRoot(m1, r) && IsRoot(m2, r) && a <= v < MAXVPN
    requires Upto(m, m1, r, a, v) && Upto(m1, m2, r, v, v + 1)
    ensures Upto(m, m2, r, a, v + 1)
  {
    hide Px2, Px1, HasMid, HasLow;
    forall w: nat | v + 1 <= w < MAXVPN
      ensures HasMid(m2, r, w) == (HasMid(m, r, w) || Px2(w) == Px2(v))
      ensures HasLow(m2, r, w) == (HasLow(m, r, w) || SamePrefix(w, v))
    {
      assert HasMid(m1, r, w) == (HasMid(m, r, w) || (a < v && Px2(w) == Px2(v - 1)));
      if a < v { PrefixMono(v - 1, v, w); }
    }
  }

  // ---------- a run of pages on consecutive frames ----------

  /** None, or all, of the pages a..b of tree r are mapped. */
  ghost predicate Vacant(m: Mem, r: nat, a: nat, b: nat) {
    && IsFrame(m, r) && b <= MAXVPN
    && forall v: nat {:trigger Translate(m, r, v)} :: a <= v < b ==> Translate(m, r, v) == None
  }

  ghost predicate Solid(m: Mem, r: nat, a: nat, b: nat) {
    && IsFrame(m, r) && b <= MAXVPN
    && forall v: nat {:trigger Translate(m, r, v)} :: a <= v < b ==> Translate(m, r, v).Some?
  }

  ghost predicate RunMap(m: Mem, m': Mem, r: nat, a: nat, b: nat, pf: nat, fl: nat) {
    && (forall q: nat :: IsRoot(m, q) ==> IsRoot(m', q))
    && (forall q: nat, w: nat {:trigger Translate(m', q, w)} :: IsRoot(m, q) && w < MAXVPN ==>
          Translate(m', q, w) == if q == r && a <= w < b then Some(Pte(pf + (w - a), fl)) else Translate(m, q, w))
  }

  ghost predicate RunUse(m: Mem, m': Mem, r: nat, a: nat, b: nat, pf: nat)
    requires a <= b
  {
    && Shape(m) && Shape(m') && |m'.pages| == |m.pages|
    && (forall g: nat {:trigger m'.use[g]} :: IsFrame(m, g) && m.use[g] != Free ==>
          m'.use[g] == if pf <= g < pf + (b - a) && m.use[g] == Held then Leaf(r, a + (g - pf)) else m.use[g])
    && (forall g: nat {:trigger m'.pages[g]} :: IsFrame(m, g) && IsData(m.use[g]) ==> m'.pages[g] == m.pages[g])
  }

  /** Pages a..b of tree r are mapped to the frames from pf on with flags fl, the frames
      that were in the caller's hands belong to the tree, as many table frames were taken
      as the range lacked, and nothing else has changed. */
  ghost predicate Mapped(m: Mem, m': Mem, r: nat, a: nat, b: nat, pf: nat, fl: nat) {
    && a <= b <= MAXVPN && IsRoot(m, r) && Inv(m')
    && RunMap(m, m', r, a, b, pf, fl) && RunUse(m, m', r, a, b, pf)
    && Upto(m, m', r, a, b) && |m'.free| + TableCost(m, r, a, b) == |m.free|
  }

  lemma MappedStart(m: Mem, r: nat, a: nat, pf: nat, fl: nat)
    requires Inv(m) && IsRoot(m, r) && a <= MAXVPN
    ensures Mapped(m, m, r, a, a, pf, fl)
  {
    hide Px2, Px1, HasMid, HasLow, Translate;
    assert MissingMids(m, r, a, a) == {} && MissingLows(m, r, a, a) == {};
  }

  lemma MappedStep(m: Mem, m1: Mem, r: nat, a: nat, v: nat, pf: nat, fl: nat)
    requires Mapped(m, m1, r, a, v, pf, fl) && v < MAXVPN && fl < 1024 && fl % 2 == 1 && fl / 2 % 8 != 0
    requires Translate(m, r, v) == None && |m1.free| >= Missing(m1, r, v) && Mappable(m, pf + (v - a))
    ensures HasLow(WalkMem(m1, r, v), r, v)
    ensures Mapped(m, MapOne(m1, r, v, Pte(pf + (v - a), fl)), r, a, v + 1, pf, fl)
  {
    var e := Pte(pf + (v - a), fl);
    PteFields(pf + (v - a), fl);
    assert Translate(m1, r, v) == None;
    MapOneKeeps(m1, r, v, e);
    MissingUpto(m, m1, r, a, v);
    CostStep(m, r, a, v);
    var m2 := MapOne(m1, r, v, e);
    UptoOne(m1, m2, r, v);
    UptoStep(m, m1, m2, r, a, v);
    hide Inv, MapOne, Upto, Tables, TableCost, WalkMem, Missing, NewTables, Translate, HasLow, HasMid, Pte, Frame;
    RunMapStep(m, m1, m2, r, a, v, pf, fl);
    RunUseStep(m, m1, m2, r, a, v, pf);
  }

  lemma RunUseStep(m: Mem, m1: Mem, m2: Mem, r: nat, a: nat, v: nat, pf: nat)
    requires a <= v && RunUse(m, m1, r, a, v, pf) && Adopts(m1, m2, r, v, pf + (v - a))
    ensures RunUse(m, m2, r, a, v + 1, pf)
  {
  }

  lemma RunMapStep(m: Mem, m1: Mem, m2: Mem, r: nat, a: nat, v: nat, pf: nat, fl: nat)
    requires a <= v && RunMap(m, m1, r, a, v, pf, fl) && MapSet(m1, m2, r, v, Some(Pte(pf + (v - a), fl)))
    ensures RunMap(m, m2, r, a, v + 1, pf, fl)
  {
    hide Translate, Pte;
    forall q: nat, w: nat {:trigger Translate(m2, q, w)} | IsRoot(m, q) && w < MAXVPN
      ensures Translate(m2, q, w) ==
              if q == r && a <= w < v + 1 then Some(Pte(pf + (w - a), fl)) else Translate(m, q, w)
    {
      assert Translate(m1, q, w) == if q == r && a <= w < v then Some(Pte(pf + (w - a), fl)) else Translate(m, q, w);
    }
  }

  /** As Mapped, when memory ran out at page b: there are fewer frames than the tables of
      pages a..b and of page b need. */
  ghost predicate Stuck(m: Mem, m': Mem, r: nat, a: nat, b: nat, pf: nat, fl: nat) {
    && a <= b < MAXVPN && IsRoot(m, r) && Inv(m') && m'.free == []
    && RunMap(m, m', r, a, b, pf, fl) && RunUse(m, m', r, a, b, pf)
    && |m.free| < TableCost(m, r, a, b + 1)
  }

  lemma MappedFails(m: Mem, m1: Mem, r: nat, a: nat, v: nat, pf: nat, fl: nat)
    requires Mapped(m, m1, r, a, v, pf, fl) && v < MAXVPN && |m1.free| < Missing(m1, r, v)
    ensures Stuck(m, WalkMem(m1, r, v), r, a, v, pf, fl)
  {
    WalkKeeps(m1, r, v);
    MissingUpto(m, m1, r, a, v);
    CostStep(m, r, a, v);
    var m2 := WalkMem(m1, r, v);
    hide Inv, Upto, Tables, TableCost, WalkMem, Missing, NewTables, Translate, HasLow, HasMid, Pte;
    forall q: nat, w: nat {:trigger Translate(m2, q, w)} | IsRoot(m, q) && w < MAXVPN
      ensures Translate(m2, q, w) == if q == r && a <= w < v then Some(Pte(pf + (w - a), fl)) else Translate(m, q, w)
    {
      assert Translate(m2, q, w) == Translate(m1, q, w);
    }
    RunUseKept(m, m1, m2, r, a, v, pf);
  }

  lemma RunUseKept(m: Mem, m1: Mem, m2: Mem, r: nat, a: nat, v: nat, pf: nat)
    requires a <= v && RunUse(m, m1, r, a, v, pf) && Keeps(m1, m2)
    ensures RunUse(m, m2, r, a, v, pf)
  {
  }

  // ---------- unmapping a run of pages ----------

  ghost predicate InRun(u: Use, r: nat, a: nat, b: nat) { u.Leaf? && u.r == r && a <= u.v < b }

  ghost predicate MapCut(m: Mem, m': Mem, r: nat, a: nat, b: nat) {
    && (forall q: nat :: IsRoot(m, q) ==> IsRoot(m', q))
    && (forall q: nat, w: nat {:trigger Translate(m', q, w)} :: IsRoot(m, q) && w < MAXVPN ==>
          Translate(m', q, w) == if q == r && a <= w < b then None else Translate(m, q, w))
  }

  ghost predicate CutUse(m: Mem, m': Mem, r: nat, a: nat, b: nat, doFree: bool) {
    && Shape(m) && Shape(m') && |m'.pages| == |m.pages|
    && (forall g: nat {:trigger m'.use[g]} :: IsFrame(m, g) ==>
          m'.use[g] == if InRun(m.use[g], r, a, b) then (if doFree then Free else Held) else m.use[g])
    && (forall g: nat {:trigger m'.pages[g]} ::
          IsFrame(m, g) && IsData(m.use[g]) && (InRun(m.use[g], r, a, b) ==> !doFree) ==> m'.pages[g] == m.pages[g])
  }

  /** Pages a..b of tree r are no longer mapped, the frames the tree owned there are on the
      free list or in the caller's hands, and nothing else has changed. */
  ghost predicate Unmapped(m: Mem, m': Mem, r: nat, a: nat, b: nat, doFree: bool) {
    && a <= b <= MAXVPN && IsRoot(m, r) && Inv(m')
    && MapCut(m, m', r, a, b) && CutUse(m, m', r, a, b, doFree) && SameTables(m, m')
    && |m'.free| == |m.free| + if doFree then b - a else 0
  }

  lemma UnmappedStart(m: Mem, r: nat, a: nat, doFree: bool)
    requires Inv(m) && IsRoot(m, r) && a <= MAXVPN
    ensures Unmapped(m, m, r, a, a, doFree)
  {
    hide HasMid, HasLow, Translate;
  }

  /** The frame of use Leaf(r, v) is the one that page v of tree r owns. */
  lemma OwnedLeaf(m: Mem, r: nat, v: nat, g: nat)
    requires Inv(m) && IsRoot(m, r) && v < MAXVPN && IsFrame(m, g)
    ensures m.use[g] == Leaf(r, v) <==> g == Owned(m, r, v)
  {
    assert FrameOk(m, g);
  }

  lemma UnmappedStep(m: Mem, m1: Mem, r: nat, a: nat, v: nat, doFree: bool)
    requires Inv(m) && Unmapped(m, m1, r, a, v, doFree) && v < MAXVPN && Translate(m, r, v).Some?
    requires doFree ==> Owned(m, r, v) < |m.use|
    ensures Translate(m1, r, v).Some? && (doFree ==> Owned(m1, r, v) < |m1.use|)
    ensures Unmapped(m, UnmapOne(m1, r, v, doFree), r, a, v + 1, doFree)
  {
    assert Translate(m1, r, v) == Translate(m, r, v);
    if doFree { OwnedLeaf(m, r, v, Owned(m, r, v)); }
    assert doFree ==> Owned(m1, r, v) < |m1.use|;
    UnmapOneKeeps(m1, r, v, doFree);
    var m2 := UnmapOne(m1, r, v, doFree);
    forall g: nat | IsFrame(m1, g) ensures m1.use[g] == Leaf(r, v) <==> g == Owned(m1, r, v) { OwnedLeaf(m1, r, v, g); }
    hide Inv, UnmapOne, Translate, HasLow, HasMid, Owned;
    forall q: nat, w: nat {:trigger Translate(m2, q, w)} | IsRoot(m, q) && w < MAXVPN
      ensures Translate(m2, q, w) == if q == r && a <= w < v + 1 then None else Translate(m, q, w)
    {
      assert Translate(m1, q, w) == if q == r && a <= w < v then None else Translate(m, q, w);
    }
    forall q: nat, w: nat | IsRoot(m, q) && w < MAXVPN
      ensures HasMid(m2, q, w) == HasMid(m, q, w) && HasLow(m2, q, w) == HasLow(m, q, w)
    {
      assert HasMid(m1, q, w) == HasMid(m, q, w);
    }
  }
}
