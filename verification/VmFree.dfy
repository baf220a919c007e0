/** Giving back the table pages of a tree (freewalk). */
module VmFree {
  import opened Options
  import opened VmModel
  import opened VmRange

  predicate IsTable(u: Use) { u.Root? || u.Mid? || u.Low? }

  function Level(u: Use): nat { if u.Root? then 2 else if u.Mid? then 1 else 0 }

  /** The root of the tree that table t, of use p, is in. */
  function TreeOf(p: Use, t: nat): nat { if p.Mid? || p.Low? then p.r else t }

  /** Use u is a table below the table t of use p, through entry Slot(u, p). */
  predicate Below(u: Use, p: Use, t: nat) {
    match p
    case Root => (u.Mid? || u.Low?) && u.r == t
    case Mid(r, i2) => u.Low? && u.r == r && u.i2 == i2
    case _ => false
  }

  function Slot(u: Use, p: Use): nat
    requires u.Mid? || u.Low?
  {
    if p.Root? || u.Mid? then u.i2 else u.i1
  }

  /** Page v is translated through table t, and through which of its entries. */
  predicate Through(v: nat, p: Use, t: nat) {
    match p
    case Root => true
    case Mid(r, i2) => Px2(v) == i2
    case Low(r, i2, i1) => Px2(v) == i2 && Px1(v) == i1
    case _ => false
  }

  function Index(v: nat, p: Use): nat {
    if p.Root? then Px2(v) else if p.Mid? then Px1(v) else Px0(v)
  }

  /** No page is mapped through the first i entries of table t. */
  ghost predicate Bare(m: Mem, t: nat, i: nat)
    requires IsFrame(m, t) && IsFrame(m, TreeOf(m.use[t], t))
  {
    forall v: nat {:trigger Translate(m, TreeOf(m.use[t], t), v)} ::
      v < MAXVPN && Through(v, m.use[t], t) && Index(v, m.use[t]) < i ==> Translate(m, TreeOf(m.use[t], t), v) == None
  }

  /** The tables below the first i entries of t are free, those entries are empty, and
      nothing else has changed. */
  ghost predicate Emptied(m: Mem, m': Mem, t: nat, i: nat) {
    && Shape(m) && Inv(m') && |m'.pages| == |m.pages| && IsFrame(m, t) && SameMap(m, m')
    && (forall g: nat {:trigger m'.use[g]} :: IsFrame(m, g) ==>
          m'.use[g] == if Below(m.use[g], m.use[t], t) && Slot(m.use[g], m.use[t]) < i then Free else m.use[g])
    && (forall g: nat {:trigger m'.pages[g]} :: IsFrame(m, g) && g != t && !Below(m.use[g], m.use[t], t) ==>
          m'.pages[g] == m.pages[g])
    && (forall j: nat :: j < ENTRIES ==> if j < i then !IsValid(m'.pages[t][j]) else m'.pages[t][j] == m.pages[t][j])
  }

  /** The use that entry i of a table of use p gives to the table it points to. */
  function ChildUse(p: Use, t: nat, i: nat): Use
    requires p.Root? || p.Mid?
  {
    if p.Root? then Mid(t, i) else Low(p.r, p.i2, i)
  }

  /** Table c is the target of entry i of table t. */
  ghost predicate Linked(m: Mem, t: nat, i: nat, c: nat) {
    && IsFrame(m, t) && IsFrame(m, c) && i < ENTRIES && (m.use[t].Root? || m.use[t].Mid?)
    && m.use[c] == ChildUse(m.use[t], t, i) && Child(m, t, i) == Some(c)
  }

  ghost predicate NoEntries(m: Mem, t: nat)
    requires IsFrame(m, t)
  {
    forall j: nat :: j < ENTRIES ==> !IsValid(m.pages[t][j])
  }

  /** An empty table can be unlinked. */
  function Unlink(m: Mem, t: nat, i: nat, c: nat): Mem
    requires IsFrame(m, t) && i < ENTRIES && IsFrame(m, c)
  {
    SetEntry(SetUse(m, c, Held), t, i, 0)
  }

  lemma UnlinkPath(m: Mem, t: nat, i: nat, c: nat, q: nat, v: nat)
    requires Inv(m) && Linked(m, t, i, c) && NoEntries(m, c) && IsRoot(m, q) && v < MAXVPN
    ensures Translate(Unlink(m, t, i, c), q, v) == Translate(m, q, v)
  {
    PathUse(m, q, v);
    ZeroEntry();
    assert FrameOk(m, c) && FrameOk(m, t);
    hide Inv, Frame, IsValid, IsLeaf, Px0, Px1, Px2, Vpn;
  }

  lemma UnlinkFrame(m: Mem, t: nat, i: nat, c: nat, g: nat)
    requires Inv(m) && Linked(m, t, i, c) && NoEntries(m, c) && IsFrame(m, g) && SameMap(m, Unlink(m, t, i, c))
    ensures FrameOk(Unlink(m, t, i, c), g)
  {
    var m' := Unlink(m, t, i, c);
    ZeroEntry();
    assert FrameOk(m, g) && FrameOk(m, c) && FrameOk(m, t);
    hide Inv, Frame, IsValid, IsLeaf, Vpn, Translate;
    if m.use[g].Low? && g != c {
      var q: nat :| IsFrame(m, q) && m.use[q] == Mid(m.use[g].r, m.use[g].i2) && Child(m, q, m.use[g].i1) == Some(g);
      assert q != c;
      assert IsFrame(m', q) && m'.use[q] == m.use[q] && Child(m', q, m.use[g].i1) == Some(g);
    }
  }

  lemma UnlinkKeeps(m: Mem, t: nat, i: nat, c: nat)
    requires Inv(m) && Linked(m, t, i, c) && NoEntries(m, c)
    ensures Inv(Unlink(m, t, i, c)) && SameMap(m, Unlink(m, t, i, c))
  {
    var m' := Unlink(m, t, i, c);
    forall q: nat, v: nat {:trigger Translate(m', q, v)} | IsRoot(m, q) && v < MAXVPN
      ensures Translate(m', q, v) == Translate(m, q, v)
    {
      UnlinkPath(m, t, i, c, q, v);
    }
    assert SameMap(m, m');
    forall g: nat | IsFrame(m', g) ensures FrameOk(m', g) { UnlinkFrame(m, t, i, c, g); }
  }

  // ---------- one entry of freewalk's loop ----------

  lemma EmptiedStart(m: Mem, t: nat)
    requires Inv(m) && IsFrame(m, t) && IsTable(m.use[t])
    ensures Emptied(m, m, t, 0) && IsRoot(m, TreeOf(m.use[t], t)) && Bare(m, t, 0)
  {
    assert FrameOk(m, t);
    hide Translate, Below, Slot, IsValid;
  }

  /** What hangs below entry i of t is the table it points to and the tables below that. */
  lemma SlotOwner(m: Mem, t: nat, i: nat, g: nat)
    requires Inv(m) && IsFrame(m, t) && IsTable(m.use[t]) && i < ENTRIES && IsFrame(m, g)
    requires Below(m.use[g], m.use[t], t) && Slot(m.use[g], m.use[t]) == i
    ensures Child(m, t, i).Some?
    ensures var c := Child(m, t, i).value; IsFrame(m, c) && (g == c || Below(m.use[g], m.use[c], c))
  {
    assert FrameOk(m, g) && FrameOk(m, t);
    if m.use[g].Low? {
      var q: nat :| IsFrame(m, q) && m.use[q] == Mid(m.use[g].r, m.use[g].i2) && Child(m, q, m.use[g].i1) == Some(g);
      assert FrameOk(m, q);
    }
    assert Child(m, t, i).Some?;
    assert PointsTo(m, m.pages[t][i], ChildUse(m.use[t], t, i));
  }

  lemma SkipEntry(m: Mem, m1: Mem, t: nat, i: nat)
    requires Inv(m) && Emptied(m, m1, t, i) && IsTable(m.use[t]) && i < ENTRIES && !IsValid(m.pages[t][i])
    ensures Emptied(m, m1, t, i + 1)
  {
    forall g: nat | IsFrame(m, g) && Below(m.use[g], m.use[t], t) ensures Slot(m.use[g], m.use[t]) != i {
      if Slot(m.use[g], m.use[t]) == i { SlotOwner(m, t, i, g); }
    }
    assert m1.pages[t][i] == m.pages[t][i];
    hide Inv, Below, Slot, SameMap, IsValid;
  }

  /** After child c of entry i has been emptied and freed, and the entry cleared. */
  function DropChild(m: Mem, t: nat, i: nat, c: nat): Mem
    requires IsFrame(m, t) && i < ENTRIES && IsFrame(m, c)
  {
    SetEntry(Give(m, c), t, i, 0)
  }

  lemma DropKeeps(m: Mem, t: nat, i: nat, c: nat)
    requires Inv(m) && Linked(m, t, i, c) && NoEntries(m, c)
    ensures t != c && Inv(DropChild(m, t, i, c)) && SameMap(m, DropChild(m, t, i, c))
  {
    var m1, m2 := Unlink(m, t, i, c), DropChild(m, t, i, c);
    UnlinkKeeps(m, t, i, c);
    GiveKeeps(m1, c);
    assert m2 == Give(m1, c);
    hide Inv, Translate;
    forall q: nat, v: nat {:trigger Translate(m2, q, v)} | IsRoot(m, q) && v < MAXVPN
      ensures Translate(m2, q, v) == Translate(m, q, v)
    {
      assert Translate(m1, q, v) == Translate(m, q, v);
    }
  }

  lemma ChildLinked(m: Mem, m1: Mem, t: nat, i: nat)
    requires Inv(m) && Emptied(m, m1, t, i) && IsTable(m.use[t]) && i < ENTRIES
    requires IsValid(m1.pages[t][i]) && !IsLeaf(m1.pages[t][i])
    ensures Linked(m1, t, i, Frame(m1.pages[t][i])) && Linked(m, t, i, Frame(m1.pages[t][i]))
    ensures IsTable(m1.use[Frame(m1.pages[t][i])])
    ensures Level(m1.use[Frame(m1.pages[t][i])]) + 1 == Level(m.use[t])
    ensures m1.use[t] == m.use[t] && m.use[Frame(m1.pages[t][i])] == m1.use[Frame(m1.pages[t][i])]
  {
    assert FrameOk(m1, t) && FrameOk(m, t);
    assert m1.use[t] == m.use[t];
    assert m1.pages[t][i] == m.pages[t][i];
    hide Inv, IsLeaf, IsValid, Frame, SameMap;
    assert m.use[t].Low? ==> LeafEntry(m, m.pages[t][i], m.use[t].r, Vpn(m.use[t].i2, m.use[t].i1, i));
    assert !m.use[t].Low? ==> PointsTo(m1, m1.pages[t][i], ChildUse(m.use[t], t, i));
    assert !m.use[t].Low? ==> PointsTo(m, m.pages[t][i], ChildUse(m.use[t], t, i));
  }

  lemma DropEntry(m: Mem, m1: Mem, mc: Mem, t: nat, i: nat, c: nat)
    requires Inv(m) && Emptied(m, m1, t, i) && IsTable(m.use[t]) && i < ENTRIES
    requires Linked(m1, t, i, c) && m1.use[t] == m.use[t] && Emptied(m1, mc, c, ENTRIES)
    ensures Linked(mc, t, i, c) && Emptied(m, DropChild(mc, t, i, c), t, i + 1)
  {
    assert mc.use[t] == m1.use[t] && mc.pages[t] == m1.pages[t];
    assert NoEntries(mc, c);
    DropKeeps(mc, t, i, c);
    var m2 := DropChild(mc, t, i, c);
    DropUse(m, m1, mc, t, i, c);
    ZeroEntry();
    hide Inv, Below, Slot, IsValid, Frame, Translate, Linked;
    forall q: nat, v: nat {:trigger Translate(m2, q, v)} | IsRoot(m, q) && v < MAXVPN
      ensures Translate(m2, q, v) == Translate(m, q, v)
    {
      assert Translate(mc, q, v) == Translate(m1, q, v) == Translate(m, q, v);
    }
  }

  lemma DropUse(m: Mem, m1: Mem, mc: Mem, t: nat, i: nat, c: nat)
    requires Inv(m) && Emptied(m, m1, t, i) && IsTable(m.use[t]) && i < ENTRIES
    requires Linked(m1, t, i, c) && m1.use[t] == m.use[t] && Emptied(m1, mc, c, ENTRIES)
    ensures var m2 := DropChild(mc, t, i, c);
      && Below(m.use[c], m.use[t], t)
      && (forall g: nat {:trigger m2.use[g]} :: IsFrame(m, g) ==>
            m2.use[g] == if Below(m.use[g], m.use[t], t) && Slot(m.use[g], m.use[t]) < i + 1 then Free else m.use[g])
      && (forall g: nat {:trigger m2.pages[g]} :: IsFrame(m, g) && g != t && !Below(m.use[g], m.use[t], t) ==>
            m2.pages[g] == m.pages[g])
  {
    var m2 := DropChild(mc, t, i, c);
    assert m1.use[c] == m.use[c];
    assert Child(m, t, i) == Some(c);
    forall g: nat | IsFrame(m, g)
      ensures m2.use[g] == if Below(m.use[g], m.use[t], t) && Slot(m.use[g], m.use[t]) < i + 1 then Free else m.use[g]
    {
      DropUseAt(m, m1, mc, t, i, c, g);
    }
    hide Inv, Slot, SameMap, IsValid;
  }

  lemma DropUseAt(m: Mem, m1: Mem, mc: Mem, t: nat, i: nat, c: nat, g: nat)
    requires Inv(m) && Emptied(m, m1, t, i) && IsTable(m.use[t]) && i < ENTRIES && IsFrame(m, g)
    requires Linked(m1, t, i, c) && m1.use[t] == m.use[t] && Emptied(m1, mc, c, ENTRIES)
    requires m1.use[c] == m.use[c] && Child(m, t, i) == Some(c)
    ensures DropChild(mc, t, i, c).use[g]
         == if Below(m.use[g], m.use[t], t) && Slot(m.use[g], m.use[t]) < i + 1 then Free else m.use[g]
  {
    if Below(m.use[g], m.use[t], t) && Slot(m.use[g], m.use[t]) == i { SlotOwner(m, t, i, g); }
    assert FrameOk(m, g);
    hide Inv, SameMap, IsValid, Frame;
    var gone := Below(m1.use[g], m1.use[c], c) && Slot(m1.use[g], m1.use[c]) < ENTRIES;
    assert mc.use[g] == if gone then Free else m1.use[g];
  }

  // ---------- when freewalk meets a leaf ----------

  /** A page translated through table t goes through that table's own entry. */
  lemma ThroughEntry(m: Mem, t: nat, v: nat)
    requires Inv(m) && IsFrame(m, t) && IsTable(m.use[t]) && v < MAXVPN && Through(v, m.use[t], t)
    ensures IsRoot(m, TreeOf(m.use[t], t)) && Index(v, m.use[t]) < ENTRIES
    ensures m.use[t].Root? ==> TreeOf(m.use[t], t) == t
    ensures m.use[t].Mid? ==> Child(m, TreeOf(m.use[t], t), Px2(v)) == Some(t)
    ensures m.use[t].Low? ==> LowTable(m, TreeOf(m.use[t], t), v) == Some(t)
  {
    VpnFields(v);
    assert FrameOk(m, t);
    hide Px0, Px1, Px2, Vpn, Frame, IsValid, IsLeaf;
    if m.use[t].Low? {
      var q: nat :| IsFrame(m, q) && m.use[q] == Mid(m.use[t].r, m.use[t].i2) && Child(m, q, m.use[t].i1) == Some(t);
      assert FrameOk(m, q);
    }
  }

  lemma BareInvalid(m: Mem, t: nat, i: nat)
    requires Inv(m) && IsFrame(m, t) && IsTable(m.use[t]) && i < ENTRIES && !IsValid(m.pages[t][i])
    requires IsFrame(m, TreeOf(m.use[t], t)) && Bare(m, t, i)
    ensures Bare(m, t, i + 1)
  {
    var p, r := m.use[t], TreeOf(m.use[t], t);
    forall v: nat | v < MAXVPN && Through(v, p, t) && Index(v, p) < i + 1 ensures Translate(m, r, v) == None {
      ThroughEntry(m, t, v);
      hide Inv, Px0, Px1, Px2, IsValid, Frame;
      if Index(v, p) < i { assert Translate(m, r, v) == None; }
    }
  }

  lemma BareChild(m: Mem, t: nat, i: nat, c: nat)
    requires Inv(m) && Linked(m, t, i, c) && IsFrame(m, TreeOf(m.use[t], t)) && IsFrame(m, TreeOf(m.use[c], c))
    requires Bare(m, t, i) && Bare(m, c, ENTRIES)
    ensures Bare(m, t, i + 1)
  {
    var p, r := m.use[t], TreeOf(m.use[t], t);
    forall v: nat | v < MAXVPN && Through(v, p, t) && Index(v, p) < i + 1 ensures Translate(m, r, v) == None {
      VpnFields(v);
      hide Inv, Px0, Px1, Px2, IsValid, Frame, Translate;
      if Index(v, p) < i {
        assert Translate(m, r, v) == None;
      } else {
        assert Through(v, m.use[c], c) && Index(v, m.use[c]) < ENTRIES;
        assert Translate(m, TreeOf(m.use[c], c), v) == None;
      }
    }
  }

  /** A leaf entry means that some page is mapped. */
  lemma NotBare(m: Mem, t: nat, i: nat)
    requires Inv(m) && IsFrame(m, t) && IsTable(m.use[t]) && i < ENTRIES && IsValid(m.pages[t][i])
    requires IsLeaf(m.pages[t][i])
    ensures IsFrame(m, TreeOf(m.use[t], t)) && !Bare(m, t, ENTRIES)
  {
    assert FrameOk(m, t);
    assert m.use[t].Low? by {
      hide Inv, IsValid, IsLeaf;
      assert !m.use[t].Low? ==> PointsTo(m, m.pages[t][i], ChildUse(m.use[t], t, i));
    }
    var v := Vpn(m.use[t].i2, m.use[t].i1, i);
    VpnBound(m.use[t].i2, m.use[t].i1, i);
    FieldsVpn(m.use[t].i2, m.use[t].i1, i);
    ThroughEntry(m, t, v);
    hide Inv, Px0, Px1, Px2, Vpn, IsLeaf, IsValid, FrameOk;
    assert Translate(m, TreeOf(m.use[t], t), v).Some?;
    assert Index(v, m.use[t]) < ENTRIES && Through(v, m.use[t], t);
  }

  lemma VpnBound(i2: nat, i1: nat, i0: nat)
    requires i2 < TOP && i1 < ENTRIES && i0 < ENTRIES
    ensures Vpn(i2, i1, i0) < MAXVPN
  {
    assert i2 * ENTRIES + i1 < TOP * ENTRIES;
  }

  /** A table below t that is not bare keeps t from being bare. */
  lemma NotBareUp(m: Mem, t: nat, i: nat, c: nat)
    requires Inv(m) && Linked(m, t, i, c) && IsFrame(m, TreeOf(m.use[t], t)) && IsFrame(m, TreeOf(m.use[c], c))
    requires !Bare(m, c, ENTRIES)
    ensures !Bare(m, t, ENTRIES)
  {
    var v: nat :| v < MAXVPN && Through(v, m.use[c], c) && Index(v, m.use[c]) < ENTRIES
      && Translate(m, TreeOf(m.use[c], c), v) != None;
    VpnFields(v);
    hide Inv, Px0, Px1, Px2, IsValid, Frame, Translate;
    assert Through(v, m.use[t], t) && Index(v, m.use[t]) < ENTRIES;
    assert Translate(m, TreeOf(m.use[t], t), v) != None;
  }

  lemma BareSame(m: Mem, m1: Mem, t: nat, i: nat)
    requires SameMap(m, m1) && IsFrame(m, t) && IsFrame(m1, t) && m1.use[t] == m.use[t]
    requires IsRoot(m, TreeOf(m.use[t], t))
    ensures IsRoot(m1, TreeOf(m.use[t], t)) && (Bare(m, t, i) <==> Bare(m1, t, i))
  {
    hide Translate, Through, Index;
    var r := TreeOf(m.use[t], t);
    assert forall v: nat {:trigger Translate(m, r, v)} :: v < MAXVPN ==> Translate(m1, r, v) == Translate(m, r, v);
    assert forall v: nat {:trigger Translate(m1, r, v)} :: v < MAXVPN ==> Translate(m1, r, v) == Translate(m, r, v);
  }

  // ---------- the root ----------

  predicate OfTree(u: Use, r: nat) { (u.Mid? || u.Low? || u.Leaf?) && u.r == r }

  /** Tree r is gone: its frames are free, and nothing else has changed. */
  ghost predicate Gone(m: Mem, m': Mem, r: nat) {
    && Shape(m) && Shape(m') && |m'.pages| == |m.pages| && Inv(m')
    && (forall g: nat {:trigger m'.use[g]} :: IsFrame(m, g) ==>
          m'.use[g] == if g == r || OfTree(m.use[g], r) then Free else m.use[g])
    && (forall g: nat {:trigger m'.pages[g]} :: IsFrame(m, g) && g != r && !OfTree(m.use[g], r) && IsData(m.use[g]) ==>
          m'.pages[g] == m.pages[g])
    && (forall q: nat, w: nat {:trigger Translate(m', q, w)} :: IsRoot(m, q) && q != r && w < MAXVPN ==>
          Translate(m', q, w) == Translate(m, q, w))
  }

  lemma RootFrame(m: Mem, r: nat, g: nat)
    requires Inv(m) && IsRoot(m, r) && IsFrame(m, g)
    requires forall f: nat :: IsFrame(m, f) ==> !OfTree(m.use[f], r)
    ensures FrameOk(SetUse(m, r, Held), g)
  {
    var m' := SetUse(m, r, Held);
    assert FrameOk(m, g);
    hide Inv, Frame, IsValid, IsLeaf, Vpn, Px0, Px1, Px2;
    if m.use[g].Low? {
      var q: nat :| IsFrame(m, q) && m.use[q] == Mid(m.use[g].r, m.use[g].i2) && Child(m, q, m.use[g].i1) == Some(g);
      assert IsFrame(m', q) && m'.use[q] == m.use[q] && Child(m', q, m.use[g].i1) == Some(g);
    }
  }

  lemma RootGone(m: Mem, m1: Mem, r: nat)
    requires Inv(m) && IsRoot(m, r) && Emptied(m, m1, r, ENTRIES) && Bare(m, r, ENTRIES)
    ensures Gone(m, Give(m1, r), r)
  {
    forall f: nat | IsFrame(m1, f) ensures !OfTree(m1.use[f], r) {
      LeafGone(m, m1, r, f);
    }
    var m2 := SetUse(m1, r, Held);
    forall g: nat | IsFrame(m2, g) ensures FrameOk(m2, g) { RootFrame(m1, r, g); }
    assert Inv(m2);
    GiveKeeps(m2, r);
    var m3 := Give(m2, r);
    assert m3 == Give(m1, r);
    forall g: nat | IsFrame(m, g) ensures m3.use[g] == if g == r || OfTree(m.use[g], r) then Free else m.use[g] {
      LeafGone(m, m1, r, g);
    }
    GoneMap(m, m1, m2, m3, r);
    hide Inv, FrameOk, Translate;
  }

  lemma GoneMap(m: Mem, m1: Mem, m2: Mem, m3: Mem, r: nat)
    requires SameMap(m, m1) && IsFrame(m1, r) && m2 == SetUse(m1, r, Held) && SameMap(m2, m3)
    ensures forall q: nat, w: nat {:trigger Translate(m3, q, w)} ::
      IsRoot(m, q) && IsRoot(m3, q) && q != r && w < MAXVPN ==>
      Translate(m3, q, w) == Translate(m, q, w)
  {
    forall q: nat, w: nat {:trigger Translate(m3, q, w)} | IsRoot(m, q) && IsRoot(m3, q) && q != r && w < MAXVPN
      ensures Translate(m3, q, w) == Translate(m, q, w)
    {
      assert IsRoot(m1, q) && IsRoot(m2, q);
      assert Translate(m2, q, w) == Translate(m1, q, w) by { hide Frame, IsValid, Px0, Px1, Px2; }
    }
  }

  lemma LeafGone(m: Mem, m1: Mem, r: nat, g: nat)
    requires Inv(m) && IsRoot(m, r) && Emptied(m, m1, r, ENTRIES) && Bare(m, r, ENTRIES) && IsFrame(m, g)
    ensures !OfTree(m1.use[g], r)
    ensures m1.use[g] == if OfTree(m.use[g], r) then Free else m.use[g]
  {
    assert FrameOk(m, g);
    forall v: nat {:trigger Translate(m, r, v)} | v < MAXVPN ensures Translate(m, r, v) == None {
      VpnFields(v);
      assert TreeOf(m.use[r], r) == r && Through(v, m.use[r], r) && Index(v, m.use[r]) < ENTRIES;
    }
  }

  /** uvmunmap of all that is mapped, then freewalk. */
  lemma GoneAfter(m: Mem, m1: Mem, m2: Mem, r: nat, b: nat)
    requires Inv(m) && Unmapped(m, m1, r, 0, b, true) && Gone(m1, m2, r)
    ensures Gone(m, m2, r)
  {
    hide Inv, Translate, SameTables;
    forall q: nat, w: nat {:trigger Translate(m2, q, w)} | IsRoot(m, q) && q != r && w < MAXVPN
      ensures Translate(m2, q, w) == Translate(m, q, w)
    {
      assert Translate(m1, q, w) == Translate(m, q, w);
    }
  }

  /** After pages 0..b are unmapped the root is bare exactly when nothing was mapped beyond. */
  lemma BareAfter(m: Mem, m1: Mem, r: nat, b: nat)
    requires IsRoot(m, r) && IsRoot(m1, r) && b <= MAXVPN && MapCut(m, m1, r, 0, b)
    ensures Bare(m1, r, ENTRIES) <==> Vacant(m, r, b, MAXVPN)
  {
    assert TreeOf(m1.use[r], r) == r;
    forall v: nat | v < MAXVPN ensures Px2(v) < ENTRIES { VpnFields(v); }
    hide Translate, Px2;
    assert forall v: nat {:trigger Translate(m, r, v)} :: b <= v < MAXVPN ==> Translate(m1, r, v) == Translate(m, r, v);
  }
}
