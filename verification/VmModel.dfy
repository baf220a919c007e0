/** Sv39 page tables (kernel/vm.c) over the page allocator (kernel/kalloc.c) as values.
    Memory is a sequence of frames of 512 words; a page-table page holds 512 entries,
    an entry is a frame number times 1024 plus ten flag bits. */
module VmModel {
  import opened Options

  const ENTRIES := 512
  // MAXVA / PGSIZE: one bit less than Sv39 allows, so half of a root table
  const TOP := 256
  const MAXVPN := TOP * ENTRIES * ENTRIES

  type Page = p: seq<nat> | |p| == ENTRIES witness seq(ENTRIES, _ => 0)

  function ZeroPage(): Page { seq(ENTRIES, _ => 0) }
  function JunkPage(w: nat): Page { seq(ENTRIES, _ => w) }

  // ---------- entries ----------

  function Pte(f: nat, flags: nat): nat { f * 1024 + flags }
  function Frame(e: nat): nat { e / 1024 }
  function Flags(e: nat): nat { e % 1024 }
  predicate IsValid(e: nat) { e % 2 == 1 }          // PTE_V
  predicate IsLeaf(e: nat) { e / 2 % 8 != 0 }       // PTE_R | PTE_W | PTE_X

  lemma PteFrame(f: nat, flags: nat)
    requires flags < 1024
    ensures Frame(Pte(f, flags)) == f && Flags(Pte(f, flags)) == flags
  {
  }

  lemma PteBits(f: nat, flags: nat)
    requires flags < 1024
    ensures IsValid(Pte(f, flags)) == (flags % 2 == 1)
  {
    assert Pte(f, flags) == 2 * (f * 512 + flags / 2) + flags % 2;
  }

  lemma PteLeaf(f: nat, flags: nat)
    requires flags < 1024
    ensures IsLeaf(Pte(f, flags)) == (flags / 2 % 8 != 0)
  {
    var h := f * 512 + flags / 2;
    assert Pte(f, flags) / 2 == h;
    assert h == 8 * (f * 64 + flags / 16) + flags / 2 % 8;
  }

  lemma PteFields(f: nat, flags: nat)
    requires flags < 1024
    ensures Frame(Pte(f, flags)) == f && Flags(Pte(f, flags)) == flags
    ensures IsValid(Pte(f, flags)) == (flags % 2 == 1) && IsLeaf(Pte(f, flags)) == (flags / 2 % 8 != 0)
  {
    PteFrame(f, flags);
    PteBits(f, flags);
    PteLeaf(f, flags);
  }

  /** PX(level, va) of the page number. */
  function Px2(v: nat): nat { v / (ENTRIES * ENTRIES) }
  function Px1(v: nat): nat { v / ENTRIES % ENTRIES }
  function Px0(v: nat): nat { v % ENTRIES }

  function Vpn(i2: nat, i1: nat, i0: nat): nat { (i2 * ENTRIES + i1) * ENTRIES + i0 }

  lemma VpnFields(v: nat)
    ensures Px1(v) < ENTRIES && Px0(v) < ENTRIES && Vpn(Px2(v), Px1(v), Px0(v)) == v
    ensures v < MAXVPN ==> Px2(v) < TOP
  {
    var a, b := v / ENTRIES, v % ENTRIES;
    var c, d := a / ENTRIES, a % ENTRIES;
    assert v == (c * ENTRIES + d) * ENTRIES + b;
    assert v == c * (ENTRIES * ENTRIES) + (d * ENTRIES + b);
    assert v / (ENTRIES * ENTRIES) == c;
  }

  lemma FieldsVpn(i2: nat, i1: nat, i0: nat)
    requires i1 < ENTRIES && i0 < ENTRIES
    ensures Px2(Vpn(i2, i1, i0)) == i2 && Px1(Vpn(i2, i1, i0)) == i1 && Px0(Vpn(i2, i1, i0)) == i0
  {
  }

  // ---------- memory ----------

  /** What a frame is used for: on the free list; allocated and in a caller's hands; a
      table of the tree with root r, at the given place in it; the page that r maps at v
      and owns; or something outside (kernel pages, trapframes). */
  datatype Use =
    | Free
    | Held
    | Root
    | Mid(r: nat, i2: nat)
    | Low(r: nat, i2: nat, i1: nat)
    | Leaf(r: nat, v: nat)
    | Outside

  /** pages is the memory, free kmem.freelist; use records history that the code keeps
      nowhere. */
  datatype Mem = Mem(pages: seq<Page>, free: seq<nat>, use: seq<Use>)

  ghost predicate Shape(m: Mem) {
    |m.use| == |m.pages|
  }

  predicate IsFrame(m: Mem, f: nat) { f < |m.pages| == |m.use| }

  predicate IsRoot(m: Mem, r: nat) { IsFrame(m, r) && m.use[r] == Root }

  /** The table that entry i of table t points to. */
  function Child(m: Mem, t: nat, i: nat): Option<nat>
    requires IsFrame(m, t) && i < ENTRIES
  {
    if IsValid(m.pages[t][i]) then Some(Frame(m.pages[t][i])) else None
  }

  /** The level-0 table for page v, if its tables exist. */
  function LowTable(m: Mem, r: nat, v: nat): Option<nat>
    requires IsFrame(m, r) && v < MAXVPN
  {
    match Child(m, r, Px2(v))
    case None => None
    case Some(t) => if IsFrame(m, t) then Child(m, t, Px1(v)) else None
  }

  /** The translation of page v: the level-0 entry if it is valid. */
  function Translate(m: Mem, r: nat, v: nat): Option<nat>
    requires IsFrame(m, r) && v < MAXVPN
  {
    match LowTable(m, r, v)
    case None => None
    case Some(t) =>
      if IsFrame(m, t) && IsValid(m.pages[t][Px0(v)]) then Some(m.pages[t][Px0(v)]) else None
  }

  predicate HasMid(m: Mem, r: nat, v: nat)
    requires IsFrame(m, r) && v < MAXVPN
  {
    Child(m, r, Px2(v)).Some?
  }

  predicate HasLow(m: Mem, r: nat, v: nat)
    requires IsFrame(m, r) && v < MAXVPN
  {
    LowTable(m, r, v).Some?
  }

  /** How many tables are missing on the way to page v. */
  function Missing(m: Mem, r: nat, v: nat): nat
    requires IsFrame(m, r) && v < MAXVPN
  {
    if HasLow(m, r, v) then 0 else if HasMid(m, r, v) then 1 else 2
  }

  // ---------- the invariant ----------

  /** Entry e of a table, when the frame it points to must have use u. */
  ghost predicate PointsTo(m: Mem, e: nat, u: Use) {
    IsValid(e) ==> !IsLeaf(e) && IsFrame(m, Frame(e)) && m.use[Frame(e)] == u
  }

  /** A level-0 entry of page v of tree r. */
  ghost predicate LeafEntry(m: Mem, e: nat, r: nat, v: nat) {
    IsValid(e) ==>
      && IsLeaf(e)
      && (IsFrame(m, Frame(e)) ==> m.use[Frame(e)] == Leaf(r, v) || m.use[Frame(e)] == Outside)
  }

  /** Everything about one frame: its table entries, and that it is linked where its
      use says. */
  ghost predicate FrameOk(m: Mem, f: nat)
    requires IsFrame(m, f)
  {
    match m.use[f]
    case Free => true
    case Held => true
    case Outside => true
    case Root => forall i: nat :: i < ENTRIES ==> PointsTo(m, m.pages[f][i], Mid(f, i))
    case Mid(r, i2) =>
      && IsRoot(m, r) && i2 < TOP && Child(m, r, i2) == Some(f)
      && forall i: nat :: i < ENTRIES ==> PointsTo(m, m.pages[f][i], Low(r, i2, i))
    case Low(r, i2, i1) =>
      && IsRoot(m, r) && i2 < TOP && i1 < ENTRIES
      && (exists t: nat :: IsFrame(m, t) && m.use[t] == Mid(r, i2) && Child(m, t, i1) == Some(f))
      && forall i: nat :: i < ENTRIES ==> LeafEntry(m, m.pages[f][i], r, Vpn(i2, i1, i))
    case Leaf(r, v) =>
      IsRoot(m, r) && v < MAXVPN && Translate(m, r, v).Some? && Frame(Translate(m, r, v).value) == f
  }

  ghost predicate NoDup(s: seq<nat>) {
    forall i, j :: 0 <= i < j < |s| ==> s[i] != s[j]
  }

  ghost predicate Inv(m: Mem) {
    && Shape(m) && NoDup(m.free)
    && (forall f: nat {:trigger f in m.free} {:trigger m.use[f]} :: f in m.free <==> IsFrame(m, f) && m.use[f] == Free)
    && (forall f: nat {:trigger FrameOk(m, f)} :: IsFrame(m, f) ==> FrameOk(m, f))
  }

  // ---------- paths ----------

  /** The tables on the way to page v are the ones their uses say. */
  lemma PathUse(m: Mem, r: nat, v: nat)
    requires Inv(m) && IsRoot(m, r) && v < MAXVPN
    ensures Px2(v) < ENTRIES && Px1(v) < ENTRIES && Px0(v) < ENTRIES
    ensures Child(m, r, Px2(v)).Some? ==>
      IsFrame(m, Child(m, r, Px2(v)).value) && m.use[Child(m, r, Px2(v)).value] == Mid(r, Px2(v))
    ensures LowTable(m, r, v).Some? ==>
      IsFrame(m, LowTable(m, r, v).value) && m.use[LowTable(m, r, v).value] == Low(r, Px2(v), Px1(v))
    ensures LowTable(m, r, v).Some? ==> LeafEntry(m, m.pages[LowTable(m, r, v).value][Px0(v)], r, v)
  {
    VpnFields(v);
    hide Frame, IsValid, IsLeaf, Px2, Px1, Px0;
    assert FrameOk(m, r);
    assert PointsTo(m, m.pages[r][Px2(v)], Mid(r, Px2(v)));
    if Child(m, r, Px2(v)).Some? {
      var t := Child(m, r, Px2(v)).value;
      assert FrameOk(m, t);
      assert PointsTo(m, m.pages[t][Px1(v)], Low(r, Px2(v), Px1(v)));
      if LowTable(m, r, v).Some? { assert FrameOk(m, LowTable(m, r, v).value); }
    }
  }

  // ---------- elementary steps ----------

  /** kalloc: the first free frame, filled with junk. */
  function Take(m: Mem): Mem
    requires m.free != [] && IsFrame(m, m.free[0])
  {
    var f := m.free[0];
    m.(pages := m.pages[f := JunkPage(0x0505_0505_0505_0505)], free := m.free[1..], use := m.use[f := Held])
  }

  /** kfree. */
  function Give(m: Mem, f: nat): Mem
    requires IsFrame(m, f)
  {
    m.(pages := m.pages[f := JunkPage(0x0101_0101_0101_0101)], free := [f] + m.free, use := m.use[f := Free])
  }

  function SetEntry(m: Mem, t: nat, i: nat, e: nat): Mem
    requires IsFrame(m, t) && i < ENTRIES
  {
    m.(pages := m.pages[t := m.pages[t][i := e]])
  }

  function SetUse(m: Mem, f: nat, u: Use): Mem
    requires f < |m.use|
  {
    m.(use := m.use[f := u])
  }

  /** A held frame becomes a zeroed table and entry i of table t points to it. */
  function AddTable(m: Mem, t: nat, i: nat, f: nat, u: Use): Mem
    requires IsFrame(m, t) && IsFrame(m, f) && i < ENTRIES && t != f
  {
    SetUse(SetEntry(m.(pages := m.pages[f := ZeroPage()]), t, i, Pte(f, 1)), f, u)
  }

  /** Translations of all trees are the same. */
  ghost predicate SameMap(m: Mem, m': Mem) {
    && (forall r: nat :: IsRoot(m, r) ==> IsRoot(m', r))
    && (forall r: nat, v: nat {:trigger Translate(m', r, v)} :: IsRoot(m, r) && v < MAXVPN ==>
          Translate(m', r, v) == Translate(m, r, v))
  }

  /** So are the tables that exist, but for those on the way to page v of tree r when mid
      or low says they are new. */
  ghost predicate Tables(m: Mem, m': Mem, r: nat, v: nat, mid: bool, low: bool) {
    forall q: nat, w: nat {:trigger HasMid(m', q, w)} {:trigger HasLow(m', q, w)} ::
      IsRoot(m, q) && w < MAXVPN && IsFrame(m', q) ==>
      && HasMid(m', q, w) == (HasMid(m, q, w) || (mid && q == r && Px2(w) == Px2(v)))
      && HasLow(m', q, w) == (HasLow(m, q, w) || (low && q == r && Px2(w) == Px2(v) && Px1(w) == Px1(v)))
  }

  ghost predicate SameTables(m: Mem, m': Mem) { Tables(m, m', 0, 0, false, false) }

  /** Allocated frames keep their use, and those that are not tables their contents. */
  ghost predicate Keeps(m: Mem, m': Mem) {
    && Shape(m) && Shape(m') && |m'.pages| == |m.pages|
    && (forall f: nat {:trigger m'.use[f]} :: IsFrame(m, f) && m.use[f] != Free ==> m'.use[f] == m.use[f])
    && (forall f: nat {:trigger m'.pages[f]} ::
          IsFrame(m, f) && (m.use[f].Held? || m.use[f].Leaf? || m.use[f].Outside?) ==>
          m'.pages[f] == m.pages[f])
  }

  lemma HeldPath(m: Mem, m': Mem, f: nat, r: nat, v: nat)
    requires Inv(m) && Shape(m') && |m'.pages| == |m.pages| && IsFrame(m, f) && IsRoot(m, r) && v < MAXVPN
    requires m.use[f] in {Free, Held} && m'.pages == m.pages[f := m'.pages[f]]
    ensures Translate(m', r, v) == Translate(m, r, v)
    ensures HasMid(m', r, v) == HasMid(m, r, v) && HasLow(m', r, v) == HasLow(m, r, v)
  {
    PathUse(m, r, v);
    hide Inv, Frame, IsValid, Px0, Px1, Px2;
  }

  /** Frames that no table points to can change their use and contents freely. */
  lemma HeldKeeps(m: Mem, m': Mem, f: nat)
    requires Inv(m) && Shape(m') && |m'.pages| == |m.pages| && IsFrame(m, f)
    requires m.use[f] in {Free, Held} && m'.use == m.use[f := m'.use[f]] && m'.use[f] in {Free, Held}
    requires m'.pages == m.pages[f := m'.pages[f]]
    ensures forall g: nat :: IsFrame(m, g) ==> FrameOk(m', g)
    ensures SameMap(m, m') && SameTables(m, m')
  {
    forall r: nat, v: nat {:trigger Translate(m', r, v)} | IsRoot(m, r) && v < MAXVPN
      ensures Translate(m', r, v) == Translate(m, r, v)
    {
      HeldPath(m, m', f, r, v);
    }
    forall r: nat, v: nat | IsRoot(m, r) && v < MAXVPN
      ensures HasMid(m', r, v) == HasMid(m, r, v) && HasLow(m', r, v) == HasLow(m, r, v)
    {
      HeldPath(m, m', f, r, v);
    }
    forall g: nat | IsFrame(m, g) ensures FrameOk(m', g) {
      assert FrameOk(m, g);
      HeldFrame(m, m', f, g);
    }
  }

  lemma HeldFrame(m: Mem, m': Mem, f: nat, g: nat)
    requires Inv(m) && Shape(m') && |m'.pages| == |m.pages| && IsFrame(m, f) && IsFrame(m, g)
    requires m.use[f] in {Free, Held} && m'.use == m.use[f := m'.use[f]] && m'.use[f] in {Free, Held}
    requires m'.pages == m.pages[f := m'.pages[f]] && SameMap(m, m')
    ensures FrameOk(m', g)
  {
    assert FrameOk(m, g);
    hide Frame, IsValid, IsLeaf, Vpn, Translate;
    if m.use[g].Low? {
      var t: nat :| IsFrame(m, t) && m.use[t] == Mid(m.use[g].r, m.use[g].i2) && Child(m, t, m.use[g].i1) == Some(g);
      assert IsFrame(m', t) && m'.use[t] == m.use[t] && Child(m', t, m.use[g].i1) == Some(g);
    }
  }

  lemma TakeKeeps(m: Mem)
    requires Inv(m) && m.free != []
    ensures IsFrame(m, m.free[0]) && m.use[m.free[0]] == Free
    ensures Inv(Take(m)) && SameMap(m, Take(m)) && SameTables(m, Take(m)) && Keeps(m, Take(m))
  {
    var f := m.free[0];
    assert f in m.free;
    HeldKeeps(m, Take(m), f);
    var l := m.free[1..];
    forall g: nat ensures g in l <==> IsFrame(m, g) && Take(m).use[g] == Free {
      if g in m.free && g != f {
        var k :| 0 <= k < |m.free| && m.free[k] == g;
        assert l[k - 1] == g;
      }
    }
  }

  lemma GiveKeeps(m: Mem, f: nat)
    requires Inv(m) && IsFrame(m, f) && m.use[f] == Held
    ensures Inv(Give(m, f)) && SameMap(m, Give(m, f)) && SameTables(m, Give(m, f))
  {
    assert f !in m.free;
    HeldKeeps(m, Give(m, f), f);
    assert forall g: nat :: g in Give(m, f).free <==> g == f || g in m.free;
  }

  // ---------- walk ----------

  lemma ZeroEntry()
    ensures !IsValid(0) && forall i :: 0 <= i < ENTRIES ==> ZeroPage()[i] == 0
  {
  }

  ghost predicate CanAddMid(m: Mem, r: nat, i2: nat, f: nat) {
    Inv(m) && IsRoot(m, r) && i2 < TOP && IsFrame(m, f) && m.use[f] == Held && !IsValid(m.pages[r][i2])
  }

  lemma AddMidPath(m: Mem, r: nat, i2: nat, f: nat, q: nat, v: nat)
    requires CanAddMid(m, r, i2, f) && IsRoot(m, q) && v < MAXVPN
    ensures var m' := AddTable(m, r, i2, f, Mid(r, i2));
      && Translate(m', q, v) == Translate(m, q, v) && HasLow(m', q, v) == HasLow(m, q, v)
      && HasMid(m', q, v) == (HasMid(m, q, v) || (q == r && Px2(v) == i2))
  {
    PteFields(f, 1);
    ZeroEntry();
    PathUse(m, q, v);
    hide Inv, Frame, IsValid, IsLeaf, Pte, ZeroPage, Px0, Px1, Px2;
  }

  lemma AddMidMap(m: Mem, r: nat, i2: nat, f: nat)
    requires CanAddMid(m, r, i2, f)
    ensures SameMap(m, AddTable(m, r, i2, f, Mid(r, i2)))
  {
    var m' := AddTable(m, r, i2, f, Mid(r, i2));
    PteFields(f, 1);
    ZeroEntry();
    hide Frame, IsValid, IsLeaf, Pte, ZeroPage;
    forall q: nat, v: nat {:trigger Translate(m', q, v)} | IsRoot(m, q) && v < MAXVPN
      ensures Translate(m', q, v) == Translate(m, q, v)
    {
      AddMidPath(m, r, i2, f, q, v);
    }
  }

  lemma AddMidFrame(m: Mem, r: nat, i2: nat, f: nat, g: nat)
    requires CanAddMid(m, r, i2, f) && IsFrame(m, g)
    ensures FrameOk(AddTable(m, r, i2, f, Mid(r, i2)), g)
  {
    var m' := AddTable(m, r, i2, f, Mid(r, i2));
    AddMidMap(m, r, i2, f);
    PteFields(f, 1);
    ZeroEntry();
    assert FrameOk(m, g) && FrameOk(m, r);
    hide Frame, IsValid, IsLeaf, Pte, ZeroPage, Vpn, Translate;
    if m.use[g].Low? {
      var t: nat :| IsFrame(m, t) && m.use[t] == Mid(m.use[g].r, m.use[g].i2) && Child(m, t, m.use[g].i1) == Some(g);
      assert IsFrame(m', t) && m'.use[t] == m.use[t] && Child(m', t, m.use[g].i1) == Some(g);
    }
  }

  /** A new level-1 table changes no translation. */
  lemma AddMidKeeps(m: Mem, r: nat, i2: nat, f: nat)
    requires CanAddMid(m, r, i2, f)
    ensures var m' := AddTable(m, r, i2, f, Mid(r, i2));
      Inv(m') && SameMap(m, m') && Child(m', r, i2) == Some(f)
  {
    var m' := AddTable(m, r, i2, f, Mid(r, i2));
    AddMidMap(m, r, i2, f);
    PteFields(f, 1);
    forall g: nat | IsFrame(m', g) ensures FrameOk(m', g) { AddMidFrame(m, r, i2, f, g); }
  }

  ghost predicate CanAddLow(m: Mem, r: nat, i2: nat, t: nat, i1: nat, f: nat) {
    && Inv(m) && IsRoot(m, r) && i2 < TOP && i1 < ENTRIES && IsFrame(m, t) && m.use[t] == Mid(r, i2)
    && IsFrame(m, f) && m.use[f] == Held && !IsValid(m.pages[t][i1])
  }

  lemma AddLowPath(m: Mem, r: nat, i2: nat, t: nat, i1: nat, f: nat, q: nat, v: nat)
    requires CanAddLow(m, r, i2, t, i1, f) && IsRoot(m, q) && v < MAXVPN
    ensures var m' := AddTable(m, t, i1, f, Low(r, i2, i1));
      && Translate(m', q, v) == Translate(m, q, v) && HasMid(m', q, v) == HasMid(m, q, v)
      && HasLow(m', q, v) == (HasLow(m, q, v) || (q == r && Px2(v) == i2 && Px1(v) == i1))
  {
    assert FrameOk(m, t);
    PteFields(f, 1);
    ZeroEntry();
    PathUse(m, q, v);
    hide Inv, Frame, IsValid, IsLeaf, Pte, ZeroPage, Px0, Px1, Px2;
  }

  lemma AddLowMap(m: Mem, r: nat, i2: nat, t: nat, i1: nat, f: nat)
    requires CanAddLow(m, r, i2, t, i1, f)
    ensures SameMap(m, AddTable(m, t, i1, f, Low(r, i2, i1)))
  {
    var m' := AddTable(m, t, i1, f, Low(r, i2, i1));
    PteFields(f, 1);
    ZeroEntry();
    hide Frame, IsValid, IsLeaf, Pte, ZeroPage;
    forall q: nat, v: nat {:trigger Translate(m', q, v)} | IsRoot(m, q) && v < MAXVPN
      ensures Translate(m', q, v) == Translate(m, q, v)
    {
      AddLowPath(m, r, i2, t, i1, f, q, v);
    }
  }

  lemma AddTableUse(m: Mem, t: nat, i: nat, f: nat, u: Use)
    requires Shape(m) && IsFrame(m, t) && IsFrame(m, f) && i < ENTRIES && t != f
    ensures var m' := AddTable(m, t, i, f, u);
      && Shape(m') && |m'.pages| == |m.pages|
      && forall g: nat :: IsFrame(m, g) ==> m'.use[g] == if g == f then u else m.use[g]
  {
  }

  lemma AddTableEntry(m: Mem, t: nat, i: nat, f: nat, u: Use, g: nat, j: nat)
    requires Shape(m) && IsFrame(m, t) && IsFrame(m, f) && i < ENTRIES && t != f && IsFrame(m, g) && j < ENTRIES
    ensures AddTable(m, t, i, f, u).pages[g][j] ==
            if g == f then 0 else if g == t && j == i then Pte(f, 1) else m.pages[g][j]
  {
    ZeroEntry();
    hide Pte, ZeroPage;
  }

  /** Entries that pointed to a frame of the right use still do. */
  lemma StillPoints(m: Mem, m': Mem, f: nat, e: nat, u: Use)
    requires PointsTo(m, e, u) && u != Held && IsFrame(m, f) && m.use[f] == Held
    requires Shape(m) && Shape(m') && |m'.pages| == |m.pages| && forall g: nat :: IsFrame(m, g) && g != f ==>
      m'.use[g] == m.use[g]
    ensures PointsTo(m', e, u)
  {
  }

  lemma AddLowNew(m: Mem, r: nat, i2: nat, t: nat, i1: nat, f: nat)
    requires CanAddLow(m, r, i2, t, i1, f)
    ensures FrameOk(AddTable(m, t, i1, f, Low(r, i2, i1)), f)
  {
    var m' := AddTable(m, t, i1, f, Low(r, i2, i1));
    PteFields(f, 1);
    ZeroEntry();
    hide Inv, Frame, IsValid, IsLeaf, Pte, ZeroPage, Vpn;
    assert IsFrame(m', t) && m'.use[t] == Mid(r, i2) && Child(m', t, i1) == Some(f);
  }

  lemma AddLowMid(m: Mem, r: nat, i2: nat, t: nat, i1: nat, f: nat, g: nat)
    requires CanAddLow(m, r, i2, t, i1, f) && IsFrame(m, g) && m.use[g].Mid?
    ensures FrameOk(AddTable(m, t, i1, f, Low(r, i2, i1)), g)
  {
    hide Frame, IsValid, IsLeaf, Pte, ZeroPage, AddTable, Vpn, Translate;
    var m' := AddTable(m, t, i1, f, Low(r, i2, i1));
    PteFields(f, 1);
    assert FrameOk(m, g) && Shape(m);
    hide Inv;
    var q, j2 := m.use[g].r, m.use[g].i2;
    AddTableUse(m, t, i1, f, Low(r, i2, i1));
    AddTableEntry(m, t, i1, f, Low(r, i2, i1), q, j2);
    forall i: nat | i < ENTRIES ensures PointsTo(m', m'.pages[g][i], Low(q, j2, i)) {
      AddTableEntry(m, t, i1, f, Low(r, i2, i1), g, i);
      assert PointsTo(m, m.pages[g][i], Low(q, j2, i));
      StillPoints(m, m', f, m.pages[g][i], Low(q, j2, i));
    }
  }

  lemma AddLowRoot(m: Mem, r: nat, i2: nat, t: nat, i1: nat, f: nat, g: nat)
    requires CanAddLow(m, r, i2, t, i1, f) && IsFrame(m, g) && m.use[g].Root?
    ensures FrameOk(AddTable(m, t, i1, f, Low(r, i2, i1)), g)
  {
    var m' := AddTable(m, t, i1, f, Low(r, i2, i1));
    assert FrameOk(m, g);
    AddTableUse(m, t, i1, f, Low(r, i2, i1));
    hide Inv, Frame, IsValid, IsLeaf, Pte, ZeroPage, AddTable;
    forall i: nat | i < ENTRIES ensures PointsTo(m', m'.pages[g][i], Mid(g, i)) {
      AddTableEntry(m, t, i1, f, Low(r, i2, i1), g, i);
      assert PointsTo(m, m.pages[g][i], Mid(g, i));
      StillPoints(m, m', f, m.pages[g][i], Mid(g, i));
    }
  }

  lemma AddLowLow(m: Mem, r: nat, i2: nat, t: nat, i1: nat, f: nat, g: nat)
    requires CanAddLow(m, r, i2, t, i1, f) && IsFrame(m, g) && m.use[g].Low?
    ensures FrameOk(AddTable(m, t, i1, f, Low(r, i2, i1)), g)
  {
    var m' := AddTable(m, t, i1, f, Low(r, i2, i1));
    assert FrameOk(m, g);
    hide Inv, Frame, IsValid, IsLeaf, Pte, ZeroPage, Vpn;
    var q: nat :| IsFrame(m, q) && m.use[q] == Mid(m.use[g].r, m.use[g].i2) && Child(m, q, m.use[g].i1) == Some(g);
    assert IsFrame(m', q) && m'.use[q] == m.use[q] && Child(m', q, m.use[g].i1) == Some(g);
  }

  lemma AddLowFrame(m: Mem, r: nat, i2: nat, t: nat, i1: nat, f: nat, g: nat)
    requires CanAddLow(m, r, i2, t, i1, f) && IsFrame(m, g)
    ensures FrameOk(AddTable(m, t, i1, f, Low(r, i2, i1)), g)
  {
    if g == f { AddLowNew(m, r, i2, t, i1, f); }
    else if m.use[g].Mid? { AddLowMid(m, r, i2, t, i1, f, g); }
    else if m.use[g].Root? { AddLowRoot(m, r, i2, t, i1, f, g); }
    else if m.use[g].Low? { AddLowLow(m, r, i2, t, i1, f, g); }
    else if m.use[g].Leaf? {
      assert FrameOk(m, g);
      AddLowPath(m, r, i2, t, i1, f, m.use[g].r, m.use[g].v);
      hide Inv, Translate, Frame;
    }
  }

  /** Nor does a new level-0 table. */
  lemma AddLowKeeps(m: Mem, r: nat, i2: nat, t: nat, i1: nat, f: nat)
    requires CanAddLow(m, r, i2, t, i1, f)
    ensures var m' := AddTable(m, t, i1, f, Low(r, i2, i1));
      Inv(m') && SameMap(m, m') && Child(m', t, i1) == Some(f)
  {
    var m' := AddTable(m, t, i1, f, Low(r, i2, i1));
    AddLowMap(m, r, i2, t, i1, f);
    PteFields(f, 1);
    forall g: nat | IsFrame(m', g) ensures FrameOk(m', g) { AddLowFrame(m, r, i2, t, i1, f, g); }
  }

  // ---------- level-0 entries ----------

  /** Translations agree but for page v of tree r, whose entry is e. */
  ghost predicate MapSet(m: Mem, m': Mem, r: nat, v: nat, e: Option<nat>) {
    && (forall q: nat :: IsRoot(m, q) ==> IsRoot(m', q))
    && (forall q: nat, w: nat {:trigger Translate(m', q, w)} :: IsRoot(m, q) && w < MAXVPN ==>
          Translate(m', q, w) == if q == r && w == v then e else Translate(m, q, w))
  }

  /** Level-0 entry of page v of tree r becomes e, and frame f changes its use to u. */
  function PutLeaf(m: Mem, t: nat, v: nat, e: nat, f: nat, u: Use): Mem
    requires IsFrame(m, t)
  {
    VpnFields(v);
    var m1 := SetEntry(m, t, Px0(v), e);
    if f < |m.use| then SetUse(m1, f, u) else m1
  }

  ghost predicate AtLeaf(m: Mem, r: nat, v: nat, t: nat) {
    Inv(m) && IsRoot(m, r) && v < MAXVPN && IsFrame(m, t) && LowTable(m, r, v) == Some(t)
  }

  lemma PutLeafPath(m: Mem, r: nat, v: nat, t: nat, e: nat, f: nat, u: Use, q: nat, w: nat)
    requires AtLeaf(m, r, v, t) && IsRoot(m, q) && w < MAXVPN
    ensures var m' := PutLeaf(m, t, v, e, f, u);
      && Translate(m', q, w) ==
         (if q == r && w == v then (if IsValid(e) then Some(e) else None) else Translate(m, q, w))
      && HasMid(m', q, w) == HasMid(m, q, w) && HasLow(m', q, w) == HasLow(m, q, w)
  {
    PathUse(m, r, v);
    PathUse(m, q, w);
    VpnFields(v);
    VpnFields(w);
    hide Inv, Frame, IsValid, IsLeaf, Px0, Px1, Px2, Vpn;
    var m' := PutLeaf(m, t, v, e, f, u);
    assert LowTable(m', q, w) == LowTable(m, q, w);
    if q == r && w != v && LowTable(m, q, w) == Some(t) { assert Px0(w) != Px0(v); }
  }

  lemma PutLeafMap(m: Mem, r: nat, v: nat, t: nat, e: nat, f: nat, u: Use)
    requires AtLeaf(m, r, v, t)
    requires f < |m.use| ==> m.use[f] in {Held, Leaf(r, v)} && u in {Held, Leaf(r, v)}
    ensures MapSet(m, PutLeaf(m, t, v, e, f, u), r, v, if IsValid(e) then Some(e) else None)
    ensures SameTables(m, PutLeaf(m, t, v, e, f, u))
  {
    var m' := PutLeaf(m, t, v, e, f, u);
    PathUse(m, r, v);
    hide Frame, IsValid, IsLeaf, Px0, Px1, Px2, Vpn;
    forall q: nat, w: nat {:trigger Translate(m', q, w)} | IsRoot(m, q) && w < MAXVPN
      ensures Translate(m', q, w) ==
              if q == r && w == v then (if IsValid(e) then Some(e) else None) else Translate(m, q, w)
    {
      PutLeafPath(m, r, v, t, e, f, u, q, w);
    }
    forall q: nat, w: nat | IsRoot(m, q) && w < MAXVPN
      ensures HasMid(m', q, w) == HasMid(m, q, w) && HasLow(m', q, w) == HasLow(m, q, w)
    {
      PutLeafPath(m, r, v, t, e, f, u, q, w);
    }
  }

  /** The frame whose owner becomes the tree when e is installed: none for a page outside. */
  function Adopted(m: Mem, e: nat): nat {
    if IsFrame(m, Frame(e)) && m.use[Frame(e)] == Held then Frame(e) else |m.use|
  }

  /** Installing a held frame, or a page from outside the allocator, in an empty entry. */
  ghost predicate CanMap(m: Mem, r: nat, v: nat, t: nat, e: nat) {
    && AtLeaf(m, r, v, t) && Translate(m, r, v) == None && IsValid(e) && IsLeaf(e)
    && (IsFrame(m, Frame(e)) ==> m.use[Frame(e)] in {Held, Outside})
  }

  lemma MapFrame(m: Mem, r: nat, v: nat, t: nat, e: nat, g: nat)
    requires CanMap(m, r, v, t, e) && IsFrame(m, g)
    ensures FrameOk(PutLeaf(m, t, v, e, Adopted(m, e), Leaf(r, v)), g)
  {
    var m' := PutLeaf(m, t, v, e, Adopted(m, e), Leaf(r, v));
    PutLeafMap(m, r, v, t, e, Adopted(m, e), Leaf(r, v));
    PathUse(m, r, v);
    VpnFields(v);
    assert FrameOk(m, g);
    hide Frame, IsValid, IsLeaf, Px0, Px1, Px2, Vpn, Translate;
    if m.use[g].Low? {
      var q: nat :| IsFrame(m, q) && m.use[q] == Mid(m.use[g].r, m.use[g].i2) && Child(m, q, m.use[g].i1) == Some(g);
      assert IsFrame(m', q) && m'.use[q] == m.use[q] && Child(m', q, m.use[g].i1) == Some(g);
    }
  }

  lemma MapKeeps(m: Mem, r: nat, v: nat, t: nat, e: nat)
    requires CanMap(m, r, v, t, e)
    ensures var m' := PutLeaf(m, t, v, e, Adopted(m, e), Leaf(r, v));
      Inv(m') && MapSet(m, m', r, v, Some(e)) && SameTables(m, m')
  {
    var m' := PutLeaf(m, t, v, e, Adopted(m, e), Leaf(r, v));
    PutLeafMap(m, r, v, t, e, Adopted(m, e), Leaf(r, v));
    forall g: nat | IsFrame(m', g) ensures FrameOk(m', g) { MapFrame(m, r, v, t, e, g); }
  }

  /** The frame that unmapping page v of tree r gives back to its caller, if it owns it. */
  function Owned(m: Mem, r: nat, v: nat): nat
    requires IsFrame(m, r) && v < MAXVPN
  {
    match Translate(m, r, v)
    case None => |m.use|
    case Some(e) => if IsFrame(m, Frame(e)) && m.use[Frame(e)] == Leaf(r, v) then Frame(e) else |m.use|
  }

  /** Page v has one level-0 entry. */
  lemma LowUnique(m: Mem, r: nat, v: nat, t: nat, g: nat, i2: nat, i1: nat, i: nat)
    requires AtLeaf(m, r, v, t) && IsFrame(m, g) && m.use[g] == Low(r, i2, i1) && i < ENTRIES && Vpn(i2, i1, i) == v
    ensures g == t && i == Px0(v)
  {
    assert FrameOk(m, g);
    FieldsVpn(i2, i1, i);
    hide Vpn, Px0, Px1, Px2, Frame, IsValid;
    var q: nat :| IsFrame(m, q) && m.use[q] == Mid(r, i2) && Child(m, q, i1) == Some(g);
    assert FrameOk(m, q);
  }

  lemma UnmapFrame(m: Mem, r: nat, v: nat, t: nat, g: nat)
    requires AtLeaf(m, r, v, t) && IsFrame(m, g)
    ensures FrameOk(PutLeaf(m, t, v, 0, Owned(m, r, v), Held), g)
  {
    var m' := PutLeaf(m, t, v, 0, Owned(m, r, v), Held);
    PutLeafMap(m, r, v, t, 0, Owned(m, r, v), Held);
    PathUse(m, r, v);
    VpnFields(v);
    ZeroEntry();
    assert FrameOk(m, g);
    hide Inv, Frame, IsValid, IsLeaf, Px0, Px1, Px2, Vpn, Translate;
    if m.use[g].Low? {
      var q: nat :| IsFrame(m, q) && m.use[q] == Mid(m.use[g].r, m.use[g].i2) && Child(m, q, m.use[g].i1) == Some(g);
      assert IsFrame(m', q) && m'.use[q] == m.use[q] && Child(m', q, m.use[g].i1) == Some(g);
      UnmapLow(m, r, v, t, g, m.use[g].r, m.use[g].i2, m.use[g].i1);
    }
  }

  lemma UnmapLow(m: Mem, r: nat, v: nat, t: nat, g: nat, q: nat, i2: nat, i1: nat)
    requires AtLeaf(m, r, v, t) && IsFrame(m, g) && m.use[g] == Low(q, i2, i1)
    ensures var m' := PutLeaf(m, t, v, 0, Owned(m, r, v), Held);
      forall i: nat :: i < ENTRIES ==> LeafEntry(m', m'.pages[g][i], q, Vpn(i2, i1, i))
  {
    var m' := PutLeaf(m, t, v, 0, Owned(m, r, v), Held);
    assert FrameOk(m, g);
    VpnFields(v);
    ZeroEntry();
    hide Inv, Frame, IsValid, IsLeaf, Px0, Px1, Px2, Vpn, Translate;
    forall i: nat | i < ENTRIES ensures LeafEntry(m', m'.pages[g][i], q, Vpn(i2, i1, i)) {
      assert LeafEntry(m, m.pages[g][i], q, Vpn(i2, i1, i));
      if q == r && Vpn(i2, i1, i) == v { LowUnique(m, r, v, t, g, i2, i1, i); }
    }
  }

  lemma UnmapKeeps(m: Mem, r: nat, v: nat, t: nat)
    requires AtLeaf(m, r, v, t)
    ensures var m' := PutLeaf(m, t, v, 0, Owned(m, r, v), Held);
      Inv(m') && MapSet(m, m', r, v, None) && SameTables(m, m')
  {
    var m' := PutLeaf(m, t, v, 0, Owned(m, r, v), Held);
    PutLeafMap(m, r, v, t, 0, Owned(m, r, v), Held);
    ZeroEntry();
    forall g: nat | IsFrame(m', g) ensures FrameOk(m', g) { UnmapFrame(m, r, v, t, g); }
  }

  // ---------- one level of walk with alloc ----------

  function GrowMid(m: Mem, r: nat, v: nat): Mem
    requires Inv(m) && IsRoot(m, r) && v < MAXVPN && m.free != []
  {
    TakeKeeps(m);
    VpnFields(v);
    AddTable(Take(m), r, Px2(v), m.free[0], Mid(r, Px2(v)))
  }

  lemma GrowMidKeeps(m: Mem, r: nat, v: nat)
    requires Inv(m) && IsRoot(m, r) && v < MAXVPN && m.free != [] && !HasMid(m, r, v)
    ensures var m' := GrowMid(m, r, v);
      && Inv(m') && SameMap(m, m') && Tables(m, m', r, v, true, false) && Keeps(m, m')
      && m'.free == m.free[1..] && IsRoot(m', r) && Child(m', r, Px2(v)) == Some(m.free[0])
  {
    TakeKeeps(m);
    var m1, f := Take(m), m.free[0];
    VpnFields(v);
    var m' := GrowMid(m, r, v);
    assert !HasMid(m1, r, v);
    AddMidKeeps(m1, r, Px2(v), f);
    hide Inv, Frame, IsValid, IsLeaf, Pte, ZeroPage, Px0, Px1, Px2, Vpn, Translate, LowTable, Child;
    forall q: nat, w: nat | IsRoot(m, q) && w < MAXVPN
      ensures HasMid(m', q, w) == (HasMid(m, q, w) || (q == r && Px2(w) == Px2(v)))
      ensures HasLow(m', q, w) == HasLow(m, q, w)
    {
      assert HasMid(m1, q, w) == HasMid(m, q, w);
      AddMidPath(m1, r, Px2(v), f, q, w);
    }
  }

  function GrowLow(m: Mem, r: nat, v: nat, t: nat): Mem
    requires Inv(m) && v < MAXVPN && m.free != [] && IsFrame(m, t) && m.use[t] == Mid(r, Px2(v))
  {
    TakeKeeps(m);
    VpnFields(v);
    AddTable(Take(m), t, Px1(v), m.free[0], Low(r, Px2(v), Px1(v)))
  }

  lemma GrowLowKeeps(m: Mem, r: nat, v: nat, t: nat)
    requires Inv(m) && IsRoot(m, r) && v < MAXVPN && m.free != [] && Child(m, r, Px2(v)) == Some(t) && !HasLow(m, r, v)
    ensures IsFrame(m, t) && m.use[t] == Mid(r, Px2(v))
    ensures var m' := GrowLow(m, r, v, t);
      && Inv(m') && SameMap(m, m') && Tables(m, m', r, v, false, true) && Keeps(m, m')
      && m'.free == m.free[1..] && IsRoot(m', r) && LowTable(m', r, v) == Some(m.free[0])
  {
    PathUse(m, r, v);
    TakeKeeps(m);
    var m1, f := Take(m), m.free[0];
    VpnFields(v);
    var m' := GrowLow(m, r, v, t);
    assert !HasLow(m1, r, v);
    assert m1.pages[r] == m.pages[r];
    AddLowKeeps(m1, r, Px2(v), t, Px1(v), f);
    GrowLowTables(m, r, v, t);
    hide Inv, Frame, IsValid, IsLeaf, Pte, ZeroPage, Px0, Px1, Px2, Vpn, Translate;
    assert m'.pages[r] == m1.pages[r];
  }

  lemma GrowLowTables(m: Mem, r: nat, v: nat, t: nat)
    requires Inv(m) && IsRoot(m, r) && v < MAXVPN && m.free != [] && Child(m, r, Px2(v)) == Some(t) && !HasLow(m, r, v)
    requires IsFrame(m, t) && m.use[t] == Mid(r, Px2(v))
    ensures Tables(m, GrowLow(m, r, v, t), r, v, false, true)
  {
    TakeKeeps(m);
    var m1, f := Take(m), m.free[0];
    VpnFields(v);
    assert !HasLow(m1, r, v);
    assert m1.pages[r] == m.pages[r];
    var m' := GrowLow(m, r, v, t);
    hide Inv, Frame, IsValid, IsLeaf, Pte, ZeroPage, Px0, Px1, Px2, Vpn, Translate;
    forall q: nat, w: nat | IsRoot(m, q) && w < MAXVPN
      ensures HasMid(m', q, w) == HasMid(m, q, w)
      ensures HasLow(m', q, w) == (HasLow(m, q, w) || (q == r && Px2(w) == Px2(v) && Px1(w) == Px1(v)))
    {
      assert HasMid(m1, q, w) == HasMid(m, q, w);
      AddLowPath(m1, r, Px2(v), t, Px1(v), f, q, w);
    }
  }

  // ---------- walk ----------

  /** Memory after walk(r, v, 1): the missing tables, as far as there are frames. */
  function WalkMem(m: Mem, r: nat, v: nat): (m': Mem)
    requires Inv(m) && IsRoot(m, r) && v < MAXVPN
    ensures IsRoot(m', r)
  {
    WalkLow(WalkMid(m, r, v), r, v)
  }

  function WalkLow(m: Mem, r: nat, v: nat): (m': Mem)
    requires Inv(m) && IsRoot(m, r) && v < MAXVPN
    ensures IsRoot(m', r)
  {
    if !HasMid(m, r, v) || HasLow(m, r, v) || m.free == [] then m
    else
      GrowLowKeeps(m, r, v, Child(m, r, Px2(v)).value);
      GrowLow(m, r, v, Child(m, r, Px2(v)).value)
  }

  function WalkMid(m: Mem, r: nat, v: nat): (m': Mem)
    requires Inv(m) && IsRoot(m, r) && v < MAXVPN
    ensures Inv(m') && IsRoot(m', r)
  {
    if HasMid(m, r, v) || m.free == [] then m
    else
      GrowMidKeeps(m, r, v);
      GrowMid(m, r, v)
  }

  lemma Idle(m: Mem, r: nat, v: nat)
    requires Shape(m) && IsRoot(m, r) && v < MAXVPN
    ensures SameMap(m, m) && Keeps(m, m) && Tables(m, m, r, v, HasMid(m, r, v), HasLow(m, r, v))
    ensures HasLow(m, r, v) ==> HasMid(m, r, v)
  {
    hide Frame, IsValid, Px2, Px1, Px0;
  }

  lemma Then(m: Mem, m1: Mem, m2: Mem, r: nat, v: nat, mid1: bool, low1: bool, mid2: bool, low2: bool)
    requires SameMap(m, m1) && SameMap(m1, m2) && Keeps(m, m1) && Keeps(m1, m2)
    requires Tables(m, m1, r, v, mid1, low1) && Tables(m1, m2, r, v, mid2, low2)
    ensures SameMap(m, m2) && Keeps(m, m2) && Tables(m, m2, r, v, mid1 || mid2, low1 || low2)
  {
    hide Translate, HasMid, HasLow, Px1, Px2;
    forall q: nat, w: nat | IsRoot(m, q) && w < MAXVPN
      ensures Translate(m2, q, w) == Translate(m, q, w)
      ensures HasMid(m2, q, w) == (HasMid(m, q, w) || ((mid1 || mid2) && q == r && Px2(w) == Px2(v)))
      ensures HasLow(m2, q, w) ==
              (HasLow(m, q, w) || ((low1 || low2) && q == r && Px2(w) == Px2(v) && Px1(w) == Px1(v)))
    {
      assert Translate(m1, q, w) == Translate(m, q, w);
      assert HasMid(m1, q, w) == (HasMid(m, q, w) || (mid1 && q == r && Px2(w) == Px2(v)));
    }
  }

  /** walk with alloc changes no translation and no page in use; it ends at the level-0
      table exactly when there are frames for the missing tables, and then those are the
      ones that exist in addition. */
  lemma WalkKeeps(m: Mem, r: nat, v: nat)
    requires Inv(m) && IsRoot(m, r) && v < MAXVPN
    ensures var m' := WalkMem(m, r, v);
      && Inv(m') && SameMap(m, m') && Keeps(m, m') && IsRoot(m', r)
      && (HasLow(m', r, v) <==> |m.free| >= Missing(m, r, v))
      && (HasLow(m', r, v) ==> Tables(m, m', r, v, true, true) && |m'.free| == |m.free| - Missing(m, r, v))
      && (!HasLow(m', r, v) ==> m'.free == [])
  {
    var m1, m' := WalkMid(m, r, v), WalkMem(m, r, v);
    WalkMidKeeps(m, r, v);
    Idle(m, r, v);
    Idle(m1, r, v);
    if HasMid(m1, r, v) {
      assert Tables(m, m1, r, v, true, false);
      PathUse(m1, r, v);
      assert HasLow(m1, r, v) == HasLow(m, r, v);
      if !HasLow(m1, r, v) && m1.free != [] {
        GrowLowKeeps(m1, r, v, Child(m1, r, Px2(v)).value);
        Then(m, m1, m', r, v, true, false, false, true);
      } else {
        Then(m, m1, m1, r, v, true, false, HasMid(m1, r, v), HasLow(m1, r, v));
      }
    }
  }

  /** walk leaves memory as it is when the tables exist, as they do for a mapped page. */
  lemma WalkIdle(m: Mem, r: nat, v: nat)
    requires Inv(m) && IsRoot(m, r) && v < MAXVPN
    ensures HasLow(m, r, v) ==> WalkMem(m, r, v) == m && Missing(m, r, v) == 0
    ensures Translate(m, r, v).Some? ==> HasLow(m, r, v)
    ensures HasLow(m, r, v) ==>
      var t := LowTable(m, r, v).value;
      && IsFrame(m, t)
      && Translate(m, r, v) == if IsValid(m.pages[t][Px0(v)]) then Some(m.pages[t][Px0(v)]) else None
  {
    PathUse(m, r, v);
  }

  lemma WalkMidKeeps(m: Mem, r: nat, v: nat)
    requires Inv(m) && IsRoot(m, r) && v < MAXVPN
    ensures var m' := WalkMid(m, r, v);
      && Inv(m') && SameMap(m, m') && Keeps(m, m') && IsRoot(m', r)
      && (HasMid(m', r, v) ==> Tables(m, m', r, v, true, false))
      && (!HasMid(m', r, v) ==> m' == m && m'.free == [])
      && (HasMid(m, r, v) ==> m' == m)
      && (!HasMid(m, r, v) && m.free != [] ==> HasMid(m', r, v) && m'.free == m.free[1..])
  {
    Idle(m, r, v);
    if !HasMid(m, r, v) && m.free != [] {
      GrowMidKeeps(m, r, v);
    }
  }
}
