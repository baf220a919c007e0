/** A boot that recovers a block, followed by an update of that block, as kernel/log.c and
    kernel/bio.c run it: the wrapped refcnt cancels the pin that log_write takes, the
    buffer of a logged block counts as free, and reads of other blocks recycle it. */
module LogBoot {
  import opened Options
  import opened Params
  import opened Redo
  import opened LogMachine
  import opened LogCode

  // ---------- how far a free buffer is from being recycled ----------

  /** The number of free buffers among those listed. */
  ghost function FreeIn(buf: seq<CBuf>, order: seq<nat>): nat
    requires forall k :: 0 <= k < |order| ==> order[k] < |buf|
  {
    if order == [] then 0 else FreeIn(buf, order[1..]) + if buf[order[0]].refcnt == 0 then 1 else 0
  }

  /** The buffers less recently used than f. */
  ghost function Behind(lru: seq<nat>, f: nat): seq<nat>
    requires f in lru
  {
    lru[FindNat(lru, f) + 1..]
  }

  lemma {:induction false} FreeConcat(buf: seq<CBuf>, a: seq<nat>, b: seq<nat>)
    requires forall k :: 0 <= k < |a| ==> a[k] < |buf|
    requires forall k :: 0 <= k < |b| ==> b[k] < |buf|
    ensures FreeIn(buf, a + b) == FreeIn(buf, a) + FreeIn(buf, b)
  {
    if a == [] {
      assert a + b == b;
    } else {
      FreeConcat(buf, a[1..], b);
      assert (a + b)[1..] == a[1..] + b;
    }
  }

  lemma {:induction false} FreeSame(buf: seq<CBuf>, buf': seq<CBuf>, a: seq<nat>)
    requires |buf'| == |buf| && forall k :: 0 <= k < |a| ==> a[k] < |buf| && buf'[a[k]] == buf[a[k]]
    ensures FreeIn(buf', a) == FreeIn(buf, a)
  {
    if a != [] {
      FreeSame(buf, buf', a[1..]);
    }
  }

  lemma {:induction false} FreeBound(buf: seq<CBuf>, a: seq<nat>)
    requires forall k :: 0 <= k < |a| ==> a[k] < |buf|
    ensures FreeIn(buf, a) <= |a|
  {
    if a != [] {
      FreeBound(buf, a[1..]);
    }
  }

  lemma FreeWithout(buf: seq<CBuf>, buf': seq<CBuf>, a: seq<nat>, v: nat, b: seq<nat>)
    requires |buf| == |buf'| && v < |buf| && buf[v].refcnt == 0
    requires forall k :: 0 <= k < |a| ==> a[k] < |buf| && buf'[a[k]] == buf[a[k]]
    requires forall k :: 0 <= k < |b| ==> b[k] < |buf| && buf'[b[k]] == buf[b[k]]
    ensures FreeIn(buf', a + b) == FreeIn(buf, a + ([v] + b)) - 1
  {
    FreeSame(buf, buf', a);
    FreeSame(buf, buf', b);
    FreeConcat(buf', a, b);
    FreeConcat(buf, a, [v] + b);
    FreeConcat(buf, [v], b);
  }

  lemma PlaceOf(lru: seq<nat>, k: nat)
    requires Order(lru) && k < NBUF
    ensures FindNat(lru, lru[k]) == k
  {
  }

  lemma BehindMoved(lru: seq<nat>, k: nat, q: nat)
    requires Order(lru) && k < q < NBUF
    ensures Behind(lru, lru[k]) == lru[k + 1..q] + ([lru[q]] + lru[q + 1..])
    ensures Order(MoveToFront(lru, lru[q])) && Behind(MoveToFront(lru, lru[q]), lru[k]) == lru[k + 1..q] + lru[q + 1..]
  {
    hide Order;
    OrderLength(lru);
    PlaceOf(lru, k);
    PlaceOf(lru, q);
    MoveToFrontOrder(lru, lru[q]);
    var r := MoveToFront(lru, lru[q]);
    OrderLength(r);
    assert r == [lru[q]] + lru[..q] + lru[q + 1..];
    assert r[k + 1] == lru[k];
    PlaceOf(r, k + 1);
    MovedTail(lru, k, q);
  }

  lemma OrderLength(lru: seq<nat>)
    requires Order(lru)
    ensures |lru| == NBUF
  {
  }

  lemma MovedTail(s: seq<nat>, k: nat, q: nat)
    requires k < q < |s|
    ensures s[k + 1..] == s[k + 1..q] + ([s[q]] + s[q + 1..])
    ensures ([s[q]] + s[..q] + s[q + 1..])[k + 2..] == s[k + 1..q] + s[q + 1..]
  {
  }

  /** The last free buffer on the list is behind every other free one. */
  lemma VictimBehind(buf: seq<CBuf>, lru: seq<nat>, f: nat, v: nat)
    requires Order(lru) && |buf| == NBUF && f < NBUF && v < NBUF && v != f
    requires buf[f].refcnt == 0 && LeastRecent(buf, lru, v)
    ensures FindNat(lru, f) < FindNat(lru, v)
  {
    var q :| 0 <= q < NBUF && lru[q] == v && forall j :: q < j < NBUF ==> buf[lru[j]].refcnt != 0;
    PlaceOf(lru, q);
  }

  /** Recycling some other buffer brings f one step nearer to being recycled. */
  lemma Nearer(buf: seq<CBuf>, buf': seq<CBuf>, lru: seq<nat>, f: nat, v: nat)
    requires Order(lru) && |buf| == |buf'| == NBUF && f < NBUF && v < NBUF && v != f
    requires buf[f].refcnt == 0 && buf[v].refcnt == 0 && LeastRecent(buf, lru, v)
    requires forall i :: 0 <= i < NBUF && i != v ==> buf'[i] == buf[i]
    ensures Order(MoveToFront(lru, v))
    ensures FreeIn(buf', Behind(MoveToFront(lru, v), f)) == FreeIn(buf, Behind(lru, f)) - 1
  {
    var k, q := FindNat(lru, f), FindNat(lru, v);
    VictimBehind(buf, lru, f, v);
    BehindMoved(lru, k, q);
    hide Behind, MoveToFront, LeastRecent;
    FreeWithout(buf, buf', lru[k + 1..q], v, lru[q + 1..]);
  }

  // ---------- the run ----------

  ghost predicate Unlocked(buf: seq<CBuf>) {
    forall i :: 0 <= i < |buf| ==> !buf[i].locked
  }

  /** Block b's new data x is in buffer f alone, which at most n free buffers outlive. */
  ghost predicate AtRisk(buf: seq<CBuf>, lru: seq<nat>, f: nat, b: int, x: Block, n: int)
    requires Order(lru) && |buf| == NBUF
  {
    f < NBUF && buf[f] == Clean(b, x) && FreeIn(buf, Behind(lru, f)) <= n
  }

  /** bread and brelse of a block that is not cached. */
  method ReadOther(k: Kernel, c: int, ghost f: nat, ghost b: int, ghost x: Block, ghost n: int)
    requires k.Ready() && 0 < c < |k.disk| && NoneHolds(k.buf, c) && Unlocked(k.buf) && !NoneFree(k.buf)
    requires b != c && b != 0 && (AtRisk(k.buf, k.lru, f, b, x, n) || NoneHolds(k.buf, b))
    modifies k`buf, k`lru
    ensures k.Ready() && Unlocked(k.buf) && !NoneFree(k.buf)
    ensures forall e :: e != c && old(NoneHolds(k.buf, e)) ==> NoneHolds(k.buf, e)
    ensures AtRisk(k.buf, k.lru, f, b, x, n - 1) || NoneHolds(k.buf, b)
  {
    hide Order, UniqueC, AtRisk, LeastRecent, MoveToFront;
    ghost var was, order := k.buf, k.lru;
    var r := k.Bread(c);
    var v := r.value;
    FreeCycle(was[v], c, k.disk, k.disk[c]);
    k.Brelse(v);
    assert k.buf == was[v := Clean(c, k.disk[c])];
    assert k.buf[v].refcnt == 0;
    Recycled(was, k.buf, order, f, v, b, c, x, n);
  }

  lemma Recycled(buf: seq<CBuf>, buf': seq<CBuf>, lru: seq<nat>, f: nat, v: nat, b: int, c: int, x: Block, n: int)
    requires Order(lru) && |buf| == NBUF && UniqueC(buf) && v < NBUF && buf[v].refcnt == 0 && LeastRecent(buf, lru, v)
    requires |buf'| == NBUF && buf'[v].blockno == c && forall i :: 0 <= i < NBUF && i != v ==> buf'[i] == buf[i]
    requires b != c && b != 0 && (AtRisk(buf, lru, f, b, x, n) || NoneHolds(buf, b))
    ensures Order(MoveToFront(lru, v))
    ensures AtRisk(buf', MoveToFront(lru, v), f, b, x, n - 1) || NoneHolds(buf', b)
  {
    MoveToFrontOrder(lru, v);
    if AtRisk(buf, lru, f, b, x, n) && v != f {
      Nearer(buf, buf', lru, f, v);
    }
  }

  /** Further home blocks, none of them recovered. */
  ghost predicate Others(g: Geometry, bs: seq<int>, cs: seq<int>) {
    && (forall j :: 0 <= j < |cs| ==> IsHome(g, cs[j]) && cs[j] !in bs)
    && (forall i, j :: 0 <= i < j < |cs| ==> cs[i] != cs[j])
  }

  /** begin_op, bread(b), the change, log_write and brelse after a boot that recovered b:
      the log lists b and its buffer is free. */
  method LogUpdate(k: Kernel, ghost bs: seq<int>, b: int, x: Block) returns (f: nat)
    requires k.Ready() && BootBufs(k.g, k.disk, bs, |bs|, k.buf) && Loggable(k.g, bs) && b in bs
    requires k.n == 0 && k.outstanding == 0 && !k.committing
    modifies k`buf, k`lru, k`n, k`block, k`outstanding
    ensures k.Ready() && k.Lh() == [b] && k.outstanding == 1
    ensures f < NBUF && old(k.buf[f]).blockno == b && k.buf == old(k.buf)[f := Clean(b, x)]
  {
    hide Order, UniqueC, BootBufs, Loggable, Read, Released, LogCBuf, MoveToFront, LeastRecent, Appended;
    BootUnlocked(k.g, k.disk, bs, k.buf);
    BootCached(k.g, k.disk, bs, k.buf, b);
    LostCycle(k.disk, b, x);
    var started := k.Reserve();
    var r := k.Bread(b);
    f := r.value;
    k.SetData(f, x);
    var ok := k.Append(f);
    k.Brelse(f);
  }

  /** The pin brings a wrapped count back to one, and brelse to zero. */
  lemma LostCycle(d: Disk, b: int, x: Block)
    requires 0 <= b < |d|
    ensures var r := Read(Clean(b, d[b]).(refcnt := UINT_RANGE - 1), b, d);
      && r.blockno == b && r.locked
      && Released(LogCBuf([], r.(data := x))) == Clean(b, x) && LogCBuf([], r.(data := x)).locked
    ensures Appended([], b) == [b]
  {
  }

  lemma BootUnlocked(g: Geometry, d: Disk, bs: seq<int>, buf: seq<CBuf>)
    requires BootBufs(g, d, bs, |bs|, buf)
    ensures Unlocked(buf)
  {
    forall i | 0 <= i < |buf| ensures !buf[i].locked { assert BootBuf(g, d, bs, |bs|, buf[i]); }
  }

  lemma BootCached(g: Geometry, d: Disk, bs: seq<int>, buf: seq<CBuf>, b: int)
    requires BootBufs(g, d, bs, |bs|, buf) && Loggable(g, bs) && b in bs
    ensures 0 < b < |d| && g.size > 1 && !NoneHolds(buf, b)
    ensures forall i :: 0 <= i < |buf| && buf[i].blockno == b ==> buf[i] == Clean(b, d[b]).(refcnt := UINT_RANGE - 1)
  {
    var j :| 0 <= j < |bs| && bs[j] == b;
    assert IsHome(g, bs[j]);
    forall i | 0 <= i < |buf| && buf[i].blockno == b ensures buf[i] == Clean(b, d[b]).(refcnt := UINT_RANGE - 1) {
      assert BootBuf(g, d, bs, |bs|, buf[i]);
    }
    var i :| 0 <= i < NBUF && buf[i].blockno == bs[j];
    assert BootBuf(g, d, bs, |bs|, buf[i]);
  }

  lemma BootOthers(g: Geometry, d: Disk, bs: seq<int>, buf: seq<CBuf>, cs: seq<int>)
    requires BootBufs(g, d, bs, |bs|, buf) && Others(g, bs, cs)
    ensures forall j :: 0 <= j < |cs| ==> NoneHolds(buf, cs[j])
  {
    forall j | 0 <= j < |cs| ensures NoneHolds(buf, cs[j]) {
      forall i | 0 <= i < |buf| ensures buf[i].blockno != cs[j] {
        assert IsHome(g, cs[j]) && cs[j] !in bs;
        assert BootBuf(g, d, bs, |bs|, buf[i]);
        assert bs[..|bs|] == bs;
      }
    }
  }

  /** After recovering any block b, a later logged update of b can vanish: once NBUF other
      blocks have been read, the header lists b but bread(b) returns the old data. */
  method UpdateLost(k: Kernel, ghost bs: seq<int>, b: int, x: Block, cs: seq<int>) returns (r: Option<nat>)
    requires k.Ready() && BootBufs(k.g, k.disk, bs, |bs|, k.buf) && Loggable(k.g, bs) && b in bs
    requires k.n == 0 && k.outstanding == 0 && !k.committing
    requires Others(k.g, bs, cs) && |cs| >= NBUF
    modifies k`buf, k`lru, k`n, k`block, k`outstanding
    ensures k.Ready() && k.Lh() == [b] && k.outstanding == 1
    ensures r.Some? && r.value < NBUF && 0 < b < |k.disk|
    ensures k.buf[r.value].blockno == b && k.buf[r.value].data == k.disk[b]
  {
    BootUnlocked(k.g, k.disk, bs, k.buf);
    BootCached(k.g, k.disk, bs, k.buf, b);
    BootOthers(k.g, k.disk, bs, k.buf, cs);
    var f := LogUpdate(k, bs, b, x);
    assert !NoneFree(k.buf) by { assert k.buf[f].refcnt == 0; }
    FreeBound(k.buf, Behind(k.lru, f));
    for j := 0 to |cs|
      invariant k.Ready() && k.Lh() == [b] && k.outstanding == 1
      invariant Unlocked(k.buf) && !NoneFree(k.buf)
      invariant forall i :: j <= i < |cs| ==> NoneHolds(k.buf, cs[i])
      invariant AtRisk(k.buf, k.lru, f, b, x, NBUF - 1 - j) || NoneHolds(k.buf, b)
    {
      assert IsHome(k.g, cs[j]) && cs[j] !in bs;
      ReadOther(k, cs[j], f, b, x, NBUF - 1 - j);
    }
    r := k.Bread(b);
  }

  /** The same from the disk a crash leaves behind: binit, initlog and then the run above. */
  method LostAfterBoot(g: Geometry, d: Disk, b: int, x: Block, cs: seq<int>) returns (k: Kernel, r: Option<nat>)
    requires WellFormed(g, d) && b in HeaderBlocks(d[g.start]) && d[g.start][0] < NBUF
    requires Others(g, HeaderBlocks(d[g.start]), cs) && |cs| >= NBUF
    requires 0 <= b < |Recover(g, d)| && x != Recover(g, d)[b]
    ensures k.disk == Recover(g, d) && k.n == 1 && k.Ready() && k.Lh() == [b]
    ensures r.Some? && r.value < NBUF && k.buf[r.value].blockno == b && k.buf[r.value].data != x
  {
    k := new Kernel(g, d);
    forall i | 0 <= i < NBUF ensures BootBuf(g, d, [], 0, k.buf[i]) { }
    var ok := k.Initlog(1);
    RecoveredDisk(g, d);
    ghost var bs := HeaderBlocks(d[g.start]);
    r := UpdateLost(k, bs, b, x, cs);
  }
}
