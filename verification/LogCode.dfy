/** kernel/bio.c and kernel/log.c as code: the buffer cache with its LRU list, the
    in-memory log header, and the loops of commit and recovery over bread, bwrite
    and brelse. The ghost field m runs LogMachine beside the code, so every method
    is an implementation of the events it names; trace records the disk after
    each block write. The disk driver is one atomic write. */
module LogCode {
  import opened Options
  import opened Params
  import opened Redo
  import opened LogMachine

  datatype CBuf = CBuf(blockno: int, valid: bool, refcnt: nat, locked: bool, data: Block)

  /** Every buffer is on the list once; lru[0] is head.next, the most recently used. */
  ghost predicate Order(lru: seq<nat>) {
    && |lru| == NBUF
    && (forall k :: 0 <= k < |lru| ==> lru[k] < NBUF)
    && (forall j, k :: 0 <= j < k < |lru| ==> lru[j] != lru[k])
    && (forall i: nat :: i < NBUF ==> i in lru)
  }

  ghost predicate NoneHolds(buf: seq<CBuf>, b: int) {
    forall i :: 0 <= i < |buf| ==> buf[i].blockno != b
  }

  ghost predicate NoneFree(buf: seq<CBuf>) {
    forall i :: 0 <= i < |buf| ==> buf[i].refcnt != 0
  }

  ghost predicate AtMostOneFree(buf: seq<CBuf>) {
    forall i, j :: 0 <= i < j < |buf| ==> buf[i].refcnt != 0 || buf[j].refcnt != 0
  }

  /** The buffer of b can be locked at once: nobody holds it. */
  ghost predicate Lockable(buf: seq<CBuf>, b: int) {
    forall i :: 0 <= i < |buf| && (buf[i].blockno == b || buf[i].refcnt == 0) ==> !buf[i].locked
  }

  ghost predicate UniqueC(buf: seq<CBuf>) {
    forall i, j :: 0 <= i < j < |buf| && buf[i].blockno == buf[j].blockno ==> buf[i].blockno == 0
  }

  /** A buffer in which bget may put block b: its own, else a free one. */
  ghost predicate Usable(buf: seq<CBuf>, b: int, i: nat) {
    i < |buf| && (buf[i].blockno == b || (NoneHolds(buf, b) && buf[i].refcnt == 0))
  }

  /** No free buffer is further back on the list than i. */
  ghost predicate LeastRecent(buf: seq<CBuf>, lru: seq<nat>, i: nat)
    requires Order(lru) && |buf| == NBUF
  {
    exists k :: 0 <= k < NBUF && lru[k] == i && forall j :: k < j < NBUF ==> buf[lru[j]].refcnt != 0
  }

  function Taken(c: CBuf, b: int): CBuf {
    if c.blockno == b then c.(refcnt := Inc(c.refcnt), locked := true)
    else c.(blockno := b, valid := false, refcnt := 1, locked := true)
  }

  /** A buffer as bread returns it. */
  function Read(c: CBuf, b: int, d: Disk): CBuf
    requires 0 <= b < |d|
  {
    var t := Taken(c, b);
    if t.valid then t else t.(valid := true, data := d[b])
  }

  function Released(c: CBuf): CBuf {
    c.(locked := false, refcnt := Dec(c.refcnt))
  }

  /** bread, a change of data and brelse of a free buffer leave it free with the new data. */
  lemma FreeCycle(c: CBuf, b: int, d: Disk, x: Block)
    requires 0 <= b < |d| && c.refcnt == 0 && !c.locked
    ensures Read(c, b, d).blockno == b && Read(c, b, d).locked && Read(c, b, d).refcnt == 1
    ensures Released(Read(c, b, d).(data := x)) == Clean(b, x)
  {
  }

  lemma LogRead(c: CBuf, b: int, d: Disk)
    requires 0 <= b < |d| && (c.blockno == b && c.valid ==> c.data == d[b])
    ensures Read(c, b, d).data == d[b] && Read(c, b, d).(data := d[b]) == Read(c, b, d)
  {
  }

  /** bread and brelse of a cached block that others count too change nothing. */
  lemma BusyCycle(c: CBuf, d: Disk)
    requires 0 <= c.blockno < |d| && 1 <= c.refcnt < UINT_RANGE - 1 && c.valid && !c.locked
    ensures Read(c, c.blockno, d) == c.(refcnt := c.refcnt + 1, locked := true)
    ensures Released(Read(c, c.blockno, d)) == c
  {
  }

  /** A home buffer after install_trans: bread, the copy, bunpin and brelse. */
  function InstalledBuf(c: CBuf, h: int, d: Disk, x: Block): CBuf
    requires 0 <= h < |d|
  {
    var r := Read(c, h, d).(data := x);
    Released(r.(refcnt := Dec(r.refcnt)))
  }

  /** During commit the buffer was pinned and bunpin takes the pin away. */
  lemma InstalledPinned(c: CBuf, d: Disk, x: Block)
    requires 0 <= c.blockno < |d| && 1 <= c.refcnt < UINT_RANGE - 1 && c.valid && !c.locked
    ensures InstalledBuf(c, c.blockno, d, x) == c.(data := x, refcnt := Dec(c.refcnt))
  {
  }

  /** During recovery nothing was pinned, and refcnt wraps below zero. */
  lemma InstalledUnpinned(c: CBuf, h: int, d: Disk, x: Block)
    requires 0 <= h < |d| && c.refcnt == 0
    ensures InstalledBuf(c, h, d, x) == Clean(h, x).(refcnt := UINT_RANGE - 1)
  {
  }

  function MoveToFront(lru: seq<nat>, i: nat): seq<nat>
    requires i in lru
  {
    var k := FindNat(lru, i);
    [i] + lru[..k] + lru[k + 1..]
  }

  function FindNat(s: seq<nat>, i: nat): (k: nat)
    requires i in s
    ensures k < |s| && s[k] == i
  {
    if s[0] == i then 0 else 1 + FindNat(s[1..], i)
  }

  lemma MoveToFrontOrder(lru: seq<nat>, i: nat)
    requires Order(lru) && i in lru
    ensures Order(MoveToFront(lru, i)) && MoveToFront(lru, i)[0] == i
  {
    var k := FindNat(lru, i);
    var r := MoveToFront(lru, i);
    forall x: nat | x < NBUF ensures x in r {
      var q := FindNat(lru, x);
      if q < k { assert r[q + 1] == x; }
      else if q > k { assert r[q] == x; }
      else { assert r[0] == x; }
    }
  }

  /** A concrete buffer and the machine's view of it. Buffers with a block of the log
      area are free for the machine, and agree with the disk. */
  ghost predicate MatchBuf(g: Geometry, d: Disk, c: CBuf, b: Buf) {
    if IsHome(g, c.blockno) then
      && b.blockno == c.blockno && b.valid == c.valid && b.refcnt == c.refcnt
      && b.owner.Some? == c.locked && (c.valid ==> b.data == c.data)
    else
      && b == EmptyBuf() && c.refcnt == 0 && !c.locked
      && (c.valid ==> 0 <= c.blockno < |d| && c.data == d[c.blockno])
  }

  ghost predicate MatchAll(g: Geometry, d: Disk, buf: seq<CBuf>, bufs: seq<Buf>) {
    && |buf| == |bufs| == NBUF
    && forall i :: 0 <= i < NBUF ==> MatchBuf(g, d, buf[i], bufs[i])
  }

  lemma SameBuffers(g: Geometry, d: Disk, buf: seq<CBuf>, bufs: seq<Buf>)
    requires MatchAll(g, d, buf, bufs)
    ensures |buf| == |bufs| == NBUF
  {
  }

  lemma SetMatch(g: Geometry, d: Disk, buf: seq<CBuf>, bufs: seq<Buf>, i: nat, c: CBuf, b: Buf)
    requires MatchAll(g, d, buf, bufs) && i < NBUF && MatchBuf(g, d, c, b)
    ensures MatchAll(g, d, buf[i := c], bufs[i := b])
  {
    hide MatchBuf;
  }

  /** Process t's bread of b in buffer i: the events Bget and Lock, and Fill on a miss. */
  ghost predicate ReadEvents(s: State, t: nat, b: int, i: nat, s': State)
    requires Shape(s)
  {
    && Enabled(s, Bget(t, b, i))
    && var s1 := Do(s, Bget(t, b, i));
      && Shape(s1) && Enabled(s1, Lock(t, i))
      && var s2 := Do(s1, Lock(t, i));
        && Shape(s2)
        && if s2.bufs[i].valid then s' == s2 else Enabled(s2, Fill(t, i)) && s' == Do(s2, Fill(t, i))
  }

  lemma ReadHappens(s: State, t: nat, b: int, i: nat) returns (s': State)
    requires Inv(s) && Enabled(s, Bget(t, b, i)) && s.bufs[i].owner == None
    ensures ReadEvents(s, t, b, i, s') && Inv(s') && s'.k == s.k
    ensures var o := s.bufs[i];
      var hit := o.blockno == b && o.valid;
      s'.bufs == s.bufs[i := GetBuf(o, t, b).(owner := Some(t), valid := true,
                                              data := if hit then o.data else s.k.disk[b])]
    ensures s'.bufs[i].data == Cur(s.k, b) && !s'.bufs[i].dirty
  {
    GetHappens(s, t, b, i);
    hide Inv, Shape;
    var s1 := Do(s, Bget(t, b, i));
    assert s1.bufs[i].owner == None && t in s1.bufs[i].holders && s1.bufs[i].blockno == b;
    LockHappens(s1, t, i);
    var s2 := Do(s1, Lock(t, i));
    if s2.bufs[i].valid {
      s' := s2;
    } else {
      FillHappens(s2, t, i);
      s' := Do(s2, Fill(t, i));
    }
    CleanIsCurrent(s, s', i);
  }

  lemma CleanIsCurrent(s: State, s': State, i: nat)
    requires Inv(s) && Inv(s') && s'.k == s.k && i < NBUF && s.bufs[i].owner == None
    requires s'.bufs[i].valid && s'.bufs[i].dirty == s.bufs[i].dirty
    ensures s'.bufs[i].data == Cur(s.k, s'.bufs[i].blockno) && !s'.bufs[i].dirty
  {
    assert BufOk(s.k, i, s.bufs[i]);
    assert BufOk(s'.k, i, s'.bufs[i]);
  }

  lemma GetHappens(s: State, t: nat, b: int, i: nat)
    requires Inv(s) && Enabled(s, Bget(t, b, i))
    ensures IsHome(s.k.g, b) && t < |s.k.active| && i < NBUF && |s.bufs| == NBUF && |s.k.disk| == s.k.g.blocks
    ensures Inv(Do(s, Bget(t, b, i))) && Shape(Do(s, Bget(t, b, i)))
  {
    BgetKeeps(s, t, b, i);
  }

  lemma LockHappens(s: State, t: nat, i: nat)
    requires Inv(s) && t < |s.k.active| && i < NBUF && t in s.bufs[i].holders && s.bufs[i].owner == None
    ensures Shape(s) && Enabled(s, Lock(t, i)) && Inv(Do(s, Lock(t, i))) && Shape(Do(s, Lock(t, i)))
  {
    OwnerKeeps(s, Lock(t, i));
  }

  lemma FillHappens(s: State, t: nat, i: nat)
    requires Inv(s) && Owns(s, t, i) && !s.bufs[i].valid && IsHome(s.k.g, s.bufs[i].blockno)
    ensures Shape(s) && Enabled(s, Fill(t, i)) && Inv(Do(s, Fill(t, i)))
  {
    OwnerKeeps(s, Fill(t, i));
  }

  /** The list after log_write of block b. */
  function Appended(lh: seq<int>, b: int): seq<int> {
    if Find(lh, b) < |lh| then lh else lh + [b]
  }

  function LogCBuf(lh: seq<int>, c: CBuf): CBuf {
    if Find(lh, c.blockno) < |lh| then c else c.(refcnt := Inc(c.refcnt))
  }

  function ReleasedBuf(b: Buf, t: nat): Buf {
    b.(owner := None, refcnt := Dec(b.refcnt), holders := b.holders - {t})
  }

  lemma ReleaseHappens(s: State, t: nat, i: nat)
    requires Inv(s) && Owns(s, t, i) && !s.bufs[i].dirty
    ensures IsHome(s.k.g, s.bufs[i].blockno) || s.bufs[i].blockno == 0
    ensures Shape(s) && Enabled(s, Unlock(t, i)) && Shape(Do(s, Unlock(t, i)))
    ensures Enabled(Do(s, Unlock(t, i)), Unref(t, i))
    ensures var r := Do(Do(s, Unlock(t, i)), Unref(t, i));
      Inv(r) && r.k == s.k && r.bufs == s.bufs[i := ReleasedBuf(s.bufs[i], t)]
  {
    assert BufOk(s.k, i, s.bufs[i]);
    OwnerKeeps(s, Unlock(t, i));
    UnrefKeeps(Do(s, Unlock(t, i)), t, i);
  }

  /** The buffer that bread chose is one the event Bget may choose. */
  lemma BreadMatches(s: State, d: Disk, buf: seq<CBuf>, t: nat, b: int, i: nat)
    requires Inv(s) && MatchAll(s.k.g, d, buf, s.bufs) && d == s.k.disk && t < |s.k.active| && IsHome(s.k.g, b)
    requires Lockable(buf, b) && Usable(buf, b, i) && (s.bufs[i].blockno == b ==> t !in s.bufs[i].holders)
    ensures Shape(s) && Enabled(s, Bget(t, b, i)) && s.bufs[i].owner == None
    ensures var o := s.bufs[i];
      var hit := o.blockno == b && o.valid;
      MatchBuf(s.k.g, d, Read(buf[i], b, d),
               GetBuf(o, t, b).(owner := Some(t), valid := true, data := if hit then o.data else d[b]))
  {
    assert BufOk(s.k, i, s.bufs[i]);
    assert MatchBuf(s.k.g, d, buf[i], s.bufs[i]);
  }

  lemma LogWriteHappens(s: State, t: nat, i: nat)
    requires Inv(s) && Owns(s, t, i) && s.bufs[i].valid && s.k.active[t] && LogWriteChecks(s.k)
    requires s.bufs[i].blockno in s.k.lh || s.k.budget[t] > 0
    ensures IsHome(s.k.g, s.bufs[i].blockno)
    ensures Shape(s) && Enabled(s, Event.LogWrite(t, i)) && Inv(Do(s, Event.LogWrite(t, i)))
    ensures var k := Do(s, Event.LogWrite(t, i)).k;
      && k.g == s.k.g && k.disk == s.k.disk && k.outstanding == s.k.outstanding && k.committing == s.k.committing
      && k.lh == if Find(s.k.lh, s.bufs[i].blockno) < |s.k.lh| then s.k.lh else s.k.lh + [s.bufs[i].blockno]
    ensures Do(s, Event.LogWrite(t, i)).bufs == s.bufs[i := LogBuf(s.k, s.bufs[i])]
  {
    LogWriteKeeps(s, t, i);
    assert BufOk(s.k, i, s.bufs[i]);
  }

  lemma LogWriteMatches(g: Geometry, s: State, d: Disk, buf: seq<CBuf>, t: nat, i: nat)
    requires Inv(s) && Owns(s, t, i) && s.bufs[i].valid && s.k.active[t] && LogWriteChecks(s.k)
    requires MatchAll(g, d, buf, s.bufs) && d == s.k.disk && g == s.k.g
    requires buf[i].blockno in s.k.lh || s.k.budget[t] > 0
    ensures Shape(s) && Enabled(s, Event.LogWrite(t, i)) && Inv(Do(s, Event.LogWrite(t, i)))
    ensures var s' := Do(s, Event.LogWrite(t, i));
      && s'.k.g == g && s'.k.disk == d && s'.k.outstanding == s.k.outstanding && s'.k.committing == s.k.committing
      && s'.k.lh == (if Find(s.k.lh, buf[i].blockno) < |s.k.lh| then s.k.lh else s.k.lh + [buf[i].blockno])
      && MatchAll(g, d, buf[i := LogCBuf(s.k.lh, buf[i])], s'.bufs)
  {
    assert MatchBuf(g, d, buf[i], s.bufs[i]);
    hide Inv, Do, Enabled, Shape;
    LogWriteHappens(s, t, i);
    SetMatch(g, d, buf, s.bufs, i, LogCBuf(s.k.lh, buf[i]), LogBuf(s.k, s.bufs[i]));
  }

  // ---------- buffers of the log area ----------

  /** A released buffer that agrees with the disk. */
  function Clean(b: int, data: Block): CBuf {
    CBuf(b, true, 0, false, data)
  }

  predicate InLog(g: Geometry, b: int) {
    g.start <= b < g.start + g.size
  }

  /** Reading, changing, writing and releasing a block of the log area. */
  lemma EvictMatches(g: Geometry, s: State, d: Disk, buf: seq<CBuf>, t: nat, b: int, x: Block)
    requires Inv(s) && MatchAll(g, d, buf, s.bufs) && g == s.k.g && d == s.k.disk
    requires UniqueC(buf) && t < NBUF && InLog(g, b) && Usable(buf, b, t)
    ensures Shape(s) && Enabled(s, Evict(t)) && Inv(Do(s, Evict(t))) && Do(s, Evict(t)).k == s.k
    ensures MatchAll(g, d[b := x], buf[t := Clean(b, x)], Do(s, Evict(t)).bufs)
    ensures UniqueC(buf[t := Clean(b, x)])
    ensures buf[t].refcnt == 0 && !buf[t].locked && (buf[t].blockno == b && buf[t].valid ==> buf[t].data == d[b])
  {
    assert MatchBuf(g, d, buf[t], s.bufs[t]);
    assert BufOk(s.k, t, s.bufs[t]);
    EvictKeeps(s, t);
    EvictedBufs(g, d, buf, s.bufs, t, b, x);
  }

  lemma EvictedBufs(g: Geometry, d: Disk, buf: seq<CBuf>, bufs: seq<Buf>, t: nat, b: int, x: Block)
    requires MatchAll(g, d, buf, bufs) && UniqueC(buf) && t < NBUF && InLog(g, b) && 0 < b < |d|
    requires buf[t].blockno == b || NoneHolds(buf, b)
    ensures MatchAll(g, d[b := x], buf[t := Clean(b, x)], bufs[t := EmptyBuf()])
    ensures UniqueC(buf[t := Clean(b, x)])
  {
    forall i | 0 <= i < NBUF && i != t ensures MatchBuf(g, d[b := x], buf[i], bufs[i]) {
      assert MatchBuf(g, d, buf[i], bufs[i]);
      assert buf[i].blockno != b by { if i < t { assert buf[i].blockno != b; } else { assert buf[i].blockno != b; } }
    }
  }

  /** The buffer of a logged block is pinned, clean and holds what log_write saw. */
  lemma PinnedBuf(s: State, tail: nat)
    requires Inv(s) && s.k.committing && Uninstalled(s.k.phase) <= tail < |s.k.lh|
    ensures var b := s.bufs[s.k.slot[tail]];
      && b.blockno == s.k.lh[tail] && b.valid && b.data == s.k.logged[tail]
      && 1 <= b.refcnt < UINT_RANGE - 1 && b.pin == Some(tail)
  {
    var i := s.k.slot[tail];
    assert BufOk(s.k, i, s.bufs[i]);
    Quiet(s, i);
    BelowCard(s.bufs[i].holders, |s.k.active|);
    FindDistinct(s.k.lh, tail);
  }

  /** Where the two reads of a write_log or install_trans iteration land. */
  lemma CopyFacts(g: Geometry, s: State, d: Disk, buf: seq<CBuf>, tail: nat)
    requires Inv(s) && MatchAll(g, d, buf, s.bufs) && g == s.k.g && d == s.k.disk && UniqueC(buf)
    requires s.k.phase != Idle && Uninstalled(s.k.phase) <= tail < |s.k.lh|
    ensures Shape(s) && |s.k.slot| == |s.k.lh| && s.k.slot[tail] < NBUF
    ensures forall i :: 0 <= i < NBUF && buf[i].refcnt == 0 ==> !buf[i].locked
    ensures var c := buf[s.k.slot[tail]];
      && c.blockno == s.k.lh[tail] && c.valid && c.data == s.k.logged[tail] && 1 <= c.refcnt < UINT_RANGE - 1
      && IsHome(g, s.k.lh[tail]) && InLog(g, g.start + tail + 1) && 0 < g.start + tail + 1 < |d|
      && (forall i :: 0 <= i < NBUF && buf[i].blockno == s.k.lh[tail] ==> i == s.k.slot[tail])
      && (forall i :: 0 <= i < NBUF && InLog(g, buf[i].blockno) ==> buf[i].refcnt == 0 && !buf[i].locked)
  {
    var f := s.k.slot[tail];
    PinnedBuf(s, tail);
    assert IsHome(g, s.k.lh[tail]);
    assert MatchBuf(g, d, buf[f], s.bufs[f]);
    forall i | 0 <= i < NBUF
      ensures (InLog(g, buf[i].blockno) ==> buf[i].refcnt == 0) && (buf[i].refcnt == 0 ==> !buf[i].locked)
    {
      assert MatchBuf(g, d, buf[i], s.bufs[i]);
      assert BufOk(s.k, i, s.bufs[i]);
    }
  }

  lemma CopyMatches(g: Geometry, s: State, d: Disk, buf: seq<CBuf>, tail: nat, to: nat)
    requires Inv(s) && MatchAll(g, d, buf, s.bufs) && g == s.k.g && d == s.k.disk && UniqueC(buf)
    requires s.k.phase == Copying(tail) && tail < |s.k.lh| && !buf[s.k.slot[tail]].locked
    requires Usable(buf, g.start + 1 + tail, to)
    ensures var x := s.k.logged[tail];
      var b := g.start + 1 + tail;
      && Enabled(s, Evict(to)) && Shape(Do(s, Evict(to))) && Enabled(Do(s, Evict(to)), CopyOne)
      && var r := Do(Do(s, Evict(to)), CopyOne);
        && Inv(r) && r.k == s.k.(disk := d[b := x], phase := Copying(tail + 1))
        && MatchAll(g, d[b := x], buf[to := Clean(b, x)], r.bufs)
    ensures UniqueC(buf[to := Clean(g.start + 1 + tail, s.k.logged[tail])])
    ensures to != s.k.slot[tail] && buf[to].refcnt == 0 && !buf[to].locked
  {
    var b := g.start + 1 + tail;
    var f := s.k.slot[tail];
    CopyFacts(g, s, d, buf, tail);
    EvictMatches(g, s, d, buf, to, b, s.k.logged[tail]);
    assert MatchBuf(g, d, buf[f], s.bufs[f]);
    hide MatchAll, MatchBuf, UniqueC, Inv, Enabled, EnvOk;
    assert Do(s, Evict(to)).bufs[f] == s.bufs[f];
    CopyHappens(Do(s, Evict(to)), tail);
  }

  lemma CopyHappens(s: State, tail: nat)
    requires Inv(s) && s.k.phase == Copying(tail) && tail < |s.k.lh| && s.bufs[s.k.slot[tail]].owner == None
    ensures Enabled(s, CopyOne) && Inv(Do(s, CopyOne)) && Do(s, CopyOne).bufs == s.bufs
    ensures Do(s, CopyOne).k ==
      s.k.(disk := s.k.disk[s.k.g.start + 1 + tail := s.k.logged[tail]], phase := Copying(tail + 1))
  {
    CopyOneKeeps(s);
    PinnedBuf(s, tail);
  }

  lemma InstallMatches(g: Geometry, s: State, d: Disk, buf: seq<CBuf>, tail: nat, l: nat)
    requires Inv(s) && MatchAll(g, d, buf, s.bufs) && g == s.k.g && d == s.k.disk && UniqueC(buf)
    requires s.k.phase == Installing(tail) && tail < |s.k.lh| && !buf[s.k.slot[tail]].locked
    requires Usable(buf, g.start + 1 + tail, l)
    ensures Enabled(s, Evict(l)) && Shape(Do(s, Evict(l))) && Enabled(Do(s, Evict(l)), InstallOne)
    ensures var r := Do(Do(s, Evict(l)), InstallOne);
      var f := s.k.slot[tail];
      var x := d[g.start + 1 + tail];
      && Inv(r) && r.k == InstallEnv(s.k)
      && MatchAll(g, d[s.k.lh[tail] := x],
                  buf[l := Clean(g.start + 1 + tail, x)][f := buf[f].(data := x, refcnt := Dec(buf[f].refcnt))], r.bufs)
  {
    var b := g.start + 1 + tail;
    CopyFacts(g, s, d, buf, tail);
    EvictMatches(g, s, d, buf, l, b, d[b]);
    hide Inv, MatchAll, MatchBuf, UniqueC, Enabled, Do, InstallEnv;
    assert d[b := d[b]] == d;
    InstalledHome(g, Do(s, Evict(l)), buf[l := Clean(b, d[b])], tail);
  }

  lemma InstalledHome(g: Geometry, s: State, buf: seq<CBuf>, tail: nat)
    requires Inv(s) && MatchAll(g, s.k.disk, buf, s.bufs) && g == s.k.g
    requires s.k.phase == Installing(tail) && tail < |s.k.lh| && buf[s.k.slot[tail]].blockno == s.k.lh[tail]
    requires !buf[s.k.slot[tail]].locked
    ensures Enabled(s, InstallOne) && Inv(Do(s, InstallOne)) && Do(s, InstallOne).k == InstallEnv(s.k)
    ensures var f := s.k.slot[tail];
      var x := s.k.disk[g.start + 1 + tail];
      MatchAll(g, s.k.disk[s.k.lh[tail] := x],
               buf[f := buf[f].(data := x, refcnt := Dec(buf[f].refcnt))], Do(s, InstallOne).bufs)
  {
    var f := s.k.slot[tail];
    assert MatchBuf(g, s.k.disk, buf[f], s.bufs[f]);
    InstallOneKeeps(s);
    var x := s.k.disk[g.start + 1 + tail];
    assert IsHome(g, s.k.lh[tail]);
    forall i | 0 <= i < NBUF ensures MatchBuf(g, s.k.disk[s.k.lh[tail] := x], buf[i], s.bufs[i]) {
      assert MatchBuf(g, s.k.disk, buf[i], s.bufs[i]);
    }
    var c := buf[f].(data := x, refcnt := Dec(buf[f].refcnt));
    SetMatch(g, s.k.disk[s.k.lh[tail] := x], buf, s.bufs, f, c, Do(s, InstallOne).bufs[f]);
  }

  /** The header write that commits, and the one that erases the log. */
  lemma HeadMatches(g: Geometry, s: State, d: Disk, buf: seq<CBuf>, h: nat, bs: seq<int>, e: Event)
    requires Inv(s) && MatchAll(g, d, buf, s.bufs) && g == s.k.g && d == s.k.disk && UniqueC(buf)
    requires Usable(buf, g.start, h)
    requires (e == WriteHead && bs == s.k.lh) || (e == ClearHead && bs == [])
    requires Enabled(s, e)
    ensures Enabled(s, Evict(h)) && Shape(Do(s, Evict(h))) && Enabled(Do(s, Evict(h)), e) && |bs| <= LOGSIZE
    ensures var r := Do(Do(s, Evict(h)), e);
      var x := PutHeader(d[g.start], bs);
      && Inv(r) && r.k == Do(s, e).k
      && MatchAll(g, d[g.start := x], buf[h := Clean(g.start, x)], r.bufs)
  {
    EvictMatches(g, s, d, buf, h, g.start, PutHeader(d[g.start], bs));
    StepKeeps(Do(s, Evict(h)), e);
  }

  /** new is old followed by the disks after the first k writes of the commit. */
  ghost predicate CommitTrace(g: Geometry, d: Disk, bs: seq<int>, cs: seq<Block>, k: nat, old_: seq<Disk>,
                              new_: seq<Disk>)
    requires WellFormed(g, d) && Loggable(g, bs) && |bs| == |cs| && k <= 2 * |bs| + 2
  {
    && |new_| == |old_| + k && old_ <= new_
    && forall i :: |old_| <= i < |new_| ==> new_[i] == CommitState(g, d, bs, cs, i - |old_| + 1)
  }

  lemma LogBufsClean(g: Geometry, s: State, d: Disk, buf: seq<CBuf>, b: int)
    requires Inv(s) && MatchAll(g, d, buf, s.bufs) && g == s.k.g && d == s.k.disk && InLog(g, b)
    ensures 0 < b < |d|
    ensures forall i :: 0 <= i < NBUF && buf[i].blockno == b ==>
      buf[i].refcnt == 0 && !buf[i].locked && (buf[i].valid ==> buf[i].data == d[b])
    ensures forall i :: 0 <= i < NBUF && buf[i].refcnt == 0 ==> !buf[i].locked
  {
    forall i | 0 <= i < NBUF
      ensures buf[i].blockno == b ==> buf[i].refcnt == 0 && (buf[i].valid ==> buf[i].data == d[b])
      ensures buf[i].refcnt == 0 ==> !buf[i].locked
    {
      assert MatchBuf(g, d, buf[i], s.bufs[i]);
      assert BufOk(s.k, i, s.bufs[i]);
    }
  }

  lemma TraceStep(g: Geometry, d: Disk, bs: seq<int>, cs: seq<Block>, k: nat, old_: seq<Disk>, new_: seq<Disk>, x: Disk)
    requires WellFormed(g, d) && Loggable(g, bs) && |bs| == |cs| && k < 2 * |bs| + 2
    requires CommitTrace(g, d, bs, cs, k, old_, new_) && x == CommitState(g, d, bs, cs, k + 1)
    ensures CommitTrace(g, d, bs, cs, k + 1, old_, new_ + [x])
  {
    hide CommitState;
  }

  lemma StartTrace(g: Geometry, d: Disk, bs: seq<int>, cs: seq<Block>, t: seq<Disk>)
    requires WellFormed(g, d) && Loggable(g, bs) && |bs| == |cs|
    ensures CommitTrace(g, d, bs, cs, 0, t, t) && CommitState(g, d, bs, cs, 0) == d
  {
  }

  lemma TraceStart(g: Geometry, d: Disk, bs: seq<int>, cs: seq<Block>, t: seq<Disk>, u: seq<Disk>)
    requires WellFormed(g, d) && Loggable(g, bs) && |bs| == |cs| && CommitTrace(g, d, bs, cs, 0, t, u)
    ensures t == u
  {
  }

  lemma CopyState(g: Geometry, d: Disk, bs: seq<int>, cs: seq<Block>, tail: nat)
    requires WellFormed(g, d) && Loggable(g, bs) && |bs| == |cs| && tail < |bs|
    ensures g.start + 1 + tail < |d|
    ensures CommitState(g, d, bs, cs, tail + 1) == CommitState(g, d, bs, cs, tail)[g.start + 1 + tail := cs[tail]]
  {
  }

  lemma HeadState(g: Geometry, d: Disk, bs: seq<int>, cs: seq<Block>)
    requires WellFormed(g, d) && Loggable(g, bs) && |bs| == |cs|
    ensures CommitState(g, d, bs, cs, |bs| + 1) == WriteHeader(g, CommitState(g, d, bs, cs, |bs|), bs)
    ensures CommitState(g, d, bs, cs, 2 * |bs| + 2) == WriteHeader(g, CommitState(g, d, bs, cs, 2 * |bs| + 1), [])
  {
  }

  lemma InstallState(k: Env, d: Disk, cs: seq<Block>, tail: nat)
    requires InstallReady(k) && WellFormed(k.g, d) && Loggable(k.g, k.lh) && |k.lh| == |cs| && k.phase.tail == tail
    requires k.disk == CommitState(k.g, d, k.lh, cs, |k.lh| + 1 + tail)
    ensures InstallEnv(k) == k.(disk := CommitState(k.g, d, k.lh, cs, |k.lh| + 2 + tail), phase := Installing(tail + 1))
  {
  }

  lemma HeadReady(s: State, e: Event)
    requires Inv(s) && |s.k.lh| > 0
    requires (e == WriteHead && s.k.phase == Copying(|s.k.lh|)) || (e == ClearHead && s.k.phase == Installing(|s.k.lh|))
    ensures Enabled(s, e)
    ensures Do(s, e).k == if e.WriteHead?
      then s.k.(disk := WriteHeader(s.k.g, s.k.disk, s.k.lh), phase := Installing(0))
      else s.k.(disk := WriteHeader(s.k.g, s.k.disk, []), lh := [], logged := [], slot := [], phase := Committed)
  {
  }

  lemma FinishCommit(s: State)
    requires Inv(s) && (s.k.phase == Committed || (s.k.phase == Copying(0) && s.k.lh == []))
    ensures Shape(s) && Enabled(s, CommitDone) && Inv(Do(s, CommitDone))
    ensures Do(s, CommitDone) == s.(k := s.k.(committing := false, phase := Idle))
  {
    CommitDoneKeeps(s);
  }

  lemma InvFacts(s: State)
    requires Inv(s)
    ensures WellFormed(s.k.g, s.k.disk) && Loggable(s.k.g, s.k.lh) && |s.k.logged| == |s.k.lh| && Shape(s)
    ensures s.k.committing <==> s.k.phase != Idle
    ensures !s.k.phase.Installing? ==> HeaderBlocks(s.k.disk[s.k.g.start]) == []
  {
  }

  // ---------- recovery ----------

  /** A buffer during recovery, when the first tail blocks of bs have been installed:
      free and clean, or left behind by install_trans with a wrapped refcnt. */
  ghost predicate BootBuf(g: Geometry, d: Disk, bs: seq<int>, tail: nat, c: CBuf)
    requires tail <= |bs|
  {
    || (&& (InLog(g, c.blockno) || c.blockno == 0) && c.refcnt == 0 && !c.locked
        && (c.valid ==> 0 < c.blockno < |d| && c.data == d[c.blockno]))
    || (&& c.blockno in bs[..tail] && 0 < c.blockno < |d|
        && c == Clean(c.blockno, d[c.blockno]).(refcnt := UINT_RANGE - 1))
  }

  ghost predicate BootBufs(g: Geometry, d: Disk, bs: seq<int>, tail: nat, buf: seq<CBuf>) {
    && tail <= |bs| && |buf| == NBUF
    && (forall i :: 0 <= i < NBUF ==> BootBuf(g, d, bs, tail, buf[i]))
    && (forall j :: 0 <= j < tail ==> exists i :: 0 <= i < NBUF && buf[i].blockno == bs[j])
  }

  lemma {:induction false} SeqCard(bs: seq<int>)
    ensures |set b | b in bs| <= |bs|
  {
    if bs != [] {
      var n := |bs| - 1;
      SeqCard(bs[..n]);
      assert (set b | b in bs) == (set b | b in bs[..n]) + {bs[n]};
    }
  }

  lemma {:induction false} InjectCard(buf: seq<CBuf>, xs: set<nat>)
    requires forall i :: i in xs ==> i < |buf|
    requires forall i, j :: i in xs && j in xs && i != j ==> buf[i].blockno != buf[j].blockno
    ensures |set i | i in xs :: buf[i].blockno| == |xs|
  {
    if xs != {} {
      var x :| x in xs;
      InjectCard(buf, xs - {x});
      assert (set i | i in xs :: buf[i].blockno) == (set i | i in xs - {x} :: buf[i].blockno) + {buf[x].blockno};
    }
  }

  ghost function Range(n: nat): (r: set<nat>)
    ensures |r| == n
    ensures forall i :: i in r <==> 0 <= i < n
  {
    if n == 0 then {} else Range(n - 1) + {n - 1}
  }

  lemma BusyCard(buf: seq<CBuf>, bs: seq<int>, busy: set<nat>)
    requires UniqueC(buf) && forall i :: i in busy ==> i < |buf| && buf[i].blockno != 0 && buf[i].blockno in bs
    ensures |busy| <= |bs|
  {
    InjectCard(buf, busy);
    SeqCard(bs);
    SubsetCard(set i | i in busy :: buf[i].blockno, set b | b in bs);
  }

  /** Only blocks already installed occupy buffers for good, one each. */
  lemma TwoFree(g: Geometry, d: Disk, bs: seq<int>, tail: nat, buf: seq<CBuf>)
    requires BootBufs(g, d, bs, tail, buf) && UniqueC(buf) && AtMostOneFree(buf)
    ensures tail >= NBUF - 1
  {
    hide AtMostOneFree, UniqueC;
    var busy := set i | i in Range(NBUF) && buf[i].refcnt != 0;
    forall i | i in busy ensures buf[i].blockno != 0 && buf[i].blockno in bs[..tail] {
      assert BootBuf(g, d, bs, tail, buf[i]);
    }
    hide BootBufs, BootBuf;
    BusyCard(buf, bs[..tail], busy);
    AlmostAll(buf, busy);
  }

  /** Every installed block holds a buffer of its own, so after NBUF - 1 of them at most
      one buffer is left. */
  lemma BootFull(g: Geometry, d: Disk, bs: seq<int>, tail: nat, buf: seq<CBuf>)
    requires BootBufs(g, d, bs, tail, buf) && Loggable(g, bs) && tail >= NBUF - 1
    ensures AtMostOneFree(buf)
  {
    hide BootBufs, Loggable, AtMostOneFree;
    BootTail(g, d, bs, tail, buf);
    var busy := set i | i in Range(NBUF) && buf[i].refcnt != 0;
    forall b | b in bs[..tail] ensures b in (set i | i in busy :: buf[i].blockno) {
      BootHolds(g, d, bs, tail, buf, b);
    }
    DistinctCard(bs[..tail]);
    ImageCard(buf, busy);
    SubsetCard(set b | b in bs[..tail], set i | i in busy :: buf[i].blockno);
    NearlyAll(buf, busy);
  }

  lemma BootTail(g: Geometry, d: Disk, bs: seq<int>, tail: nat, buf: seq<CBuf>)
    requires BootBufs(g, d, bs, tail, buf) && Loggable(g, bs)
    ensures |buf| == NBUF && tail <= |bs| && forall i, j :: 0 <= i < j < tail ==> bs[..tail][i] != bs[..tail][j]
  {
  }

  lemma BootHolds(g: Geometry, d: Disk, bs: seq<int>, tail: nat, buf: seq<CBuf>, b: int)
    requires BootBufs(g, d, bs, tail, buf) && Loggable(g, bs) && b in bs[..tail]
    ensures exists i :: 0 <= i < NBUF && buf[i].refcnt != 0 && buf[i].blockno == b
  {
    var j :| 0 <= j < tail && bs[j] == b;
    assert IsHome(g, bs[j]);
    var i :| 0 <= i < NBUF && buf[i].blockno == bs[j];
    assert BootBuf(g, d, bs, tail, buf[i]);
  }

  lemma NearlyAll(buf: seq<CBuf>, busy: set<nat>)
    requires |buf| == NBUF && |busy| >= NBUF - 1 && busy == set i | i in Range(NBUF) && buf[i].refcnt != 0
    ensures AtMostOneFree(buf)
  {
    forall i, j | 0 <= i < j < |buf| ensures buf[i].refcnt != 0 || buf[j].refcnt != 0 {
      if buf[i].refcnt == 0 && buf[j].refcnt == 0 {
        assert |busy + {i} + {j}| == |busy| + 2;
        SubsetCard(busy + {i} + {j}, Range(NBUF));
      }
    }
  }

  lemma {:induction false} DistinctCard(bs: seq<int>)
    requires forall i, j :: 0 <= i < j < |bs| ==> bs[i] != bs[j]
    ensures |set b | b in bs| == |bs|
  {
    if bs != [] {
      var n := |bs| - 1;
      DistinctCard(bs[..n]);
      assert (set b | b in bs) == (set b | b in bs[..n]) + {bs[n]};
    }
  }

  lemma {:induction false} ImageCard(buf: seq<CBuf>, xs: set<nat>)
    requires forall i :: i in xs ==> i < |buf|
    ensures |set i | i in xs :: buf[i].blockno| <= |xs|
  {
    if xs != {} {
      var x :| x in xs;
      ImageCard(buf, xs - {x});
      assert (set i | i in xs :: buf[i].blockno) == (set i | i in xs - {x} :: buf[i].blockno) + {buf[x].blockno};
    }
  }

  lemma AlmostAll(buf: seq<CBuf>, busy: set<nat>)
    requires |buf| == NBUF && AtMostOneFree(buf) && busy == set i | i in Range(NBUF) && buf[i].refcnt != 0
    ensures |busy| >= NBUF - 1
  {
    if busy != Range(NBUF) {
      var x :| x in Range(NBUF) && x !in busy;
      forall y | y in Range(NBUF) && y != x ensures y in busy { assert (y < x || x < y) && buf[x].refcnt == 0; }
      assert Range(NBUF) == busy + {x};
    }
  }

  lemma SubsetCard<T>(a: set<T>, b: set<T>)
    requires a <= b
    ensures |a| <= |b|
  {
    assert b == a + (b - a);
  }

  ghost predicate RecoverTrace(g: Geometry, d: Disk, k: nat, old_: seq<Disk>, new_: seq<Disk>)
    requires WellFormed(g, d) && k <= |HeaderBlocks(d[g.start])| + 1
  {
    && |new_| == |old_| + k && old_ <= new_
    && forall i :: |old_| <= i < |new_| ==> new_[i] == RecoverState(g, d, i - |old_| + 1)
  }

  lemma RecoverTraceStep(g: Geometry, d: Disk, k: nat, old_: seq<Disk>, new_: seq<Disk>, x: Disk)
    requires WellFormed(g, d) && k <= |HeaderBlocks(d[g.start])| && RecoverTrace(g, d, k, old_, new_)
    requires x == RecoverState(g, d, k + 1)
    ensures RecoverTrace(g, d, k + 1, old_, new_ + [x])
  {
    hide RecoverState, WellFormed;
  }

  /** A buffer that recovery leaves alone. */
  lemma BootKept(g: Geometry, d: Disk, bs: seq<int>, tail: nat, c: CBuf, x: Block)
    requires tail < |bs| && 0 <= bs[tail] < |d| && BootBuf(g, d, bs, tail, c) && c.blockno != bs[tail]
    ensures BootBuf(g, d[bs[tail] := x], bs, tail + 1, c)
  {
    if c.blockno in bs[..tail] {
      var j :| 0 <= j < tail && bs[j] == c.blockno;
      assert bs[..tail + 1][j] == bs[j];
    }
  }

  /** The two buffers of one round: the log block's is clean again, the home block's is left
      with a wrapped count. */
  lemma BootRound(g: Geometry, d: Disk, bs: seq<int>, tail: nat, c: CBuf, x: Block)
    requires ValidGeometry(g) && |d| == g.blocks && tail < |bs| && IsHome(g, bs[tail])
    requires InLog(g, g.start + 1 + tail) && g.start + 1 + tail < |d| && x == d[g.start + 1 + tail]
    requires InstalledBuf(c, bs[tail], d, x) == Clean(bs[tail], x).(refcnt := UINT_RANGE - 1)
    ensures 0 < bs[tail] < |d|
    ensures BootBuf(g, d[bs[tail] := x], bs, tail + 1, Clean(g.start + 1 + tail, x))
    ensures BootBuf(g, d[bs[tail] := x], bs, tail + 1, InstalledBuf(c, bs[tail], d, x))
  {
    assert bs[tail] == bs[..tail + 1][tail];
  }

  /** The blocks installed before still have their buffers. */
  lemma BootNamed(g: Geometry, d: Disk, bs: seq<int>, tail: nat, buf: seq<CBuf>, l: nat, f: nat, j: nat)
    returns (i: nat)
    requires Loggable(g, bs) && tail < |bs| && BootBufs(g, d, bs, tail, buf) && l < NBUF && f < NBUF && j < tail
    requires buf[l].refcnt == 0 && buf[f].refcnt == 0
    ensures i < NBUF && i != l && i != f && buf[i].blockno == bs[j]
  {
    i :| 0 <= i < NBUF && buf[i].blockno == bs[j];
    assert IsHome(g, bs[j]);
    assert BootBuf(g, d, bs, tail, buf[i]);
  }

  /** One more block installed. */
  lemma BootInstalled(g: Geometry, d: Disk, bs: seq<int>, tail: nat, buf: seq<CBuf>, l: nat, f: nat)
    requires ValidGeometry(g) && |d| == g.blocks && Loggable(g, bs) && tail < |bs| && BootBufs(g, d, bs, tail, buf)
    requires l != f && Usable(buf, g.start + 1 + tail, l) && Usable(buf, bs[tail], f)
    ensures 0 <= bs[tail] < |d| && g.start + 1 + tail < |d|
    ensures var x := d[g.start + 1 + tail];
      BootBufs(g, d[bs[tail] := x], bs, tail + 1,
               buf[l := Clean(g.start + 1 + tail, x)][f := InstalledBuf(buf[f], bs[tail], d, x)])
  {
    var b, h, x := g.start + 1 + tail, bs[tail], d[g.start + 1 + tail];
    assert IsHome(g, h);
    BootFresh(g, d, bs, tail, buf);
    assert BootBuf(g, d, bs, tail, buf[f]) && BootBuf(g, d, bs, tail, buf[l]);
    InstalledUnpinned(buf[f], h, d, x);
    BootRound(g, d, bs, tail, buf[f], x);
    var new_ := buf[l := Clean(b, x)][f := InstalledBuf(buf[f], h, d, x)];
    forall i | 0 <= i < NBUF ensures BootBuf(g, d[h := x], bs, tail + 1, new_[i]) {
      if i != l && i != f { BootKept(g, d, bs, tail, buf[i], x); }
    }
    hide BootBuf;
    forall j | 0 <= j < tail + 1 ensures exists i :: 0 <= i < NBUF && new_[i].blockno == bs[j] {
      if j == tail {
        assert new_[f].blockno == bs[j];
      } else {
        var i := BootNamed(g, d, bs, tail, buf, l, f, j);
        assert new_[i].blockno == bs[j];
      }
    }
  }

  lemma BootWritable(g: Geometry, d: Disk, bs: seq<int>, tail: nat, buf: seq<CBuf>, b: int)
    requires ValidGeometry(g) && |d| == g.blocks && Loggable(g, bs) && BootBufs(g, d, bs, tail, buf) && InLog(g, b)
    ensures 0 < b < |d|
    ensures forall i :: 0 <= i < NBUF && (buf[i].blockno == b || buf[i].refcnt == 0) ==>
      buf[i].refcnt == 0 && !buf[i].locked && (buf[i].blockno == b && buf[i].valid ==> buf[i].data == d[b])
  {
    forall i | 0 <= i < NBUF && (buf[i].blockno == b || buf[i].refcnt == 0)
      ensures buf[i].refcnt == 0 && !buf[i].locked && (buf[i].blockno == b && buf[i].valid ==> buf[i].data == d[b])
    {
      assert BootBuf(g, d, bs, tail, buf[i]);
      if buf[i].blockno in bs[..tail] {
        var j :| 0 <= j < tail && bs[j] == buf[i].blockno;
        assert IsHome(g, bs[j]);
      }
    }
  }

  lemma BootHeader(g: Geometry, d: Disk, bs: seq<int>, tail: nat, buf: seq<CBuf>, h: nat, x: Block)
    requires ValidGeometry(g) && |d| == g.blocks && Loggable(g, bs) && BootBufs(g, d, bs, tail, buf)
    requires UniqueC(buf) && Usable(buf, g.start, h)
    ensures BootBufs(g, d[g.start := x], bs, tail, buf[h := Clean(g.start, x)])
  {
    var new_ := buf[h := Clean(g.start, x)];
    forall i | 0 <= i < NBUF ensures BootBuf(g, d[g.start := x], bs, tail, new_[i]) {
      assert BootBuf(g, d, bs, tail, buf[i]);
      if i == h {
        assert new_[i] == Clean(g.start, x) && InLog(g, g.start) && d[g.start := x][g.start] == x;
      } else if i < h {
        assert buf[i].blockno != g.start;
      } else {
        assert buf[i].blockno != g.start;
      }
    }
    BootWritable(g, d, bs, tail, buf, g.start);
    forall j | 0 <= j < tail ensures exists i :: 0 <= i < NBUF && new_[i].blockno == bs[j] {
      var i :| 0 <= i < NBUF && buf[i].blockno == bs[j];
      assert IsHome(g, bs[j]) && bs[..tail][j] == bs[j];
      assert BootBuf(g, d, bs, tail, buf[i]);
      assert i != h && new_[i].blockno == bs[j];
    }
    assert forall i :: 0 <= i < NBUF ==> BootBuf(g, d[g.start := x], bs, tail, new_[i]);
    assert forall j :: 0 <= j < tail ==> exists i :: 0 <= i < NBUF && new_[i].blockno == bs[j];
    assert |new_| == NBUF;
  }

  lemma OneFree(g: Geometry, d: Disk, bs: seq<int>, tail: nat, buf: seq<CBuf>)
    requires BootBufs(g, d, bs, tail, buf) && UniqueC(buf) && NoneFree(buf)
    ensures tail >= NBUF
  {
    forall i | i in Range(NBUF) ensures buf[i].blockno != 0 && buf[i].blockno in bs[..tail] {
      assert BootBuf(g, d, bs, tail, buf[i]);
    }
    BusyCard(buf, bs[..tail], Range(NBUF));
  }

  lemma RecoverBegin(g: Geometry, d: Disk, t: seq<Disk>)
    requires WellFormed(g, d)
    ensures RecoverTrace(g, d, 0, t, t) && RecoverState(g, d, 0) == d
    ensures Loggable(g, HeaderBlocks(d[g.start]))
  {
  }

  lemma {:induction false} HeaderStays(g: Geometry, d: Disk, k: nat)
    requires WellFormed(g, d) && k <= |HeaderBlocks(d[g.start])|
    ensures g.start < |RecoverState(g, d, k)| && RecoverState(g, d, k)[g.start] == d[g.start]
  {
    hide HeaderBlocks;
    RecoverBegin(g, d, []);
    if k > 0 {
      HeaderStays(g, d, k - 1);
      RecoverNext(g, d, k - 1);
      assert IsHome(g, HeaderBlocks(d[g.start])[k - 1]);
    }
  }

  lemma RecoverNext(g: Geometry, d: Disk, tail: nat)
    requires WellFormed(g, d) && tail < |HeaderBlocks(d[g.start])|
    ensures var bs := HeaderBlocks(d[g.start]);
      var p := RecoverState(g, d, tail);
      && 0 <= bs[tail] < |p| && g.start + 1 + tail < |p|
      && RecoverState(g, d, tail + 1) == p[bs[tail] := p[g.start + 1 + tail]]
  {
    assert IsHome(g, HeaderBlocks(d[g.start])[tail]);
  }

  lemma RecoverEnd(g: Geometry, d: Disk)
    requires WellFormed(g, d)
    ensures var n := |HeaderBlocks(d[g.start])|;
      Recover(g, d) == RecoverState(g, d, n + 1) == WriteHeader(g, RecoverState(g, d, n), [])
  {
  }

  lemma BootReady(g: Geometry, d: Disk, bs: seq<int>, tail: nat, buf: seq<CBuf>)
    requires ValidGeometry(g) && |d| == g.blocks && Loggable(g, bs) && tail < |bs| && BootBufs(g, d, bs, tail, buf)
    ensures var b := g.start + tail + 1;
      && 0 < b < |d| && 0 < bs[tail] < |d| && b != bs[tail] && NoneHolds(buf, bs[tail]) && Lockable(buf, bs[tail])
      && forall i :: 0 <= i < NBUF && (buf[i].blockno == b || buf[i].refcnt == 0) ==>
        buf[i].refcnt == 0 && !buf[i].locked && (buf[i].blockno == b && buf[i].valid ==> buf[i].data == d[b])
  {
    assert IsHome(g, bs[tail]);
    BootFresh(g, d, bs, tail, buf);
    BootWritable(g, d, bs, tail, buf, g.start + tail + 1);
  }

  /** A block not yet installed has no buffer. */
  lemma BootFresh(g: Geometry, d: Disk, bs: seq<int>, tail: nat, buf: seq<CBuf>)
    requires Loggable(g, bs) && tail < |bs| && BootBufs(g, d, bs, tail, buf)
    ensures NoneHolds(buf, bs[tail])
  {
    forall i | 0 <= i < NBUF ensures buf[i].blockno != bs[tail] {
      assert BootBuf(g, d, bs, tail, buf[i]);
      assert IsHome(g, bs[tail]);
    }
  }

  lemma HeaderRange(g: Geometry, d: Disk)
    requires WellFormed(g, d)
    ensures g.start < |d| && 0 <= d[g.start][0] <= LOGSIZE
  {
  }

  /** Reading the header leaves a clean buffer of the log area. */
  lemma HeaderRead(g: Geometry, d: Disk, buf: seq<CBuf>, h: nat)
    requires WellFormed(g, d) && BootBufs(g, d, [], 0, buf) && h < NBUF
    ensures g.start < |d| && BootBufs(g, d, [], 0, buf[h := Clean(g.start, d[g.start])])
  {
    assert BootBuf(g, d, [], 0, Clean(g.start, d[g.start]));
  }

  lemma RecoveredDisk(g: Geometry, d: Disk)
    requires WellFormed(g, d)
    ensures WellFormed(g, Recover(g, d)) && HeaderBlocks(Recover(g, d)[g.start]) == []
    ensures Loggable(g, HeaderBlocks(d[g.start]))
  {
    RecoverMeaning(g, d);
  }

  /** Buffers that recovery left behind for no block are those of a machine at boot. */
  lemma EmptyBoot(g: Geometry, d: Disk, buf: seq<CBuf>, threads: nat)
    requires WellFormed(g, d) && HeaderBlocks(d[g.start]) == [] && BootBufs(g, d, [], 0, buf)
    requires threads < UINT_RANGE - 2
    ensures Inv(Boot(g, d, threads)) && MatchAll(g, d, buf, Boot(g, d, threads).bufs)
    ensures var k := Boot(g, d, threads).k; k.g == g && k.disk == d && k.lh == [] && k.outstanding == 0 && !k.committing
  {
    BootOk(g, d, threads);
    forall i | 0 <= i < NBUF ensures MatchBuf(g, d, buf[i], EmptyBuf()) {
      assert BootBuf(g, d, [], 0, buf[i]);
    }
  }

  /** An installed block keeps a buffer with a wrapped count, which no state that
      satisfies the invariant has. */
  lemma WrappedBoot(g: Geometry, d: Disk, bs: seq<int>, buf: seq<CBuf>, s: State)
    requires BootBufs(g, d, bs, |bs|, buf) && Loggable(g, bs) && bs != [] && Inv(s)
    ensures !MatchAll(g, d, buf, s.bufs)
  {
    if MatchAll(g, d, buf, s.bufs) {
      assert bs[..|bs|][0] == bs[0] && IsHome(g, bs[0]);
      var i :| 0 <= i < NBUF && buf[i].blockno == bs[0];
      assert BootBuf(g, d, bs, |bs|, buf[i]) && MatchBuf(g, d, buf[i], s.bufs[i]);
      assert s.bufs[i].refcnt == UINT_RANGE - 1;
      assert BufOk(s.k, i, s.bufs[i]);
      BelowCard(s.bufs[i].holders, |s.k.active|);
    }
  }

  /** The machine can start on the buffers that recovery leaves exactly when it had
      nothing to install. */
  lemma CleanBootExact(g: Geometry, d: Disk, buf: seq<CBuf>, threads: nat)
    requires WellFormed(g, d) && threads < UINT_RANGE - 2
    requires var bs := HeaderBlocks(d[g.start]); BootBufs(g, Recover(g, d), bs, |bs|, buf)
    ensures (exists s: State :: Inv(s) && s.k.disk == Recover(g, d) && MatchAll(g, Recover(g, d), buf, s.bufs))
            <==> HeaderBlocks(d[g.start]) == []
  {
    RecoveredDisk(g, d);
    hide Inv, BootBufs, MatchAll, HeaderBlocks, WellFormed;
    if HeaderBlocks(d[g.start]) == [] {
      EmptyBoot(g, Recover(g, d), buf, threads);
    } else {
      forall s: State | Inv(s) ensures !MatchAll(g, Recover(g, d), buf, s.bufs) {
        WrappedBoot(g, Recover(g, d), HeaderBlocks(d[g.start]), buf, s);
      }
    }
  }

  class Kernel {
    const g: Geometry
    var disk: Disk
    var buf: seq<CBuf>
    var lru: seq<nat>
    var n: nat             // lh.n
    var block: seq<int>    // lh.block
    var outstanding: nat
    var committing: bool
    ghost var trace: seq<Disk>
    ghost var m: State

    constructor (g: Geometry, d: Disk)
      requires ValidGeometry(g) && |d| == g.blocks
      ensures this.g == g && disk == d && trace == [] && Ready()
      ensures forall i :: 0 <= i < NBUF ==> buf[i] == CBuf(0, false, 0, false, Zero())
      ensures n == 0 && outstanding == 0 && !committing
    {
      this.g := g;
      disk := d;
      // binit pushes each buffer at the head of the list
      buf := seq(NBUF, _ => CBuf(0, false, 0, false, Zero()));
      var order := seq(NBUF, k requires 0 <= k < NBUF => NBUF - 1 - k);
      lru := order;
      n, block, outstanding, committing := 0, seq(LOGSIZE, _ => 0), 0, false;
      trace := [];
      assert Order(order) by {
        forall i: nat | i < NBUF ensures i in order { assert order[NBUF - 1 - i] == i; }
      }
    }

    ghost predicate Ready()
      reads this
    {
      && ValidGeometry(g) && |disk| == g.blocks
      && |buf| == NBUF && Order(lru) && UniqueC(buf)
      && n <= LOGSIZE && |block| == LOGSIZE
    }

    function Lh(): seq<int>
      requires n <= |block|
      reads this
    {
      block[..n]
    }

    ghost predicate Matches()
      requires Ready()
      reads this
    {
      && m.k.g == g && m.k.disk == disk && m.k.lh == Lh()
      && m.k.outstanding == outstanding && m.k.committing == committing
      && MatchAll(g, disk, buf, m.bufs)
    }

    ghost predicate Valid()
      reads this
    {
      Ready() && Inv(m) && Matches()
    }

    // ---------- bio.c ----------

    /** None is the panic "bget: no buffers". */
    method Bget(b: int) returns (r: Option<nat>)
      requires Ready() && 0 < b < |disk| && Lockable(buf, b)
      modifies this`buf
      ensures Ready()
      ensures r == None <==> old(NoneHolds(buf, b) && NoneFree(buf))
      ensures r == None ==> buf == old(buf)
      ensures r.Some? ==> Usable(old(buf), b, r.value)
      ensures r.Some? && old(NoneHolds(buf, b)) ==> LeastRecent(old(buf), lru, r.value)
      ensures r.Some? ==> buf == old(buf)[r.value := Taken(old(buf[r.value]), b)]
    {
      var k := 0;
      while k < NBUF
        invariant 0 <= k <= NBUF
        invariant forall j :: 0 <= j < k ==> buf[lru[j]].blockno != b
        invariant buf == old(buf)
      {
        var i := lru[k];
        if buf[i].blockno == b {
          buf := buf[i := buf[i].(refcnt := Inc(buf[i].refcnt), locked := true)];
          return Some(i);
        }
        k := k + 1;
      }
      assert NoneHolds(buf, b) by {
        forall i | 0 <= i < NBUF ensures buf[i].blockno != b { var j := FindNat(lru, i); }
      }
      k := NBUF;
      while k > 0
        invariant 0 <= k <= NBUF
        invariant forall j :: k <= j < NBUF ==> buf[lru[j]].refcnt != 0
        invariant buf == old(buf)
      {
        k := k - 1;
        var i := lru[k];
        if buf[i].refcnt == 0 {
          buf := buf[i := buf[i].(blockno := b, valid := false, refcnt := 1, locked := true)];
          return Some(i);
        }
      }
      assert NoneFree(buf) by {
        forall i | 0 <= i < NBUF ensures buf[i].refcnt != 0 { var j := FindNat(lru, i); }
      }
      return None;
    }

    method Bread(b: int) returns (r: Option<nat>)
      requires Ready() && 0 < b < |disk| && Lockable(buf, b)
      modifies this`buf
      ensures Ready()
      ensures r == None <==> old(NoneHolds(buf, b) && NoneFree(buf))
      ensures r == None ==> buf == old(buf)
      ensures r.Some? ==> Usable(old(buf), b, r.value)
      ensures r.Some? && old(NoneHolds(buf, b)) ==> LeastRecent(old(buf), lru, r.value)
      ensures r.Some? ==> buf == old(buf)[r.value := Read(old(buf[r.value]), b, disk)]
    {
      r := Bget(b);
      if r.Some? && !buf[r.value].valid {
        buf := buf[r.value := buf[r.value].(valid := true, data := disk[b])];
      }
    }

    method Bwrite(i: nat)
      requires Ready() && i < NBUF && buf[i].locked && 0 <= buf[i].blockno < |disk|
      modifies this`disk, this`trace
      ensures Ready() && disk == old(disk)[buf[i].blockno := buf[i].data] && trace == old(trace) + [disk]
    {
      disk := disk[buf[i].blockno := buf[i].data];
      trace := trace + [disk];
    }

    method Brelse(i: nat)
      requires Ready() && i < NBUF && buf[i].locked
      modifies this`buf, this`lru
      ensures Ready() && buf == old(buf)[i := Released(old(buf[i]))]
      ensures lru == if buf[i].refcnt == 0 then MoveToFront(old(lru), i) else old(lru)
    {
      buf := buf[i := buf[i].(locked := false, refcnt := Dec(buf[i].refcnt))];
      if buf[i].refcnt == 0 {
        MoveToFrontOrder(lru, i);
        lru := MoveToFront(lru, i);
      }
    }

    method SetData(i: nat, data: Block)
      requires Ready() && i < NBUF && buf[i].locked
      modifies this`buf
      ensures Ready() && buf == old(buf)[i := old(buf[i]).(data := data)]
    {
      buf := buf[i := buf[i].(data := data)];
    }

    method Bpin(i: nat)
      requires Ready() && i < NBUF
      modifies this`buf
      ensures Ready() && buf == old(buf)[i := old(buf[i]).(refcnt := Inc(old(buf[i].refcnt)))]
    {
      buf := buf[i := buf[i].(refcnt := Inc(buf[i].refcnt))];
    }

    method Bunpin(i: nat)
      requires Ready() && i < NBUF
      modifies this`buf
      ensures Ready() && buf == old(buf)[i := old(buf[i]).(refcnt := Dec(old(buf[i].refcnt)))]
    {
      buf := buf[i := buf[i].(refcnt := Dec(buf[i].refcnt))];
    }

    // ---------- what file system code calls ----------

    /** bread by process t of a home block. The caller does not hold the block already;
        a block held by another process is waited for. None is the panic. */
    method ClientBread(t: nat, b: int) returns (r: Option<nat>)
      requires Valid() && t < |m.k.active| && IsHome(g, b) && Lockable(buf, b)
      requires forall i :: 0 <= i < NBUF && m.bufs[i].blockno == b ==> t !in m.bufs[i].holders
      modifies this`buf, this`m
      ensures Valid()
      ensures r == None <==> old(NoneHolds(buf, b) && NoneFree(buf))
      ensures r == None ==> buf == old(buf) && m == old(m)
      ensures r.Some? ==> r.value < NBUF && ReadEvents(old(m), t, b, r.value, m)
      ensures r.Some? ==> buf[r.value].blockno == b && buf[r.value].data == Cur(m.k, b)
      ensures r.Some? ==> Owns(m, t, r.value) && !m.bufs[r.value].dirty
    {
      hide Inv, Do, Enabled, MatchBuf, Order, UniqueC;
      ghost var was := buf;
      r := Bread(b);
      if r.Some? {
        ghost var i := r.value;
        BreadMatches(m, disk, was, t, b, i);
        ghost var s := ReadHappens(m, t, b, i);
        SetMatch(g, disk, was, m.bufs, i, buf[i], s.bufs[i]);
        m := s;
      }
    }

    /** The owner changes the block's data inside an operation. */
    method Modify(t: nat, i: nat, data: Block)
      requires Valid() && Owns(m, t, i) && m.bufs[i].valid && m.k.active[t]
      modifies this`buf, this`m
      ensures Valid() && Enabled(old(m), Event.Modify(t, i, data)) && m == Do(old(m), Event.Modify(t, i, data))
    {
      assert BufOk(m.k, i, m.bufs[i]);
      assert MatchBuf(g, disk, buf[i], m.bufs[i]);
      OwnerKeeps(m, Event.Modify(t, i, data));
      m := Do(m, Event.Modify(t, i, data));
      SetData(i, data);
    }

    /** brelse by the owner, after log_write if it changed the block. */
    method ClientBrelse(t: nat, i: nat)
      requires Valid() && Owns(m, t, i) && !m.bufs[i].dirty
      modifies this`buf, this`lru, this`m
      ensures Valid() && Enabled(old(m), Unlock(t, i))
      ensures var s := Do(old(m), Unlock(t, i)); Shape(s) && Enabled(s, Unref(t, i)) && m == Do(s, Unref(t, i))
    {
      hide Inv, Do, Enabled, Order, UniqueC, Shape;
      assert MatchBuf(g, disk, buf[i], m.bufs[i]);
      ReleaseHappens(m, t, i);
      SetMatch(g, disk, buf, m.bufs, i, Released(buf[i]), ReleasedBuf(m.bufs[i], t));
      m := Do(Do(m, Unlock(t, i)), Unref(t, i));
      Brelse(i);
    }

    /** log_write's search for an entry to absorb into. */
    method FindEntry(b: int) returns (j: nat)
      requires n <= |block|
      ensures j == Find(Lh(), b)
    {
      j := 0;
      while j < n && block[j] != b
        invariant 0 <= j <= n
        invariant forall q :: 0 <= q < j ==> block[q] != b
      {
        j := j + 1;
      }
    }

    /** False is one of the two panics. */
    method LogWrite(t: nat, i: nat) returns (ok: bool)
      requires Valid() && Owns(m, t, i) && m.bufs[i].valid && m.k.active[t]
      requires buf[i].blockno in Lh() || m.k.budget[t] > 0
      modifies this`n, this`block, this`buf, this`m
      ensures Valid()
      ensures ok <==> old(n < LOGSIZE && n < g.size - 1 && outstanding >= 1)
      ensures !ok ==> m == old(m)
      ensures ok ==> Enabled(old(m), Event.LogWrite(t, i)) && m == Do(old(m), Event.LogWrite(t, i))
    {
      hide Inv, Do, Enabled, Shape, Order, UniqueC, MatchBuf, Inc, LogCBuf, Find, MatchAll;
      SameBuffers(g, disk, buf, m.bufs);
      ghost var s := m;
      if n < LOGSIZE && n < g.size - 1 && outstanding >= 1 {
        LogWriteMatches(g, m, disk, buf, t, i);
      }
      ok := Append(i);
      if ok {
        m := Do(s, Event.LogWrite(t, i));
      }
    }

    /** log_write without the machine beside it. */
    method Append(i: nat) returns (ok: bool)
      requires Ready() && i < NBUF
      modifies this`n, this`block, this`buf
      ensures Ready()
      ensures ok <==> old(n < LOGSIZE && n < g.size - 1 && outstanding >= 1)
      ensures !ok ==> buf == old(buf) && n == old(n) && block == old(block)
      ensures ok ==> buf == old(buf)[i := LogCBuf(old(Lh()), old(buf[i]))]
      ensures ok ==> Lh() == Appended(old(Lh()), old(buf[i]).blockno)
    {
      hide Order, UniqueC, LogCBuf, Appended;
      if n >= LOGSIZE || n >= g.size - 1 || outstanding < 1 {
        return false;
      }
      Record(i);
      return true;
    }

    /** The entry in the header, with the pin of a new one. */
    method Record(i: nat)
      requires Ready() && i < NBUF && n < LOGSIZE
      modifies this`n, this`block, this`buf
      ensures Ready() && buf == old(buf)[i := LogCBuf(old(Lh()), old(buf[i]))]
      ensures Lh() == Appended(old(Lh()), old(buf[i]).blockno)
    {
      hide Order, UniqueC, Inc;
      ghost var lh := Lh();
      var j := FindEntry(buf[i].blockno);
      block := block[j := buf[i].blockno];
      if j == n {
        Bpin(i);
        n := n + 1;
        assert Lh() == lh + [buf[i].blockno];
      } else {
        assert Lh() == lh;
        assert buf == buf[i := LogCBuf(lh, buf[i])];
      }
    }

    // ---------- commit ----------

    /** No process holds a logged block (write_log and install_trans wait for readers). */
    ghost predicate Undisturbed()
      requires Ready()
      reads this
    {
      forall i :: 0 <= i < NBUF && buf[i].locked ==> IsHome(g, buf[i].blockno) && buf[i].blockno !in Lh()
    }

    /** Block h can be read from buffer f without waiting. */
    ghost predicate Readable(h: int, f: nat)
      requires Ready()
      reads this
    {
      && f < NBUF && buf[f].blockno == h && buf[f].valid && 1 <= buf[f].refcnt < UINT_RANGE - 1
      && (forall i :: 0 <= i < NBUF && buf[i].blockno == h ==> i == f)
      && !buf[f].locked
    }

    /** Buffers that are free, or hold block b of the log area, are clean and unlocked. */
    ghost predicate Writable(b: int)
      requires Ready()
      reads this
    {
      && 0 < b < |disk|
      && forall i ::
        0 <= i < NBUF && (buf[i].blockno == b || buf[i].refcnt == 0) ==> buf[i].refcnt == 0 && !buf[i].locked
    }

    /** The two breads of write_log's and install_trans's loops: block b of the log area
        and home block h. None is the panic in bget. */
    method BreadTwo(b: int, h: int) returns (r: Option<(nat, nat)>)
      requires Ready() && Writable(b) && b != h && 0 < h < |disk| && Lockable(buf, h)
      requires forall i :: 0 <= i < NBUF && buf[i].blockno == h ==> buf[i].refcnt != 0
      modifies this`buf
      ensures Ready()
      ensures old(NoneFree(buf)) ==> r == None && buf == old(buf)
      ensures old(!NoneFree(buf) && !NoneHolds(buf, h)) ==> r.Some?
      ensures r == None ==> old(AtMostOneFree(buf))
      ensures old(AtMostOneFree(buf) && NoneHolds(buf, h)) ==> r == None
      ensures r.Some? ==> var (l, f) := r.value;
        && l < NBUF && f < NBUF && l != f
        && Usable(old(buf), b, l) && Usable(old(buf), h, f)
        && buf == old(buf)[l := Read(old(buf[l]), b, disk)][f := Read(old(buf[f]), h, disk)]
        && buf[l].locked && buf[f].locked && buf[l].blockno == b && buf[f].blockno == h
    {
      hide Order, UniqueC, Inc;
      ghost var was := buf;
      var l := Bread(b);
      if l == None {
        return None;
      }
      ghost var mid := buf;
      assert forall i :: 0 <= i < NBUF && i != l.value ==> mid[i] == was[i];
      assert mid[l.value].refcnt != 0 by { FreeCycle(was[l.value], b, disk, Zero()); }
      var f := Bread(h);
      if f == None {
        return None;
      }
      assert f.value != l.value;
      return Some((l.value, f.value));
    }

    /** The body of write_log's loop: copies block h, cached in f, to block b of the log. */
    method CopyBlock(b: int, h: int, ghost f: nat) returns (to: Option<nat>)
      requires Ready() && Readable(h, f) && Writable(b) && b != h && 0 < h < |disk|
      modifies this`disk, this`trace, this`buf, this`lru
      ensures Ready()
      ensures to == None <==> old(NoneFree(buf))
      ensures to == None ==> buf == old(buf) && lru == old(lru) && disk == old(disk) && trace == old(trace)
      ensures to.Some? ==> Usable(old(buf), b, to.value)
      ensures to.Some? ==> buf == old(buf)[to.value := Clean(b, old(buf[f].data))]
      ensures to.Some? ==> disk == old(disk)[b := old(buf[f].data)] && trace == old(trace) + [disk]
    {
      hide Order, UniqueC;
      ghost var was := buf;
      assert buf[f].blockno == h;
      var r := BreadTwo(b, h);
      if r == None {
        return None;
      }
      var (l, from) := r.value;
      assert from == f;
      FreeCycle(was[l], b, disk, was[f].data);
      BusyCycle(was[f], disk);
      hide Read, Released;
      SetData(l, buf[from].data);
      Bwrite(l);
      Brelse(from);
      Brelse(l);
      return Some(l);
    }

    /** One iteration of write_log. False is the panic in bget. */
    method WriteLogOne(tail: nat) returns (ok: bool)
      requires Valid() && Undisturbed() && m.k.phase == Copying(tail) && tail < n
      modifies this`disk, this`trace, this`buf, this`lru, this`m
      ensures Valid() && Undisturbed()
      ensures ok <==> old(!NoneFree(buf))
      ensures !ok ==> m == old(m) && trace == old(trace)
      ensures ok ==> !NoneFree(buf) && trace == old(trace) + [disk]
      ensures ok ==> m.k == old(m.k).(disk := old(disk)[g.start + 1 + tail := old(m.k.logged[tail])],
                                      phase := Copying(tail + 1))
    {
      hide Inv, Do, Enabled, Order, UniqueC, MatchAll, MatchBuf;
      ghost var was, s, d := buf, m, disk;
      CopyFacts(g, s, disk, was, tail);
      assert Lh()[tail] == block[tail];
      var to := CopyBlock(g.start + tail + 1, block[tail], s.k.slot[tail]);
      if to == None {
        return false;
      }
      CopyMatches(g, s, d, was, tail, to.value);
      m := Do(Do(s, Evict(to.value)), CopyOne);
      assert buf[to.value].refcnt == 0;
      return true;
    }

    /** The buffers of the log area agree with the disk. */
    ghost predicate LogClean(b: int)
      requires Ready()
      reads this
    {
      forall i :: 0 <= i < NBUF && buf[i].blockno == b && buf[i].valid ==> 0 <= b < |disk| && buf[i].data == disk[b]
    }

    /** The body of install_trans's loop: copies block b of the log to its home h. */
    method InstallBlock(b: int, h: int) returns (r: Option<(nat, nat)>)
      requires Ready() && Writable(b) && LogClean(b) && b != h && 0 < h < |disk| && Lockable(buf, h)
      requires forall i :: 0 <= i < NBUF && buf[i].blockno == h ==> buf[i].refcnt != 0
      modifies this`disk, this`trace, this`buf, this`lru
      ensures Ready()
      ensures old(!NoneFree(buf) && !NoneHolds(buf, h)) ==> r.Some?
      ensures r == None ==> disk == old(disk) && trace == old(trace) && old(AtMostOneFree(buf))
      ensures old(AtMostOneFree(buf) && NoneHolds(buf, h)) ==> r == None
      ensures r.Some? ==> var (l, f) := r.value;
        && l < NBUF && f < NBUF && l != f
        && Usable(old(buf), b, l) && Usable(old(buf), h, f)
        && buf == old(buf)[l := Clean(b, old(disk[b]))][f := InstalledBuf(old(buf[f]), h, old(disk), old(disk[b]))]
      ensures r.Some? ==> disk == old(disk)[h := old(disk[b])] && trace == old(trace) + [disk]
    {
      hide Order, UniqueC, AtMostOneFree, NoneFree, NoneHolds, Inc;
      ghost var was := buf;
      r := BreadTwo(b, h);
      if r.Some? {
        var (l, f) := r.value;
        FreeCycle(was[l], b, disk, disk[b]);
        LogRead(was[l], b, disk);
        hide Read, Released, Dec;
        Install(l, f);
      }
    }

    /** The copy, the write, bunpin and the two brelses of install_trans. */
    method Install(l: nat, f: nat)
      requires Ready() && l < NBUF && f < NBUF && l != f && buf[l].locked && buf[f].locked
      requires 0 <= buf[f].blockno < |disk|
      modifies this`disk, this`trace, this`buf, this`lru
      ensures Ready()
      ensures var x := old(buf[l].data);
        && buf == old(buf)[l := Released(old(buf[l]))]
                          [f := Released(old(buf[f]).(data := x, refcnt := Dec(old(buf[f].refcnt))))]
        && disk == old(disk)[old(buf[f].blockno) := x] && trace == old(trace) + [disk]
    {
      hide Order, UniqueC, Released, Dec;
      SetData(f, buf[l].data);
      Bwrite(f);
      Bunpin(f);
      Brelse(l);
      Brelse(f);
    }

    /** One iteration of install_trans during commit. */
    method InstallOne(tail: nat)
      requires Valid() && Undisturbed() && m.k.phase == Installing(tail) && tail < n && !NoneFree(buf)
      modifies this`disk, this`trace, this`buf, this`lru, this`m
      ensures Valid() && Undisturbed() && !NoneFree(buf)
      ensures trace == old(trace) + [disk] && InstallReady(old(m.k)) && m.k == InstallEnv(old(m.k))
    {
      hide Inv, Do, Enabled, Order, UniqueC, MatchAll, MatchBuf, Dec;
      ghost var was, s, d := buf, m, disk;
      CopyFacts(g, s, disk, was, tail);
      LogBufsClean(g, s, disk, was, g.start + tail + 1);
      assert Lh()[tail] == block[tail];
      ghost var f := s.k.slot[tail];
      assert buf[f].blockno == block[tail];
      var r := InstallBlock(g.start + tail + 1, block[tail]);
      InstallMatches(g, s, d, was, tail, r.value.0);
      InstalledPinned(was[f], d, d[g.start + tail + 1]);
      m := Do(Do(s, Evict(r.value.0)), Event.InstallOne);
      assert buf[r.value.0].refcnt == 0;
    }

    /** write_head's loop over the header buffer. */
    method FillHeader(hb: Block) returns (r: Block)
      requires n <= LOGSIZE && |block| == LOGSIZE
      ensures r == PutHeader(hb, Lh())
    {
      r := hb[0 := n];
      for i := 0 to n
        invariant r[0] == n
        invariant forall j :: 0 <= j < i ==> r[1 + j] == block[j]
        invariant forall j :: i < j < BLOCK_WORDS ==> r[j] == hb[j]
      {
        r := r[1 + i := block[i]];
      }
      assert r == PutHeader(hb, Lh());
    }

    /** write_head: None is the panic in bget. */
    method WriteHead() returns (r: Option<nat>)
      requires Ready() && Writable(g.start) && LogClean(g.start)
      modifies this`disk, this`trace, this`buf, this`lru
      ensures Ready()
      ensures r == None <==> old(NoneFree(buf))
      ensures r == None ==> buf == old(buf) && disk == old(disk) && trace == old(trace)
      ensures r.Some? ==> Usable(old(buf), g.start, r.value)
      ensures r.Some? ==> disk == WriteHeader(g, old(disk), Lh()) && trace == old(trace) + [disk]
      ensures r.Some? ==> buf == old(buf)[r.value := Clean(g.start, PutHeader(old(disk[g.start]), Lh()))]
    {
      hide Order, UniqueC;
      ghost var was := buf;
      r := Bread(g.start);
      if r.Some? {
        var hb := buf[r.value].data;
        LogRead(was[r.value], g.start, disk);
        FreeCycle(was[r.value], g.start, disk, PutHeader(disk[g.start], Lh()));
        hide Read, Released, PutHeader;
        hb := FillHeader(hb);
        SetData(r.value, hb);
        Bwrite(r.value);
        Brelse(r.value);
      }
    }

    /** write_log. False is the panic in bget. */
    method WriteLog() returns (ok: bool)
      requires Valid() && Undisturbed() && m.k.phase == Copying(0)
      requires WellFormed(g, disk) && Loggable(g, Lh()) && |m.k.logged| == n
      modifies this`disk, this`trace, this`buf, this`lru, this`m
      ensures Valid() && Undisturbed()
      ensures ok <==> n == 0 || old(!NoneFree(buf))
      ensures !ok ==> m == old(m) && trace == old(trace)
      ensures ok && n > 0 ==> !NoneFree(buf)
      ensures ok ==> CommitTrace(g, old(disk), Lh(), old(m.k.logged), n, old(trace), trace)
      ensures ok ==> m.k == old(m.k).(disk := CommitState(g, old(disk), Lh(), old(m.k.logged), n), phase := Copying(n))
    {
      hide Inv, MatchAll, UniqueC, Order, CommitTrace, CommitState, WellFormed, Loggable;
      ghost var k0, d0, t0 := m.k, disk, trace;
      StartTrace(g, d0, Lh(), k0.logged, t0);
      var tail := 0;
      while tail < n
        invariant 0 <= tail <= n && Valid() && Undisturbed() && Lh() == k0.lh
        invariant CommitTrace(g, d0, Lh(), k0.logged, tail, t0, trace)
        invariant m.k == k0.(disk := CommitState(g, d0, Lh(), k0.logged, tail), phase := Copying(tail))
        invariant tail == 0 ==> buf == old(buf) && m == old(m)
        invariant tail > 0 ==> !NoneFree(buf) && old(!NoneFree(buf))
      {
        ok := WriteLogOne(tail);
        if !ok {
          TraceStart(g, d0, Lh(), k0.logged, t0, trace);
          return false;
        }
        CopyState(g, d0, Lh(), k0.logged, tail);
        TraceStep(g, d0, Lh(), k0.logged, tail, t0, trace[..|trace| - 1], disk);
        tail := tail + 1;
      }
      return true;
    }

    /** install_trans during commit. */
    method InstallTrans(ghost d0: Disk, ghost cs: seq<Block>, ghost t0: seq<Disk>)
      requires Valid() && Undisturbed() && m.k.phase == Installing(0) && !NoneFree(buf)
      requires WellFormed(g, d0) && Loggable(g, Lh()) && |cs| == n && disk == CommitState(g, d0, Lh(), cs, n + 1)
      requires CommitTrace(g, d0, Lh(), cs, n + 1, t0, trace)
      modifies this`disk, this`trace, this`buf, this`lru, this`m
      ensures Valid() && Undisturbed() && !NoneFree(buf)
      ensures m.k == old(m.k).(disk := CommitState(g, d0, Lh(), cs, 2 * n + 1), phase := Installing(n))
      ensures CommitTrace(g, d0, Lh(), cs, 2 * n + 1, t0, trace)
    {
      hide Inv, MatchAll, UniqueC, Order, CommitTrace, CommitState, WellFormed, Loggable, InstallEnv;
      ghost var k0 := m.k;
      var tail := 0;
      while tail < n
        invariant 0 <= tail <= n && Valid() && Undisturbed() && !NoneFree(buf) && Lh() == k0.lh
        invariant CommitTrace(g, d0, Lh(), cs, n + 1 + tail, t0, trace)
        invariant m.k == k0.(disk := CommitState(g, d0, Lh(), cs, n + 1 + tail), phase := Installing(tail))
      {
        ghost var k := m.k;
        InstallOne(tail);
        InstallState(k, d0, cs, tail);
        TraceStep(g, d0, Lh(), cs, n + 1 + tail, t0, trace[..|trace| - 1], disk);
        tail := tail + 1;
      }
    }

    /** write_head inside commit: the commit point when e is WriteHead, the erasure of
        the log (lh.n is 0 by then) when e is ClearHead. */
    method CommitHead(ghost e: Event)
      requires Ready() && Inv(m) && MatchAll(g, disk, buf, m.bufs) && m.k.g == g && m.k.disk == disk && !NoneFree(buf)
      requires Enabled(m, e) && m.k.outstanding == outstanding && m.k.committing == committing
      requires (e == Event.WriteHead && Lh() == m.k.lh) || (e == ClearHead && Lh() == [])
      requires forall i :: 0 <= i < NBUF && buf[i].locked ==> IsHome(g, buf[i].blockno) && buf[i].blockno !in Lh()
      modifies this`disk, this`trace, this`buf, this`lru, this`m
      ensures Ready() && Inv(m) && MatchAll(g, disk, buf, m.bufs) && m.k == Do(old(m), e).k && !NoneFree(buf)
      ensures trace == old(trace) + [disk] && disk == WriteHeader(g, old(disk), Lh())
      ensures forall i :: 0 <= i < NBUF && buf[i].locked ==> IsHome(g, buf[i].blockno) && buf[i].blockno !in Lh()
    {
      hide Inv, Do, Enabled, MatchAll, UniqueC, Order;
      ghost var s, d, was := m, disk, buf;
      InvFacts(s);
      LogBufsClean(g, s, disk, buf, g.start);
      var r := WriteHead();
      HeadMatches(g, s, d, was, r.value, Lh(), e);
      m := Do(Do(s, Evict(r.value)), e);
      assert buf[r.value].refcnt == 0;
    }

    /** commit() up to and including the header write. */
    method CommitFirstHalf() returns (ok: bool)
      requires Valid() && Undisturbed() && m.k.phase == Copying(0) && n > 0
      requires WellFormed(g, disk) && Loggable(g, Lh()) && |m.k.logged| == n
      modifies this`disk, this`trace, this`buf, this`lru, this`m
      ensures Valid() && Undisturbed()
      ensures ok <==> old(!NoneFree(buf))
      ensures !ok ==> m == old(m) && trace == old(trace)
      ensures ok ==> !NoneFree(buf) && CommitTrace(g, old(disk), Lh(), old(m.k.logged), n + 1, old(trace), trace)
      ensures ok ==>
        m.k == old(m.k).(disk := CommitState(g, old(disk), Lh(), old(m.k.logged), n + 1), phase := Installing(0))
    {
      hide Inv, MatchAll, UniqueC, Order, CommitTrace, CommitState, WellFormed;
      hide Loggable, Enabled, Do, WriteHeader, NoneFree;
      ghost var k0, d0, t0, bs := m.k, disk, trace, Lh();
      ok := WriteLog();
      if ok {
        InvFacts(m);
        HeadReady(m, Event.WriteHead);
        CommitHead(Event.WriteHead);
        HeadState(g, d0, bs, k0.logged);
        TraceStep(g, d0, bs, k0.logged, |bs|, t0, trace[..|trace| - 1], disk);
      }
    }

    /** commit() after the header write. */
    method CommitSecondHalf(ghost d0: Disk, ghost cs: seq<Block>, ghost t0: seq<Disk>)
      requires Valid() && Undisturbed() && m.k.phase == Installing(0) && !NoneFree(buf) && n > 0
      requires WellFormed(g, d0) && Loggable(g, Lh()) && |cs| == n && disk == CommitState(g, d0, Lh(), cs, n + 1)
      requires CommitTrace(g, d0, Lh(), cs, n + 1, t0, trace)
      modifies this`disk, this`trace, this`buf, this`lru, this`m, this`n
      ensures Valid() && n == 0
      ensures m.k == old(m.k).(lh := [], logged := [], slot := [], phase := Committed,
                               disk := CommitState(g, d0, old(Lh()), cs, 2 * old(n) + 2))
      ensures CommitTrace(g, d0, old(Lh()), cs, 2 * old(n) + 2, t0, trace)
    {
      hide Inv, MatchAll, UniqueC, Order, CommitTrace, CommitState, WellFormed;
      hide Loggable, Enabled, Do, WriteHeader, NoneFree;
      hide RecoverState, MoveToFront, LeastRecent, BufOk, IsHome;
      ghost var bs := Lh();
      InstallTrans(d0, cs, t0);
      InvFacts(m);
      HeadReady(m, ClearHead);
      ghost var t1 := trace;
      n := 0;
      assert Lh() == [];
      CommitHead(ClearHead);
      HeadState(g, d0, bs, cs);
      TraceStep(g, d0, bs, cs, 2 * |bs| + 1, t0, t1, disk);
    }

    /** commit(). False is the panic "bget: no buffers", which happens exactly when there
        is something to commit and every buffer is in use; nothing is written then.
        Otherwise the writes are those of Redo.CommitState, in that order. */
    method Commit() returns (ok: bool)
      requires Valid() && Undisturbed() && m.k.phase == Copying(0)
      requires WellFormed(g, disk) && Loggable(g, Lh()) && |m.k.logged| == n
      modifies this`disk, this`trace, this`buf, this`lru, this`m, this`n
      ensures ok <==> old(n) == 0 || old(!NoneFree(buf))
      ensures Valid()
      ensures !ok || old(n) == 0 ==> m == old(m) && trace == old(trace) && n == old(n)
      ensures ok && old(n) > 0 ==>
        CommitTrace(g, old(disk), old(Lh()), old(m.k.logged), 2 * old(n) + 2, old(trace), trace)
      ensures ok && old(n) > 0 ==> n == 0 && m.k == old(m.k).(lh := [], logged := [], slot := [], phase := Committed,
        disk := CommitState(g, old(disk), old(Lh()), old(m.k.logged), 2 * old(n) + 2))
    {
      hide Inv, MatchAll, UniqueC, Order, CommitTrace, CommitState, WellFormed, Loggable, NoneFree;
      ghost var d0, cs, t0 := disk, m.k.logged, trace;
      if n == 0 {
        return true;
      }
      ok := CommitFirstHalf();
      if ok {
        CommitSecondHalf(d0, cs, t0);
      }
    }

    /** end_op. The panic "log[dev].committing" cannot happen; false is the one inside
        commit. The last operation out commits the group. */
    method EndOp(t: nat) returns (ok: bool)
      requires Valid() && t < |m.k.active| && m.k.active[t]
      requires forall i :: 0 <= i < NBUF && m.bufs[i].owner == Some(t) ==> !m.bufs[i].dirty
      requires outstanding == 1 ==> Undisturbed()
      modifies this
      ensures ok <==> old(outstanding > 1 || n == 0 || !NoneFree(buf))
      ensures outstanding == old(outstanding) - 1
      ensures Valid()
      ensures old(outstanding) > 1 ==> Enabled(old(m), Event.EndOp(t)) && m == Do(old(m), Event.EndOp(t))
      ensures ok && old(outstanding) == 1 ==> n == 0 && !committing && m.k.phase == Idle
      ensures ok && old(outstanding) == 1 && old(n) > 0 ==>
        && WellFormed(g, old(disk)) && Loggable(g, old(Lh())) && |old(m.k.logged)| == old(n)
        && CommitTrace(g, old(disk), old(Lh()), old(m.k.logged), 2 * old(n) + 2, old(trace), trace)
    {
      EndOpNeverPanics(m, t);
      EndOpKeeps(m, t);
      ghost var s := m;
      m := Do(m, Event.EndOp(t));
      outstanding := outstanding - 1;
      ok := true;
      if outstanding == 0 {
        committing := true;
        InvFacts(m);
        ok := Commit();
        if ok {
          FinishCommit(m);
          m := Do(m, CommitDone);
          committing := false;
        }
      }
    }

    // ---------- recovery ----------

    /** read_head: copies the header block into memory. */
    method ReadHead()
      requires Ready() && WellFormed(g, disk) && BootBufs(g, disk, [], 0, buf) && !NoneFree(buf)
      modifies this`buf, this`lru, this`n, this`block
      ensures Ready() && Lh() == HeaderBlocks(disk[g.start]) && BootBufs(g, disk, [], 0, buf)
    {
      hide Order, UniqueC, BootBufs, BootBuf, Read, Released, HeaderBlocks;
      BootWritable(g, disk, [], 0, buf, g.start);
      HeaderRange(g, disk);
      ghost var was := buf;
      var r := Bread(g.start);
      LogRead(was[r.value], g.start, disk);
      FreeCycle(was[r.value], g.start, disk, disk[g.start]);
      HeaderRead(g, disk, was, r.value);
      CopyHead(buf[r.value].data);
      Brelse(r.value);
      assert buf == was[r.value := Clean(g.start, disk[g.start])];
    }

    /** The loop of read_head. */
    method CopyHead(lh: Block)
      requires |block| == LOGSIZE && 0 <= lh[0] <= LOGSIZE
      modifies this`n, this`block
      ensures n == lh[0] <= LOGSIZE && |block| == LOGSIZE && Lh() == HeaderBlocks(lh)
    {
      n := lh[0];
      for i := 0 to n
        invariant |block| == LOGSIZE && n == lh[0]
        invariant forall j :: 0 <= j < i ==> block[j] == lh[1 + j]
      {
        block := block[i := lh[1 + i]];
      }
      assert Lh() == HeaderBlocks(lh);
    }

    /** recover_from_log on a freshly booted kernel. False is the panic in bget: it comes
        exactly when the header lists NBUF blocks, after NBUF - 1 writes, and leaves that
        header in place for the next boot. The writes are those of Redo.RecoverState;
        every block installed keeps a buffer whose refcnt has wrapped. */
    method RecoverFromLog() returns (ok: bool)
      requires Ready() && WellFormed(g, disk) && BootBufs(g, disk, [], 0, buf)
      requires forall i :: 0 <= i < NBUF ==> buf[i].refcnt == 0
      modifies this`disk, this`trace, this`buf, this`lru, this`n, this`block
      ensures Ready()
      ensures ok <==> old(disk[g.start][0]) < NBUF
      ensures ok ==> n == 0 && disk == Recover(g, old(disk))
      ensures ok ==> RecoverTrace(g, old(disk), |HeaderBlocks(old(disk[g.start]))| + 1, old(trace), trace)
      ensures ok ==> var bs := HeaderBlocks(old(disk[g.start])); BootBufs(g, disk, bs, |bs|, buf)
      ensures !ok ==> |HeaderBlocks(old(disk[g.start]))| == NBUF && disk[g.start] == old(disk[g.start])
      ensures !ok ==> RecoverTrace(g, old(disk), NBUF - 1, old(trace), trace)
    {
      ghost var d0, t0 := disk, trace;
      assert buf[0].refcnt == 0;
      ReadHead();
      ghost var bs := Lh();
      assert BootBufs(g, disk, bs, 0, buf) by {
        forall i | 0 <= i < NBUF ensures BootBuf(g, disk, bs, 0, buf[i]) { assert BootBuf(g, disk, [], 0, buf[i]); }
      }
      ghost var done;
      ok, done := RecoverInstall(d0, t0);
      if ok {
        n := 0;
        ok := RecoverClear(d0, t0, bs);
      } else {
        HeaderStays(g, d0, done);
      }
    }

    /** install_trans during recovery; done counts its writes. */
    method RecoverInstall(ghost d0: Disk, ghost t0: seq<Disk>) returns (ok: bool, ghost done: nat)
      requires Ready() && WellFormed(g, d0) && disk == d0 && trace == t0 && Lh() == HeaderBlocks(d0[g.start])
      requires BootBufs(g, disk, Lh(), 0, buf)
      modifies this`disk, this`trace, this`buf, this`lru
      ensures Ready() && (ok <==> n < NBUF) && (!ok ==> done == NBUF - 1)
      ensures done <= n && RecoverTrace(g, d0, done, t0, trace) && disk == RecoverState(g, d0, done)
      ensures ok ==> done == n && disk == RecoverState(g, d0, n) && BootBufs(g, disk, Lh(), n, buf)
    {
      hide Order, UniqueC, BootBufs, Loggable, RecoverTrace, RecoverState, HeaderBlocks, BootBuf;
      ghost var bs := Lh();
      RecoverBegin(g, d0, t0);
      var tail := 0;
      while tail < n
        invariant 0 <= tail <= n && tail <= NBUF - 1 && Ready() && Lh() == bs
        invariant disk == RecoverState(g, d0, tail) && RecoverTrace(g, d0, tail, t0, trace)
        invariant BootBufs(g, disk, bs, tail, buf)
      {
        ghost var t1, d1 := trace, disk;
        ok := RecoverOne(tail, bs);
        if !ok {
          return false, tail;
        }
        RecoverNext(g, d0, tail);
        RecoverTraceStep(g, d0, tail, t0, t1, disk);
        tail := tail + 1;
      }
      return true, tail;
    }

    /** One iteration of install_trans during recovery. */
    method RecoverOne(tail: nat, ghost bs: seq<int>) returns (ok: bool)
      requires Ready() && tail < n && Lh() == bs && Loggable(g, bs) && BootBufs(g, disk, bs, tail, buf)
      modifies this`disk, this`trace, this`buf, this`lru
      ensures Ready() && (ok <==> tail < NBUF - 1)
      ensures !ok ==> disk == old(disk) && trace == old(trace)
      ensures 0 <= bs[tail] < |disk| && g.start + 1 + tail < |disk|
      ensures ok ==> disk == old(disk)[bs[tail] := old(disk)[g.start + 1 + tail]] && trace == old(trace) + [disk]
      ensures ok ==> BootBufs(g, disk, bs, tail + 1, buf)
    {
      hide Order, UniqueC, BootBufs, Loggable, AtMostOneFree, InstalledBuf;
      ghost var was, d := buf, disk;
      assert block[tail] == bs[tail];
      BootReady(g, d, bs, tail, buf);
      if tail >= NBUF - 1 { BootFull(g, d, bs, tail, buf); }
      var r := InstallBlock(g.start + tail + 1, block[tail]);
      if r == None {
        TwoFree(g, d, bs, tail, was);
        return false;
      }
      BootInstalled(g, d, bs, tail, was, r.value.0, r.value.1);
      return true;
    }

    /** The last write of recovery: an empty header. */
    method RecoverClear(ghost d0: Disk, ghost t0: seq<Disk>, ghost bs: seq<int>) returns (ok: bool)
      requires Ready() && WellFormed(g, d0) && n == 0 && bs == HeaderBlocks(d0[g.start])
      requires disk == RecoverState(g, d0, |bs|) && RecoverTrace(g, d0, |bs|, t0, trace)
      requires BootBufs(g, disk, bs, |bs|, buf)
      modifies this`disk, this`trace, this`buf, this`lru
      ensures Ready() && (|bs| < NBUF ==> ok)
      ensures ok ==> disk == Recover(g, d0) && RecoverTrace(g, d0, |bs| + 1, t0, trace)
      ensures ok ==> BootBufs(g, disk, bs, |bs|, buf)
      ensures !ok ==> disk == old(disk) && trace == old(trace)
    {
      hide Order, UniqueC, BootBufs, RecoverTrace, RecoverState;
      ghost var was, d := buf, disk;
      BootWritable(g, d, bs, |bs|, was, g.start);
      var r := WriteHead();
      if r == None {
        OneFree(g, d, bs, |bs|, was);
        return false;
      }
      assert Lh() == [];
      BootHeader(g, d, bs, |bs|, was, r.value, PutHeader(d[g.start], []));
      RecoverEnd(g, d0);
      RecoverTraceStep(g, d0, |bs|, t0, trace[..|trace| - 1], disk);
      return true;
    }

    /** initlog: recovery, after which the machine starts. It can do so exactly when nothing
        was recovered: otherwise no state of the machine has these buffers. */
    method Initlog(ghost threads: nat) returns (ok: bool)
      requires Ready() && WellFormed(g, disk) && BootBufs(g, disk, [], 0, buf) && threads < UINT_RANGE - 2
      requires (forall i :: 0 <= i < NBUF ==> buf[i].refcnt == 0) && outstanding == 0 && !committing
      modifies this`disk, this`trace, this`buf, this`lru, this`n, this`block, this`m
      ensures Ready()
      ensures ok <==> old(disk[g.start][0]) < NBUF
      ensures ok ==> n == 0 && disk == Recover(g, old(disk))
      ensures ok ==> var bs := HeaderBlocks(old(disk[g.start])); BootBufs(g, disk, bs, |bs|, buf)
      ensures HeaderBlocks(old(disk[g.start])) == [] ==> ok && Valid() && m == Boot(g, disk, threads)
      ensures ok && HeaderBlocks(old(disk[g.start])) != [] ==>
        forall s: State :: Inv(s) ==> !MatchAll(g, disk, buf, s.bufs)
    {
      ghost var d, bs := disk, HeaderBlocks(disk[g.start]);
      ok := RecoverFromLog();
      if ok {
        RecoveredDisk(g, d);
        m := Boot(g, disk, threads);
        hide Inv, Boot, BootBufs, MatchAll, HeaderBlocks, WellFormed;
        if bs == [] {
          EmptyBoot(g, disk, buf, threads);
        } else {
          forall s: State | Inv(s) ensures !MatchAll(g, disk, buf, s.bufs) {
            WrappedBoot(g, disk, bs, buf, s);
          }
        }
      }
    }

    /** The test and the reservation in begin_op's loop; false means that it sleeps. */
    method Reserve() returns (started: bool)
      modifies this`outstanding
      ensures started <==> old(!committing && n + (outstanding + 1) * MAXOPBLOCKS <= LOGSIZE)
      ensures outstanding == old(outstanding) + if started then 1 else 0
    {
      if committing || n + (outstanding + 1) * MAXOPBLOCKS > LOGSIZE {
        return false;
      }
      outstanding := outstanding + 1;
      return true;
    }

    /** One trip round begin_op's loop. */
    method BeginOp(t: nat) returns (started: bool)
      requires Valid() && t < |m.k.active| && !m.k.active[t]
      modifies this`outstanding, this`m
      ensures Valid()
      ensures started <==> old(!committing && n + (outstanding + 1) * MAXOPBLOCKS <= LOGSIZE)
      ensures !started ==> m == old(m)
      ensures started ==> Enabled(old(m), Event.BeginOp(t)) && m == Do(old(m), Event.BeginOp(t))
    {
      started := Reserve();
      if started {
        BeginOpKeeps(m, t);
        m := Do(m, Event.BeginOp(t));
      }
    }
  }
}
