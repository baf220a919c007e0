/** Every interleaving of the processes that use the buffer cache (kernel/bio.c) and
    the log (kernel/log.c), the block writes of the commit that follows the last
    end_op, and crashes. Each event is one critical section or one block write of
    the code; the block that an event works on is named by its buffer. */
module LogMachine {
  import opened Options
  import opened Params
  import opened Redo


  /** struct buf. refcnt is a C uint. The last three fields record history that the
      code does not store: which processes count themselves in refcnt, whether the
      owner changed data and has not called log_write yet, and which entry of the
      in-memory header pinned the buffer. */
  datatype Buf = Buf(blockno: int, valid: bool, refcnt: nat, owner: Option<nat>, data: Block,
                     holders: set<nat>, dirty: bool, pin: Option<nat>)

  datatype Phase =
    | Idle                   // no commit is running
    | Copying(tail: nat)     // in write_log
    | Installing(tail: nat)  // in install_trans
    | Committed              // header erased, committing not yet reset

  /** Everything but the buffers. lh is lh.block[..lh.n]. logged[j] is what log_write
      last saw in block lh[j] and slot[j] the buffer it pinned for it. budget[t] is the
      part of its MAXOPBLOCKS that process t has not used. */
  datatype Env = Env(g: Geometry, disk: Disk, lh: seq<int>, logged: seq<Block>, slot: seq<nat>,
                     outstanding: nat, committing: bool, phase: Phase,
                     active: seq<bool>, budget: seq<nat>)

  datatype State = State(k: Env, bufs: seq<Buf>)

  /** Crash is a crash, any number of boots that are cut short, each after any of recovery's
      writes, and the boot with which the run goes on. That boot finds an empty header, so it
      installs nothing: only then does recovery leave the empty buffers from which the machine
      starts again (LogCode.CleanBootExact). A crash that leaves a group to recover is
      covered up to the end of that recovery by CrashAnywhere. */
  datatype Event =
    | Bget(t: nat, blockno: int, i: nat)     // bget up to release(&bcache.lock)
    | Evict(i: nat)                          // bget recycles buffer i for a block of the log area
    | Lock(t: nat, i: nat)                   // acquiresleep returns
    | Fill(t: nat, i: nat)                   // bread reads the disk
    | Modify(t: nat, i: nat, data: Block)    // the owner changes b->data
    | LogWrite(t: nat, i: nat)
    | Unlock(t: nat, i: nat)                 // brelse: releasesleep
    | Unref(t: nat, i: nat)                  // brelse: refcnt--
    | BeginOp(t: nat)
    | EndOp(t: nat)
    | CopyOne                                // one iteration of write_log
    | WriteHead                              // the commit point
    | InstallOne                             // one iteration of install_trans
    | ClearHead
    | CommitDone
    | Crash(cuts: seq<nat>)                  // crash, cut-short recoveries, recovery

  function Inc(r: nat): nat { (r + 1) % UINT_RANGE }
  function Dec(r: nat): nat { (r - 1) % UINT_RANGE }

  /** Position of b in the header, |bs| when absent: the search loop of log_write. */
  function Find(bs: seq<int>, b: int): (r: nat)
    ensures r <= |bs|
    ensures r < |bs| ==> bs[r] == b
    ensures forall j :: 0 <= j < r ==> bs[j] != b
  {
    if bs == [] || bs[0] == b then 0
    else 1 + Find(bs[1..], b)
  }

  function EmptyBuf(): Buf {
    Buf(0, false, 0, None, seq(BLOCK_WORDS, _ => 0), {}, false, None)
  }

  /** The state in which recovery with an empty log leaves a freshly booted kernel. */
  function Boot(g: Geometry, d: Disk, threads: nat): State {
    State(Env(g, d, [], [], [], 0, false, Idle, seq(threads, _ => false), seq(threads, _ => 0)),
          seq(NBUF, _ => EmptyBuf()))
  }

  // ---------- guards and effects ----------

  predicate Owns(s: State, t: nat, i: nat) {
    i < |s.bufs| && t < |s.k.active| && s.bufs[i].owner == Some(t)
  }

  predicate NoneCached(bufs: seq<Buf>, blockno: int) {
    forall i :: 0 <= i < |bufs| ==> bufs[i].blockno != blockno
  }

  /** Neither panic of log_write fires (checked before the lock is taken). */
  predicate LogWriteChecks(k: Env) {
    |k.lh| < LOGSIZE && |k.lh| < k.g.size - 1 && k.outstanding >= 1
  }

  ghost predicate EnvOk(k: Env) {
    && WellFormed(k.g, k.disk)
    && |k.active| == |k.budget| < UINT_RANGE - 2
    && |k.logged| == |k.slot| == |k.lh|
    && Loggable(k.g, k.lh)
    && forall j :: 0 <= j < |k.slot| ==> k.slot[j] < NBUF
  }

  ghost predicate Shape(s: State) {
    EnvOk(s.k) && |s.bufs| == NBUF
  }

  ghost predicate Enabled(s: State, e: Event)
    requires Shape(s)
  {
    var k := s.k;
    match e
    case Bget(t, b, i) =>
      && t < |k.active| && i < |s.bufs| && IsHome(k.g, b) && t !in s.bufs[i].holders
      && (s.bufs[i].blockno == b || (NoneCached(s.bufs, b) && s.bufs[i].refcnt == 0))
    case Evict(i) =>
      i < |s.bufs| && s.bufs[i].refcnt == 0
    case Lock(t, i) =>
      t < |k.active| && i < |s.bufs| && t in s.bufs[i].holders && s.bufs[i].owner == None
    case Fill(t, i) =>
      Owns(s, t, i) && !s.bufs[i].valid && IsHome(k.g, s.bufs[i].blockno)
    case Modify(t, i, data) =>
      Owns(s, t, i) && s.bufs[i].valid && k.active[t]
    case LogWrite(t, i) =>
      && Owns(s, t, i) && s.bufs[i].valid && k.active[t] && LogWriteChecks(k)
      && (s.bufs[i].blockno in k.lh || k.budget[t] > 0)
    case Unlock(t, i) =>
      Owns(s, t, i) && !s.bufs[i].dirty
    case Unref(t, i) =>
      t < |k.active| && i < |s.bufs| && t in s.bufs[i].holders && s.bufs[i].owner != Some(t)
    case BeginOp(t) =>
      && t < |k.active| && !k.active[t] && !k.committing
      && |k.lh| + (k.outstanding + 1) * MAXOPBLOCKS <= LOGSIZE
    case EndOp(t) =>
      && t < |k.active| && k.active[t] && k.outstanding >= 1
      && forall i :: 0 <= i < |s.bufs| && s.bufs[i].owner == Some(t) ==> !s.bufs[i].dirty
    case CopyOne =>
      && k.phase.Copying? && k.phase.tail < |k.lh|
      && s.bufs[k.slot[k.phase.tail]].owner == None
    case WriteHead =>
      k.phase == Copying(|k.lh|) && |k.lh| > 0
    case InstallOne =>
      && k.phase.Installing? && k.phase.tail < |k.lh|
      && s.bufs[k.slot[k.phase.tail]].owner == None
    case ClearHead =>
      k.phase == Installing(|k.lh|)
    case CommitDone =>
      k.phase == Committed || (k.phase == Copying(0) && k.lh == [])
    case Crash(cuts) =>
      HeaderBlocks(AfterCuts(k.g, k.disk, cuts)[k.g.start]) == []
  }

  function GetBuf(b: Buf, t: nat, blockno: int): Buf {
    if b.blockno == blockno then b.(refcnt := Inc(b.refcnt), holders := b.holders + {t})
    else b.(blockno := blockno, valid := false, refcnt := 1, holders := {t})
  }

  function SetBuf(s: State, i: nat, b: Buf): State
    requires i < |s.bufs|
  {
    s.(bufs := s.bufs[i := b])
  }

  /** log_write's effect outside the buffers; absorption leaves the header alone. */
  function LogEnv(k: Env, t: nat, i: nat, blockno: int, data: Block): Env
    requires t < |k.budget| && |k.logged| == |k.lh|
  {
    var j := Find(k.lh, blockno);
    if j < |k.lh| then k.(logged := k.logged[j := data])
    else
      k.(lh := k.lh + [blockno], logged := k.logged + [data], slot := k.slot + [i],
         budget := k.budget[t := if k.budget[t] > 0 then k.budget[t] - 1 else 0])
  }

  function LogBuf(k: Env, b: Buf): Buf {
    var j := Find(k.lh, b.blockno);
    if j < |k.lh| then b.(dirty := false)
    else b.(dirty := false, refcnt := Inc(b.refcnt), pin := Some(j))
  }

  function DoLogWrite(s: State, t: nat, i: nat): State
    requires i < |s.bufs| && t < |s.k.budget| && |s.k.logged| == |s.k.lh|
  {
    State(LogEnv(s.k, t, i, s.bufs[i].blockno, s.bufs[i].data), s.bufs[i := LogBuf(s.k, s.bufs[i])])
  }

  function DoEndOp(k: Env, t: nat): Env
    requires t < |k.active| == |k.budget| && k.outstanding >= 1
  {
    var last := k.outstanding == 1;
    k.(active := k.active[t := false], budget := k.budget[t := 0], outstanding := k.outstanding - 1,
       committing := last || k.committing, phase := if last then Copying(0) else k.phase)
  }

  ghost predicate InstallReady(k: Env) {
    EnvOk(k) && k.phase.Installing? && k.phase.tail < |k.lh|
  }

  /** One iteration of install_trans on the disk. */
  ghost function InstallEnv(k: Env): Env
    requires InstallReady(k)
  {
    assert IsHome(k.g, k.lh[k.phase.tail]);
    k.(disk := k.disk[k.lh[k.phase.tail] := k.disk[k.g.start + 1 + k.phase.tail]],
       phase := Installing(k.phase.tail + 1))
  }

  ghost function DoInstall(s: State): State
    requires InstallReady(s.k) && |s.bufs| == NBUF
  {
    var k := s.k;
    var i := k.slot[k.phase.tail];
    var copy := k.disk[k.g.start + 1 + k.phase.tail];
    State(InstallEnv(k), s.bufs[i := s.bufs[i].(data := copy, refcnt := Dec(s.bufs[i].refcnt), pin := None)])
  }

  ghost function Do(s: State, e: Event): State
    requires Shape(s) && Enabled(s, e)
  {
    var k := s.k;
    match e
    case Bget(t, b, i) => SetBuf(s, i, GetBuf(s.bufs[i], t, b))
    case Evict(i) => SetBuf(s, i, EmptyBuf())
    case Lock(t, i) => SetBuf(s, i, s.bufs[i].(owner := Some(t)))
    case Fill(t, i) => SetBuf(s, i, s.bufs[i].(valid := true, data := k.disk[s.bufs[i].blockno]))
    case Modify(t, i, data) => SetBuf(s, i, s.bufs[i].(data := data, dirty := true))
    case LogWrite(t, i) => DoLogWrite(s, t, i)
    case Unlock(t, i) => SetBuf(s, i, s.bufs[i].(owner := None))
    case Unref(t, i) =>
      SetBuf(s, i, s.bufs[i].(refcnt := Dec(s.bufs[i].refcnt), holders := s.bufs[i].holders - {t}))
    case BeginOp(t) =>
      s.(k := k.(active := k.active[t := true], budget := k.budget[t := MAXOPBLOCKS],
                 outstanding := k.outstanding + 1))
    case EndOp(t) => s.(k := DoEndOp(k, t))
    case CopyOne =>
      var tail := k.phase.tail;
      s.(k := k.(disk := k.disk[k.g.start + 1 + tail := s.bufs[k.slot[tail]].data], phase := Copying(tail + 1)))
    case WriteHead => s.(k := k.(disk := WriteHeader(k.g, k.disk, k.lh), phase := Installing(0)))
    case InstallOne => DoInstall(s)
    case ClearHead =>
      s.(k := k.(disk := WriteHeader(k.g, k.disk, []), lh := [], logged := [], slot := [], phase := Committed))
    case CommitDone => s.(k := k.(committing := false, phase := Idle))
    case Crash(cuts) => Boot(k.g, Recover(k.g, AfterCuts(k.g, k.disk, cuts)), |k.active|)
  }

  // ---------- the invariant ----------

  function Sum(a: seq<nat>): nat {
    if a == [] then 0 else a[0] + Sum(a[1..])
  }

  function Count(a: seq<bool>): nat {
    if a == [] then 0 else (if a[0] then 1 else 0) + Count(a[1..])
  }

  /** Group commit: the log never needs more room than was reserved, and nothing
      commits while an operation is running. */
  ghost predicate Ops(k: Env) {
    && |k.active| == |k.budget|
    && k.outstanding == Count(k.active)
    && (forall t :: 0 <= t < |k.active| ==> k.budget[t] <= if k.active[t] then MAXOPBLOCKS else 0)
    && |k.lh| + Sum(k.budget) <= LOGSIZE
    && (k.committing ==> k.outstanding == 0)
    && (k.committing <==> k.phase != Idle)
  }

  /** Index of the first header entry that install_trans has not reached. */
  function Uninstalled(p: Phase): nat {
    if p.Installing? then p.tail else 0
  }

  /** The plain block store that the cache and the log implement together: the last
      logged contents of a block in the header, otherwise its home contents. */
  function Cur(k: Env, b: int): Block
    requires |k.logged| == |k.lh| && 0 <= b < |k.disk|
  {
    var j := Find(k.lh, b);
    if j < |k.lh| then k.logged[j] else k.disk[b]
  }

  /** What holds of buffer i on its own: refcnt counts its users and its pin, and a
      buffer with no update in progress agrees with the plain block store. */
  ghost predicate BufOk(k: Env, i: nat, b: Buf) {
    && |k.disk| == k.g.blocks && |k.logged| == |k.lh| == |k.slot|
    && b.refcnt == |b.holders| + (if b.pin.Some? then 1 else 0)
    && (forall t :: t in b.holders ==> t < |k.active|)
    && (b.owner.Some? ==> b.owner.value in b.holders)
    && (b.blockno == 0 || IsHome(k.g, b.blockno))
    && (b.pin.Some? ==>
          b.valid && Uninstalled(k.phase) <= b.pin.value < |k.lh| &&
          k.slot[b.pin.value] == i && k.lh[b.pin.value] == b.blockno)
    && (b.valid ==> IsHome(k.g, b.blockno))
    && (b.valid && !b.dirty ==> b.data == Cur(k, b.blockno))
    && (b.dirty ==> b.valid && b.owner.Some? && b.owner.value < |k.active| && k.active[b.owner.value])
  }

  ghost predicate BufsOk(s: State) {
    forall i :: 0 <= i < |s.bufs| ==> BufOk(s.k, i, s.bufs[i])
  }

  /** Every header entry not yet installed is pinned in its buffer. */
  ghost predicate Pinned(s: State)
    requires Shape(s)
  {
    forall j :: Uninstalled(s.k.phase) <= j < |s.k.lh| ==> s.bufs[s.k.slot[j]].pin == Some(j)
  }

  /** No block other than the boot block has two buffers. */
  ghost predicate Unique(bufs: seq<Buf>) {
    forall i, j :: 0 <= i < j < |bufs| && bufs[i].blockno == bufs[j].blockno ==> bufs[i].blockno == 0
  }

  ghost predicate LogDisk(k: Env)
    requires WellFormed(k.g, k.disk) && Loggable(k.g, k.lh) && |k.logged| == |k.lh|
  {
    var h := HeaderBlocks(k.disk[k.g.start]);
    match k.phase
    case Idle => h == []
    case Copying(tail) =>
      && h == [] && tail <= |k.lh|
      && forall j :: 0 <= j < tail ==> k.disk[k.g.start + 1 + j] == k.logged[j]
    case Installing(tail) =>
      && h == k.lh && tail <= |k.lh|
      && (forall j :: 0 <= j < |k.lh| ==> k.disk[k.g.start + 1 + j] == k.logged[j])
      && forall j :: 0 <= j < tail ==> k.disk[k.lh[j]] == k.logged[j]
    case Committed => h == [] && k.lh == []
  }

  ghost predicate Inv(s: State) {
    Shape(s) && Ops(s.k) && BufsOk(s) && Pinned(s) && Unique(s.bufs) && LogDisk(s.k)
  }

  // ---------- helper facts ----------

  lemma {:induction false} SumUpdate(a: seq<nat>, t: nat, v: nat)
    requires t < |a|
    ensures Sum(a[t := v]) == Sum(a) - a[t] + v && Sum(a) >= a[t]
  {
    if t > 0 {
      SumUpdate(a[1..], t - 1, v);
      assert a[t := v][1..] == a[1..][t - 1 := v];
    } else {
      assert a[t := v][1..] == a[1..];
    }
  }

  lemma {:induction false} CountUpdate(a: seq<bool>, t: nat, v: bool)
    requires t < |a|
    ensures Count(a[t := v]) == Count(a) - (if a[t] then 1 else 0) + (if v then 1 else 0)
    ensures a[t] ==> Count(a) >= 1
  {
    if t > 0 {
      CountUpdate(a[1..], t - 1, v);
      assert a[t := v][1..] == a[1..][t - 1 := v];
    } else {
      assert a[t := v][1..] == a[1..];
    }
  }

  lemma {:induction false} BudgetBound(active: seq<bool>, budget: seq<nat>)
    requires |active| == |budget|
    requires forall t :: 0 <= t < |active| ==> budget[t] <= if active[t] then MAXOPBLOCKS else 0
    ensures Sum(budget) <= MAXOPBLOCKS * Count(active)
  {
    if active != [] { BudgetBound(active[1..], budget[1..]); }
  }

  lemma {:induction false} BelowCard(xs: set<nat>, n: nat)
    requires forall x :: x in xs ==> x < n
    ensures |xs| <= n
  {
    if n == 0 {
      assert xs == {};
    } else {
      BelowCard(xs - {n - 1}, n - 1);
      if n - 1 in xs { assert |xs| == |xs - {n - 1}| + 1; } else { assert xs == xs - {n - 1}; }
    }
  }

  // ---------- events that touch one buffer ----------

  lemma SetBufKeeps(s: State, i: nat, b: Buf)
    requires Inv(s) && i < NBUF && BufOk(s.k, i, b)
    requires b.pin == s.bufs[i].pin
    requires b.blockno == s.bufs[i].blockno || b.blockno == 0 || NoneCached(s.bufs, b.blockno)
    ensures Inv(SetBuf(s, i, b))
  {
  }

  lemma BgetKeeps(s: State, t: nat, b: int, i: nat)
    requires Inv(s) && Enabled(s, Bget(t, b, i))
    ensures Inv(Do(s, Bget(t, b, i)))
  {
    assert BufOk(s.k, i, s.bufs[i]);
    BelowCard(s.bufs[i].holders, |s.k.active|);
    SetBufKeeps(s, i, GetBuf(s.bufs[i], t, b));
  }

  lemma EvictKeeps(s: State, i: nat)
    requires Inv(s) && Enabled(s, Evict(i))
    ensures Inv(Do(s, Evict(i)))
  {
    assert BufOk(s.k, i, s.bufs[i]);
    SetBufKeeps(s, i, EmptyBuf());
  }

  lemma OwnerKeeps(s: State, e: Event)
    requires Inv(s) && Enabled(s, e) && (e.Lock? || e.Fill? || e.Modify? || e.Unlock?)
    ensures Inv(Do(s, e))
  {
    assert BufOk(s.k, e.i, s.bufs[e.i]);
    var b := Do(s, e).bufs[e.i];
    if e.Fill? {
      // an invalid buffer is not pinned, so its block is not waiting to be installed
      FillIsCurrent(s, e.i);
    }
    SetBufKeeps(s, e.i, b);
  }

  /** A block without a valid buffer has its current contents on the disk. */
  lemma FillIsCurrent(s: State, i: nat)
    requires Inv(s) && i < NBUF && !s.bufs[i].valid && IsHome(s.k.g, s.bufs[i].blockno)
    ensures s.k.disk[s.bufs[i].blockno] == Cur(s.k, s.bufs[i].blockno)
  {
    forall j | Uninstalled(s.k.phase) <= j < |s.k.lh| ensures s.k.lh[j] != s.bufs[i].blockno {
      assert BufOk(s.k, s.k.slot[j], s.bufs[s.k.slot[j]]);
    }
  }

  lemma UnrefKeeps(s: State, t: nat, i: nat)
    requires Inv(s) && Enabled(s, Unref(t, i))
    ensures Inv(Do(s, Unref(t, i)))
  {
    assert BufOk(s.k, i, s.bufs[i]);
    BelowCard(s.bufs[i].holders, |s.k.active|);
    SetBufKeeps(s, i, Do(s, Unref(t, i)).bufs[i]);
  }

  // ---------- log_write ----------

  lemma FindDistinct(bs: seq<int>, j: nat)
    requires Distinct(bs) && j < |bs|
    ensures Find(bs, bs[j]) == j
  {
  }

  ghost predicate LogReady(k: Env, t: nat, i: nat, blockno: int) {
    && EnvOk(k) && Ops(k) && LogDisk(k) && t < |k.active| && k.active[t] && i < NBUF
    && IsHome(k.g, blockno) && LogWriteChecks(k) && (blockno in k.lh || k.budget[t] > 0)
  }

  /** Logging block x changes the plain block store at x and nowhere else. */
  lemma LogStore(k: Env, t: nat, i: nat, x: int, data: Block, b: int)
    requires LogReady(k, t, i, x) && IsHome(k.g, b)
    ensures Cur(LogEnv(k, t, i, x, data), b) == if b == x then data else Cur(k, b)
  {
    var k' := LogEnv(k, t, i, x, data);
    var q := Find(k.lh, b);
    if Find(k.lh, x) == |k.lh| {
      assert k'.lh[|k.lh|] == x;
      assert forall m :: 0 <= m < |k.lh| ==> k'.lh[m] == k.lh[m];
    }
  }

  lemma LogEnvOk(k: Env, t: nat, i: nat, x: int, data: Block)
    requires LogReady(k, t, i, x)
    ensures k.phase == Idle
    ensures EnvOk(LogEnv(k, t, i, x, data)) && Ops(LogEnv(k, t, i, x, data)) && LogDisk(LogEnv(k, t, i, x, data))
  {
    CountUpdate(k.active, t, true);
    if k.budget[t] > 0 { SumUpdate(k.budget, t, k.budget[t] - 1); }
  }

  lemma LogWriteIsReady(s: State, t: nat, i: nat)
    requires Inv(s) && Enabled(s, LogWrite(t, i))
    ensures LogReady(s.k, t, i, s.bufs[i].blockno)
  {
    assert BufOk(s.k, i, s.bufs[i]);
  }

  /** A block that is not in the header is not pinned. */
  lemma UnloggedUnpinned(s: State, i: nat)
    requires Inv(s) && i < NBUF && Find(s.k.lh, s.bufs[i].blockno) == |s.k.lh|
    ensures s.bufs[i].pin == None
  {
    assert BufOk(s.k, i, s.bufs[i]);
  }

  lemma LogWriteOwn(k: Env, t: nat, i: nat, b: Buf)
    requires LogReady(k, t, i, b.blockno) && BufOk(k, i, b) && b.valid
    requires Find(k.lh, b.blockno) == |k.lh| ==> b.pin == None
    ensures BufOk(LogEnv(k, t, i, b.blockno, b.data), i, LogBuf(k, b))
  {
    LogEnvOk(k, t, i, b.blockno, b.data);
    BelowCard(b.holders, |k.active|);
    LogStore(k, t, i, b.blockno, b.data, b.blockno);
  }

  lemma LogWriteOther(k: Env, t: nat, i: nat, x: int, data: Block, m: nat, b: Buf)
    requires LogReady(k, t, i, x) && BufOk(k, m, b) && b.blockno != x
    ensures BufOk(LogEnv(k, t, i, x, data), m, b)
  {
    if b.valid { LogStore(k, t, i, x, data, b.blockno); }
  }

  lemma LogWritePinned(s: State, t: nat, i: nat)
    requires Inv(s) && Enabled(s, LogWrite(t, i))
    ensures Shape(DoLogWrite(s, t, i)) && Pinned(DoLogWrite(s, t, i)) && Unique(DoLogWrite(s, t, i).bufs)
  {
    LogWriteIsReady(s, t, i);
    LogEnvOk(s.k, t, i, s.bufs[i].blockno, s.bufs[i].data);
    if Find(s.k.lh, s.bufs[i].blockno) == |s.k.lh| { UnloggedUnpinned(s, i); }
  }

  lemma LogWriteKeeps(s: State, t: nat, i: nat)
    requires Inv(s) && Enabled(s, LogWrite(t, i))
    ensures Inv(Do(s, LogWrite(t, i)))
  {
    hide LogReady, LogEnv, LogBuf, Pinned, Ops, LogDisk;
    var s' := DoLogWrite(s, t, i);
    var x := s.bufs[i].blockno;
    LogWriteIsReady(s, t, i);
    LogEnvOk(s.k, t, i, x, s.bufs[i].data);
    LogWritePinned(s, t, i);
    if Find(s.k.lh, x) == |s.k.lh| { UnloggedUnpinned(s, i); }
    assert BufOk(s.k, i, s.bufs[i]);
    forall m | 0 <= m < NBUF ensures BufOk(s'.k, m, s'.bufs[m]) {
      assert BufOk(s.k, m, s.bufs[m]);
      if m == i { LogWriteOwn(s.k, t, i, s.bufs[i]); }
      else { LogWriteOther(s.k, t, i, x, s.bufs[i].data, m, s.bufs[m]); }
    }
  }

  // ---------- begin_op, end_op ----------

  lemma BeginOpKeeps(s: State, t: nat)
    requires Inv(s) && Enabled(s, BeginOp(t))
    ensures Inv(Do(s, BeginOp(t)))
  {
    var s' := Do(s, BeginOp(t));
    CountUpdate(s.k.active, t, true);
    SumUpdate(s.k.budget, t, MAXOPBLOCKS);
    BudgetBound(s.k.active, s.k.budget);
    forall i | 0 <= i < NBUF ensures BufOk(s'.k, i, s'.bufs[i]) { assert BufOk(s.k, i, s.bufs[i]); }
  }

  lemma EndOpKeeps(s: State, t: nat)
    requires Inv(s) && Enabled(s, EndOp(t))
    ensures Inv(Do(s, EndOp(t)))
  {
    var s' := Do(s, EndOp(t));
    CountUpdate(s.k.active, t, false);
    SumUpdate(s.k.budget, t, 0);
    forall i | 0 <= i < NBUF ensures BufOk(s'.k, i, s'.bufs[i]) { assert BufOk(s.k, i, s.bufs[i]); }
  }

  // ---------- the block writes of commit ----------

  lemma Quiet(s: State, i: nat)
    requires Inv(s) && s.k.committing && i < NBUF
    ensures !s.bufs[i].dirty
  {
    assert BufOk(s.k, i, s.bufs[i]);
    if s.bufs[i].dirty { CountUpdate(s.k.active, s.bufs[i].owner.value, true); }
  }

  lemma CopyOneKeeps(s: State)
    requires Inv(s) && Enabled(s, CopyOne)
    ensures Inv(Do(s, CopyOne))
  {
    var s' := Do(s, CopyOne);
    var tail := s.k.phase.tail;
    Quiet(s, s.k.slot[tail]);
    assert BufOk(s.k, s.k.slot[tail], s.bufs[s.k.slot[tail]]);
    FindDistinct(s.k.lh, tail);
    forall i | 0 <= i < NBUF ensures BufOk(s'.k, i, s'.bufs[i]) { assert BufOk(s.k, i, s.bufs[i]); }
  }

  lemma WriteHeadKeeps(s: State)
    requires Inv(s) && Enabled(s, WriteHead)
    ensures Inv(Do(s, WriteHead))
  {
    var s' := Do(s, WriteHead);
    HeaderRoundTrip(s.k.disk[s.k.g.start], s.k.lh);
    forall i | 0 <= i < NBUF ensures BufOk(s'.k, i, s'.bufs[i]) { assert BufOk(s.k, i, s.bufs[i]); }
  }

  lemma InstallEnvOk(k: Env)
    requires InstallReady(k) && Ops(k) && LogDisk(k)
    ensures EnvOk(InstallEnv(k)) && Ops(InstallEnv(k)) && LogDisk(InstallEnv(k))
  {
    assert IsHome(k.g, k.lh[k.phase.tail]);
  }

  lemma InstallCur(k: Env, b: int)
    requires InstallReady(k) && LogDisk(k) && IsHome(k.g, b)
    ensures Cur(InstallEnv(k), b) == Cur(k, b)
  {
    FindDistinct(k.lh, k.phase.tail);
  }

  lemma InstallOneOwn(k: Env, i: nat, b: Buf)
    requires InstallReady(k) && LogDisk(k) && BufOk(k, i, b) && b.pin == Some(k.phase.tail) && !b.dirty
    ensures BufOk(InstallEnv(k), i,
      b.(data := k.disk[k.g.start + 1 + k.phase.tail], refcnt := Dec(b.refcnt), pin := None))
  {
    BelowCard(b.holders, |k.active|);
    FindDistinct(k.lh, k.phase.tail);
    InstallCur(k, b.blockno);
  }

  lemma InstallOneOther(k: Env, i: nat, b: Buf)
    requires InstallReady(k) && LogDisk(k) && BufOk(k, i, b) && b.pin != Some(k.phase.tail)
    ensures BufOk(InstallEnv(k), i, b)
  {
    if b.valid { InstallCur(k, b.blockno); }
  }

  lemma InstallOneKeeps(s: State)
    requires Inv(s) && Enabled(s, InstallOne)
    ensures Inv(Do(s, InstallOne))
  {
    var s' := DoInstall(s);
    InstallEnvOk(s.k);
    forall i | 0 <= i < NBUF ensures BufOk(s'.k, i, s'.bufs[i]) { InstallBuf(s, i); }
    hide BufOk;
  }

  lemma InstallBuf(s: State, i: nat)
    requires Inv(s) && Enabled(s, InstallOne) && i < NBUF
    ensures BufOk(DoInstall(s).k, i, DoInstall(s).bufs[i])
  {
    assert BufOk(s.k, i, s.bufs[i]);
    Quiet(s, i);
    if i == s.k.slot[s.k.phase.tail] { InstallOneOwn(s.k, i, s.bufs[i]); }
    else { InstallOneOther(s.k, i, s.bufs[i]); }
  }

  lemma ClearHeadKeeps(s: State)
    requires Inv(s) && Enabled(s, ClearHead)
    ensures Inv(Do(s, ClearHead))
  {
    var s' := Do(s, ClearHead);
    HeaderRoundTrip(s.k.disk[s.k.g.start], []);
    forall i | 0 <= i < NBUF ensures BufOk(s'.k, i, s'.bufs[i]) {
      assert BufOk(s.k, i, s.bufs[i]);
    }
  }

  lemma CommitDoneKeeps(s: State)
    requires Inv(s) && Enabled(s, CommitDone)
    ensures Inv(Do(s, CommitDone))
  {
    var s' := Do(s, CommitDone);
    forall i | 0 <= i < NBUF ensures BufOk(s'.k, i, s'.bufs[i]) { assert BufOk(s.k, i, s.bufs[i]); }
  }

  // ---------- boot and crash ----------

  lemma {:induction false} ZeroCounts(n: nat)
    ensures Sum(seq(n, _ => 0)) == 0 && Count(seq(n, _ => false)) == 0
  {
    if n > 0 {
      ZeroCounts(n - 1);
      assert seq<nat>(n, _ => 0)[1..] == seq(n - 1, _ => 0);
      assert seq(n, _ => false)[1..] == seq(n - 1, _ => false);
    }
  }

  lemma BootOk(g: Geometry, d: Disk, threads: nat)
    requires WellFormed(g, d) && HeaderBlocks(d[g.start]) == [] && threads < UINT_RANGE - 2
    ensures Inv(Boot(g, d, threads))
  {
    ZeroCounts(threads);
  }

  lemma CrashKeeps(s: State, cuts: seq<nat>)
    requires Inv(s) && Enabled(s, Crash(cuts))
    ensures Inv(Do(s, Crash(cuts)))
  {
    var c := AfterCuts(s.k.g, s.k.disk, cuts);
    RecoverMeaning(s.k.g, c);
    BootOk(s.k.g, Recover(s.k.g, c), |s.k.active|);
  }

  /** Every event keeps the invariant. */
  lemma StepKeeps(s: State, e: Event)
    requires Inv(s) && Enabled(s, e)
    ensures Inv(Do(s, e))
  {
    match e
    case Bget(t, b, i) => BgetKeeps(s, t, b, i);
    case Evict(i) => EvictKeeps(s, i);
    case Lock(_, _) => OwnerKeeps(s, e);
    case Fill(_, _) => OwnerKeeps(s, e);
    case Modify(_, _, _) => OwnerKeeps(s, e);
    case LogWrite(t, i) => LogWriteKeeps(s, t, i);
    case Unlock(_, _) => OwnerKeeps(s, e);
    case Unref(t, i) => UnrefKeeps(s, t, i);
    case BeginOp(t) => BeginOpKeeps(s, t);
    case EndOp(t) => EndOpKeeps(s, t);
    case CopyOne => CopyOneKeeps(s);
    case WriteHead => WriteHeadKeeps(s);
    case InstallOne => InstallOneKeeps(s);
    case ClearHead => ClearHeadKeeps(s);
    case CommitDone => CommitDoneKeeps(s);
    case Crash(cuts) => CrashKeeps(s, cuts);
  }

  // ---------- refinement to a transactional block store ----------

  /** What a user of the file system may rely on: current is what reads return,
      durable is what a crash falls back to. Only home blocks matter. */
  datatype Store = Store(current: Disk, durable: Disk)

  datatype Action = Put(b: int, data: Block) | Commit | Revert | Stutter

  function Zero(): Block { seq(BLOCK_WORDS, _ => 0) }

  ghost function Abs(k: Env): Store
    requires EnvOk(k)
  {
    Store(seq(|k.disk|, b requires 0 <= b < |k.disk| => if IsHome(k.g, b) then Cur(k, b) else Zero()),
          seq(|k.disk|, b requires 0 <= b < |k.disk| =>
            if IsHome(k.g, b) then Recover(k.g, k.disk)[b] else Zero()))
  }

  function StoreDo(a: Store, act: Action): Store {
    match act
    case Put(b, data) => if 0 <= b < |a.current| then a.(current := a.current[b := data]) else a
    case Commit => a.(durable := a.current)
    case Revert => a.(current := a.durable)
    case Stutter => a
  }

  ghost function Label(s: State, e: Event): Action
    requires Shape(s) && Enabled(s, e)
  {
    match e
    case LogWrite(t, i) => Put(s.bufs[i].blockno, s.bufs[i].data)
    case WriteHead => Commit
    case Crash(_) => Revert
    case _ => Stutter
  }

  /** Recovery would bring the logged group exactly from the header write on. */
  lemma AbsAt(k: Env, b: int)
    requires EnvOk(k) && LogDisk(k) && IsHome(k.g, b)
    ensures Abs(k).current[b] == Cur(k, b)
    ensures Abs(k).durable[b] == if k.phase.Installing? then Cur(k, b) else k.disk[b]
  {
    RecoverMeaning(k.g, k.disk);
    var bs := HeaderBlocks(k.disk[k.g.start]);
    var j := Find(bs, b);
    if j < |bs| { assert IsHome(k.g, bs[j]); }
  }

  ghost predicate SameAt(a: Store, c: Store, b: int)
    requires 0 <= b < |a.current| == |a.durable| == |c.current| == |c.durable|
  {
    a.current[b] == c.current[b] && a.durable[b] == c.durable[b]
  }

  lemma StoreExt(a: Store, c: Store)
    requires |a.current| == |a.durable| == |c.current| == |c.durable|
    requires forall b :: 0 <= b < |a.current| ==> SameAt(a, c, b)
    ensures a == c
  {
    forall b | 0 <= b < |a.current|
      ensures a.current[b] == c.current[b] && a.durable[b] == c.durable[b]
    {
      assert SameAt(a, c, b);
    }
  }

  /** A crash, with any number of interrupted recoveries, goes back to the durable store. */
  lemma CrashRefines(s: State, cuts: seq<nat>)
    requires Inv(s) && Enabled(s, Crash(cuts))
    ensures Inv(Do(s, Crash(cuts)))
    ensures Abs(Do(s, Crash(cuts)).k) == StoreDo(Abs(s.k), Revert)
  {
    CrashKeeps(s, cuts);
    RecoveredStore(s.k, Do(s, Crash(cuts)).k, cuts);
  }

  lemma RecoveredStore(k: Env, k': Env, cuts: seq<nat>)
    requires EnvOk(k) && LogDisk(k) && EnvOk(k') && LogDisk(k') && k'.g == k.g && k'.lh == [] && k'.phase == Idle
    requires k'.disk == Recover(k.g, AfterCuts(k.g, k.disk, cuts))
    ensures Abs(k') == StoreDo(Abs(k), Revert)
  {
    InterruptedRecoveries(k.g, k.disk, cuts);
    forall b | 0 <= b < |k.disk| ensures SameAt(Abs(k'), StoreDo(Abs(k), Revert), b) {
      if IsHome(k.g, b) { AbsAt(k', b); AbsAt(k, b); }
    }
    StoreExt(Abs(k'), StoreDo(Abs(k), Revert));
  }

  /** How a step may change the disk and the log without the store noticing. */
  ghost predicate CommitStep(k: Env, k': Env, b: int)
    requires |k.logged| == |k.lh| && |k'.logged| == |k'.lh| && 0 <= b < |k.disk| == |k'.disk|
  {
    && Cur(k', b) == Cur(k, b)
    && (!k'.phase.Installing? ==> k'.disk[b] == if k.phase.Installing? then Cur(k, b) else k.disk[b])
  }

  lemma CommitStepAt(s: State, e: Event, b: int)
    requires Inv(s) && Enabled(s, e) && IsHome(s.k.g, b)
    requires e.CopyOne? || e.WriteHead? || e.InstallOne? || e.ClearHead?
    ensures |Do(s, e).k.logged| == |Do(s, e).k.lh| && |Do(s, e).k.disk| == |s.k.disk|
    ensures CommitStep(s.k, Do(s, e).k, b)
    ensures Do(s, e).k.phase.Installing? <==> e.WriteHead? || (e.InstallOne? && s.k.phase.Installing?)
  {
    if e.InstallOne? { InstallCur(s.k, b); }
  }

  lemma CommitRefines(s: State, e: Event)
    requires Inv(s) && Enabled(s, e)
    requires e.CopyOne? || e.WriteHead? || e.InstallOne? || e.ClearHead?
    ensures Inv(Do(s, e)) && Abs(Do(s, e).k) == StoreDo(Abs(s.k), Label(s, e))
  {
    StepKeeps(s, e);
    var k, k' := s.k, Do(s, e).k;
    var target := StoreDo(Abs(k), Label(s, e));
    forall b | 0 <= b < |k.disk| ensures SameAt(Abs(k'), target, b) {
      if IsHome(k.g, b) {
        CommitStepAt(s, e, b);
        CommitStepStore(k, k', b, e.WriteHead?);
      }
    }
    StoreExt(Abs(k'), target);
  }

  lemma CommitStepStore(k: Env, k': Env, b: int, commit: bool)
    requires EnvOk(k) && LogDisk(k) && EnvOk(k') && LogDisk(k') && k'.g == k.g && IsHome(k.g, b)
    requires CommitStep(k, k', b)
    requires k'.phase.Installing? ==> commit || k.phase.Installing?
    requires commit ==> k'.phase.Installing?
    ensures SameAt(Abs(k'), StoreDo(Abs(k), if commit then Commit else Stutter), b)
  {
    AbsAt(k, b);
    AbsAt(k', b);
  }

  lemma LogWriteRefines(s: State, t: nat, i: nat)
    requires Inv(s) && Enabled(s, LogWrite(t, i))
    ensures Inv(Do(s, LogWrite(t, i)))
    ensures Abs(Do(s, LogWrite(t, i)).k) == StoreDo(Abs(s.k), Put(s.bufs[i].blockno, s.bufs[i].data))
  {
    LogWriteKeeps(s, t, i);
    LogWriteIsReady(s, t, i);
    LogEnvRefines(s.k, t, i, s.bufs[i].blockno, s.bufs[i].data);
  }

  lemma LogEnvRefines(k: Env, t: nat, i: nat, x: int, data: Block)
    requires LogReady(k, t, i, x)
    ensures EnvOk(LogEnv(k, t, i, x, data))
    ensures Abs(LogEnv(k, t, i, x, data)) == StoreDo(Abs(k), Put(x, data))
  {
    LogEnvOk(k, t, i, x, data);
    var k' := LogEnv(k, t, i, x, data);
    forall b | 0 <= b < |k.disk| ensures SameAt(Abs(k'), StoreDo(Abs(k), Put(x, data)), b) {
      if IsHome(k.g, b) { LogStore(k, t, i, x, data, b); }
    }
    StoreExt(Abs(k'), StoreDo(Abs(k), Put(x, data)));
  }

  lemma SameStore(k: Env, k': Env)
    requires EnvOk(k) && EnvOk(k')
    requires k'.g == k.g && k'.disk == k.disk && k'.lh == k.lh && k'.logged == k.logged
    ensures Abs(k') == Abs(k)
  {
    assert Abs(k').current == Abs(k).current;
    assert Abs(k').durable == Abs(k).durable;
  }

  lemma ClientEnv(s: State, e: Event)
    requires Shape(s) && Enabled(s, e)
    requires !e.LogWrite? && !e.CopyOne? && !e.WriteHead? && !e.InstallOne? && !e.ClearHead? && !e.Crash?
    ensures var k := Do(s, e).k; k.g == s.k.g && k.disk == s.k.disk && k.lh == s.k.lh && k.logged == s.k.logged
    ensures Label(s, e) == Stutter
  {
    hide EnvOk;
  }

  lemma ClientStutters(s: State, e: Event)
    requires Inv(s) && Enabled(s, e)
    requires !e.LogWrite? && !e.CopyOne? && !e.WriteHead? && !e.InstallOne? && !e.ClearHead? && !e.Crash?
    ensures Inv(Do(s, e)) && Abs(Do(s, e).k) == StoreDo(Abs(s.k), Label(s, e))
  {
    hide EnvOk, Ops, BufsOk, Pinned, Unique, LogDisk, Do, Enabled, Abs, Label;
    StepKeeps(s, e);
    ClientEnv(s, e);
    SameStore(s.k, Do(s, e).k);
  }

  /** Each event is one action of the transactional store, or none: only log_write
      changes what is read, only the header write changes what is durable, and a
      crash at any moment goes back to exactly that. */
  lemma StepRefines(s: State, e: Event)
    requires Inv(s) && Enabled(s, e)
    ensures Inv(Do(s, e))
    ensures Abs(Do(s, e).k) == StoreDo(Abs(s.k), Label(s, e))
  {
    hide Inv, Enabled, Do, Abs, Shape;
    match e
    case LogWrite(t, i) => LogWriteRefines(s, t, i);
    case CopyOne => CommitRefines(s, e);
    case WriteHead => CommitRefines(s, e);
    case InstallOne => CommitRefines(s, e);
    case ClearHead => CommitRefines(s, e);
    case Crash(cuts) => CrashRefines(s, cuts);
    case _ => ClientStutters(s, e);
  }

  // ---------- whole runs ----------

  ghost predicate Legal(s: State, es: seq<Event>) {
    es == [] ||
    (Legal(s, es[..|es| - 1]) && Shape(Run(s, es[..|es| - 1])) && Enabled(Run(s, es[..|es| - 1]), es[|es| - 1]))
  }

  ghost function Run(s: State, es: seq<Event>): State {
    if es == [] then s
    else
      var p := Run(s, es[..|es| - 1]);
      if Shape(p) && Enabled(p, es[|es| - 1]) then Do(p, es[|es| - 1]) else p
  }

  /** In every reachable state the cache and log behave as the transactional store. */
  lemma {:induction false} RunKeeps(s: State, es: seq<Event>)
    requires Inv(s) && Legal(s, es)
    ensures Inv(Run(s, es))
  {
    if es != [] {
      RunKeeps(s, es[..|es| - 1]);
      StepKeeps(Run(s, es[..|es| - 1]), es[|es| - 1]);
    }
  }

  ghost function Labels(s: State, es: seq<Event>): seq<Action>
    requires Legal(s, es)
  {
    if es == [] then []
    else Labels(s, es[..|es| - 1]) + [Label(Run(s, es[..|es| - 1]), es[|es| - 1])]
  }

  function StoreRun(a: Store, acts: seq<Action>): Store {
    if acts == [] then a else StoreDo(StoreRun(a, acts[..|acts| - 1]), acts[|acts| - 1])
  }

  lemma {:induction false} RunRefines(s: State, es: seq<Event>)
    requires Inv(s) && Legal(s, es)
    ensures Inv(Run(s, es)) && Abs(Run(s, es).k) == StoreRun(Abs(s.k), Labels(s, es))
  {
    if es != [] {
      var p := es[..|es| - 1];
      RunRefines(s, p);
      StepRefines(Run(s, p), es[|es| - 1]);
      assert Labels(s, es)[..|Labels(s, es)| - 1] == Labels(s, p);
    }
  }

  /** What survives a crash at any moment of any run is the store as it was at some
      earlier moment when no file system call was in progress: never part of a call. */
  lemma {:induction false} DurableIsQuiescent(s: State, es: seq<Event>) returns (q: nat)
    requires Inv(s) && s.k.outstanding == 0 && s.k.lh == [] && s.k.phase == Idle && Legal(s, es)
    ensures q <= |es| && Inv(Run(s, es)) && Inv(Run(s, es[..q]))
    ensures Run(s, es[..q]).k.outstanding == 0
    ensures Abs(Run(s, es).k).durable == Abs(Run(s, es[..q]).k).current
  {
    hide Inv, Enabled, Do, Abs, Shape;
    RunKeeps(s, es);
    if es == [] {
      q := 0;
      EmptyLogDurable(s);
    } else {
      var p := es[..|es| - 1];
      RunKeeps(s, p);
      DurableStep(Run(s, p), es[|es| - 1]);
      if es[|es| - 1].WriteHead? {
        q := |es| - 1;
      } else {
        q := DurableIsQuiescent(s, p);
        assert p[..q] == es[..q];
      }
    }
  }

  /** The same for the disk: crash after any run with any log contents, let any number of
      recoveries be cut short, and the last one leaves the store of a quiescent moment. */
  lemma CrashAnywhere(s: State, es: seq<Event>, cuts: seq<nat>) returns (q: nat)
    requires Inv(s) && s.k.outstanding == 0 && s.k.lh == [] && s.k.phase == Idle && Legal(s, es)
    ensures q <= |es| && Inv(Run(s, es)) && Inv(Run(s, es[..q])) && Run(s, es[..q]).k.outstanding == 0
    ensures var k := Run(s, es).k;
      var r := Recover(k.g, AfterCuts(k.g, k.disk, cuts));
      var a := Abs(Run(s, es[..q]).k).current;
      |r| == |a| && forall b :: IsHome(k.g, b) ==> 0 <= b < |r| && r[b] == a[b]
  {
    q := DurableIsQuiescent(s, es);
    var k := Run(s, es).k;
    assert EnvOk(k);
    InterruptedRecoveries(k.g, k.disk, cuts);
    RecoverMeaning(k.g, k.disk);
    assert |Abs(k).durable| == |k.disk|;
    hide Inv, Run;
  }

  lemma EmptyLogDurable(s: State)
    requires Inv(s) && s.k.lh == [] && s.k.phase == Idle
    ensures Abs(s.k).durable == Abs(s.k).current
  {
    forall b | 0 <= b < |s.k.disk| ensures Abs(s.k).durable[b] == Abs(s.k).current[b] {
      if IsHome(s.k.g, b) { AbsAt(s.k, b); }
    }
  }

  lemma CommitIsQuiet(s: State)
    requires Inv(s) && Enabled(s, WriteHead)
    ensures s.k.outstanding == 0
  {
  }

  /** Only the header write moves the durable store, and it does so between calls. */
  lemma DurableStep(s: State, e: Event)
    requires Inv(s) && Enabled(s, e)
    ensures Inv(Do(s, e))
    ensures e.WriteHead? ==> s.k.outstanding == 0 && Abs(Do(s, e).k).durable == Abs(s.k).current
    ensures !e.WriteHead? ==> Abs(Do(s, e).k).durable == Abs(s.k).durable
  {
    hide Inv, Enabled, Do, Abs, Shape;
    StepRefines(s, e);
    if e.WriteHead? { CommitIsQuiet(s); }
  }

  /** bread: whoever has a buffer locked and unmodified sees the plain store's block,
      and it is the block that bget was asked for, however long bget waited. */
  lemma ReadSeesStore(s: State, t: nat, i: nat)
    requires Inv(s) && Owns(s, t, i) && s.bufs[i].valid && !s.bufs[i].dirty
    ensures IsHome(s.k.g, s.bufs[i].blockno)
    ensures s.bufs[i].data == Abs(s.k).current[s.bufs[i].blockno]
  {
    assert BufOk(s.k, i, s.bufs[i]);
    AbsAt(s.k, s.bufs[i].blockno);
  }

  /** A buffer keeps its identity from bget until its user lets go of it. */
  lemma HeldKeepsBlock(s: State, e: Event, t: nat, i: nat)
    requires Inv(s) && Enabled(s, e) && !e.Crash? && i < NBUF && t in s.bufs[i].holders
    requires e != Unref(t, i)
    ensures Do(s, e).bufs[i].blockno == s.bufs[i].blockno && t in Do(s, e).bufs[i].holders
  {
    assert BufOk(s.k, i, s.bufs[i]);
    assert s.bufs[i].holders != {};
  }

  /** Recycling loses nothing: a buffer nobody counts equals its home block on disk. */
  lemma UnusedIsClean(s: State, i: nat)
    requires Inv(s) && i < NBUF && s.bufs[i].refcnt == 0 && s.bufs[i].valid
    ensures IsHome(s.k.g, s.bufs[i].blockno) && s.bufs[i].data == s.k.disk[s.bufs[i].blockno]
  {
    assert BufOk(s.k, i, s.bufs[i]);
    assert s.bufs[i].owner == None;
    forall j | Uninstalled(s.k.phase) <= j < |s.k.lh| ensures s.k.lh[j] != s.bufs[i].blockno {
      assert BufOk(s.k, s.k.slot[j], s.bufs[s.k.slot[j]]);
    }
  }

  /** end_op by a running operation never finds a commit in progress. */
  lemma EndOpNeverPanics(s: State, t: nat)
    requires Inv(s) && t < |s.k.active| && s.k.active[t]
    ensures !s.k.committing && s.k.outstanding >= 1
  {
    CountUpdate(s.k.active, t, true);
  }

  /** Once a commit is over nothing is pinned, so each pin was undone exactly once. */
  lemma PinsBalance(s: State, i: nat)
    requires Inv(s) && s.k.lh == [] && i < NBUF
    ensures s.bufs[i].pin == None && s.bufs[i].refcnt == |s.bufs[i].holders|
  {
    assert BufOk(s.k, i, s.bufs[i]);
  }
}
