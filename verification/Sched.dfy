/** Every interleaving of the scheduler, sleep, wakeup, exit, wait and the sleep locks
    (kernel/proc.c, kernel/sleeplock.c) on several CPUs. A CPU runs either its scheduler
    thread or the kernel thread of one process; a spinlock is owned by a CPU; swtch hands
    the CPU, with p->lock still held, to the other thread. Each event is what one thread
    does between two points at which others can see it. */
module Sched {
  import opened Options

  datatype PState = Unused | Sleeping | Runnable | Running | Zombie

  datatype Chan = LockChan(l: nat) | ProcChan(p: nat)

  /** Where the kernel thread of a process is. */
  datatype Pc =
    | Run                       // outside the code below; may hold other processes' locks
    | Held                      // has acquired its own p->lock (yield, wait, exit)
    | Leaving                   // holds p->lock, has changed p->state, about to call swtch
    | Saved                     // switched out, or not started
    | Resumed                   // swtch has returned, p->lock is held
    | AcqHold(l: nat)           // acquiresleep holds lk->lk and tests lk->locked
    | AcqBoth(l: nat)           // sleep holds lk->lk and p->lock
    | AcqOwn(l: nat)            // sleep has released lk->lk, p->state not yet changed
    | RelScan(l: nat, i: nat)   // releasesleep holds lk->lk, wakeup is at process i
    | RelHold(l: nat, i: nat)   // wakeup holds the lock of process i

  /** on is the CPU whose c->proc is this process; cont is the sleep lock the thread
      still has to acquire once it runs again; pid is 0 in an unused slot. */
  datatype Proc = Proc(state: PState, chan: Option<Chan>, lock: Option<nat>, pc: Pc,
                       on: Option<nat>, cont: Option<nat>, pid: nat)

  /** The thread a CPU executes. */
  datatype Mode =
    | Idle               // the scheduler, between processes
    | Chosen(p: nat)     // the scheduler, with p->lock acquired
    | OnProc(p: nat)     // the kernel thread of p, on p's stack
    | Back(p: nat)       // the scheduler, after swtch has returned from p

  datatype Cpu = Cpu(proc: Option<nat>, mode: Mode)

  /** struct sleeplock; lk is the owner of the inner spinlock, scan how far the wakeup
      of a releasesleep in progress has come. holders is history: the pids of all processes
      for which acquiresleep has returned and that have not called releasesleep since. */
  datatype SleepLock = SleepLock(locked: bool, pid: nat, lk: Option<nat>, scan: Option<nat>, holders: set<nat>)

  datatype State = State(procs: seq<Proc>, cpus: seq<Cpu>, locks: seq<SleepLock>, nextpid: nat)

  datatype Event =
    // scheduler
    | Choose(c: nat, p: nat)       // acquire(&p->lock)
    | Skip(c: nat)                 // not RUNNABLE: release
    | Switch(c: nat)               // RUNNING, c->proc = p, swtch to p
    | Finish(c: nat)               // c->proc = 0, release(&p->lock)
    // the running thread and its own lock
    | Resume(c: nat)               // release(&p->lock) after swtch or in forkret
    | KeepLock(c: nat)             // wait goes on with p->lock held
    | AcquireOwn(c: nat)
    | ReleaseOwn(c: nat)
    | SetYield(c: nat)
    | SetZombie(c: nat)
    | SetSleep(c: nat, q: nat)     // sleep on a process channel (wait)
    | Leave(c: nat)                // sched: swtch to the scheduler
    // the running thread and other processes
    | AcquireOther(c: nat, q: nat)
    | ReleaseOther(c: nat, q: nat)
    | Wake(c: nat, q: nat)         // wakeup, wakeup1, kill
    | Reap(c: nat, q: nat)         // wait: freeproc
    | Create(c: nat, q: nat)       // fork: np->state = RUNNABLE
    // sleep locks
    | AcqStart(c: nat, l: nat)     // acquire(&lk->lk), also after waking up
    | AcqTake(c: nat)              // not locked: take it, release(&lk->lk)
    | AcqOwnLock(c: nat)           // locked: sleep acquires p->lock
    | AcqDrop(c: nat)              // sleep releases lk->lk
    | AcqSleep(c: nat)             // p->chan = lk, p->state = SLEEPING
    | RelStart(c: nat, l: nat)     // a holder: acquire(&lk->lk), locked = 0, wakeup starts
    | RelLock(c: nat)              // wakeup acquires the lock of process i
    | RelNext(c: nat)              // wakes it if it sleeps here, releases its lock
    | RelEnd(c: nat)               // wakeup is done: release(&lk->lk)

  // ---------- guards and effects ----------

  predicate InRange(s: State, c: nat) {
    c < |s.cpus| && (s.cpus[c].mode.Idle? || s.cpus[c].mode.p < |s.procs|)
  }

  /** CPU c executes the kernel thread of a process. */
  predicate Executes(s: State, c: nat) {
    InRange(s, c) && s.cpus[c].mode.OnProc?
  }

  function Cur(s: State, c: nat): nat
    requires Executes(s, c)
  {
    s.cpus[c].mode.p
  }

  function CurPc(s: State, c: nat): Pc
    requires Executes(s, c)
  {
    s.procs[Cur(s, c)].pc
  }

  /** sched's check mycpu()->noff == 1: of all spinlocks c holds only that of p. */
  predicate HoldsOnly(s: State, c: nat, p: nat) {
    && (forall q :: 0 <= q < |s.procs| && q != p ==> s.procs[q].lock != Some(c))
    && (forall l :: 0 <= l < |s.locks| ==> s.locks[l].lk != Some(c))
  }

  predicate Enabled(s: State, e: Event) {
    match e
    case Choose(c, p) => c < |s.cpus| && s.cpus[c].mode == Idle && p < |s.procs| && s.procs[p].lock == None
    case Skip(c) => InRange(s, c) && s.cpus[c].mode.Chosen? && s.procs[s.cpus[c].mode.p].state != Runnable
    case Switch(c) => InRange(s, c) && s.cpus[c].mode.Chosen? && s.procs[s.cpus[c].mode.p].state == Runnable
    case Finish(c) => InRange(s, c) && s.cpus[c].mode.Back?
    case Resume(c) => Executes(s, c) && CurPc(s, c) == Pc.Resumed
    case KeepLock(c) => Executes(s, c) && CurPc(s, c) == Pc.Resumed && s.procs[Cur(s, c)].cont == None
    case AcquireOwn(c) => Executes(s, c) && CurPc(s, c) == Run && s.procs[Cur(s, c)].lock == None
    case ReleaseOwn(c) => Executes(s, c) && CurPc(s, c) == Held
    case SetYield(c) => Executes(s, c) && CurPc(s, c) == Held
    case SetZombie(c) => Executes(s, c) && CurPc(s, c) == Held
    case SetSleep(c, q) => Executes(s, c) && CurPc(s, c) == Held && s.procs[Cur(s, c)].cont == None
    case Leave(c) => Executes(s, c) && CurPc(s, c) == Pc.Leaving && HoldsOnly(s, c, Cur(s, c))
    case AcquireOther(c, q) =>
      Executes(s, c) && CurPc(s, c) in {Run, Held} && q < |s.procs| && q != Cur(s, c) && s.procs[q].lock == None
    case ReleaseOther(c, q) =>
      OwnsOther(s, c, q) || (LeavesWith(s, c, q) && s.procs[q].lock == Some(c))
    case Wake(c, q) => OwnsOther(s, c, q) && s.procs[q].state == Sleeping
    case Reap(c, q) => OwnsOther(s, c, q) && s.procs[q].state == Zombie
    case Create(c, q) => OwnsOther(s, c, q) && s.procs[q].state == Unused
    case AcqStart(c, l) =>
      && Executes(s, c) && CurPc(s, c) == Run && l < |s.locks| && s.locks[l].lk == None
      && (s.procs[Cur(s, c)].cont == None || s.procs[Cur(s, c)].cont == Some(l))
    case AcqTake(c) => AcqTest(s, c) && !s.locks[CurPc(s, c).l].locked
    case AcqOwnLock(c) => AcqTest(s, c) && s.locks[CurPc(s, c).l].locked && s.procs[Cur(s, c)].lock == None
    case AcqDrop(c) => Executes(s, c) && CurPc(s, c).AcqBoth? && CurPc(s, c).l < |s.locks|
    case AcqSleep(c) => Executes(s, c) && CurPc(s, c).AcqOwn?
    case RelStart(c, l) =>
      && Executes(s, c) && CurPc(s, c) == Run && s.procs[Cur(s, c)].cont == None
      && l < |s.locks| && s.locks[l].lk == None && s.procs[Cur(s, c)].pid in s.locks[l].holders
    case RelLock(c) =>
      Executes(s, c) && CurPc(s, c).RelScan? && CurPc(s, c).i < |s.procs| && s.procs[CurPc(s, c).i].lock == None
    case RelNext(c) =>
      Executes(s, c) && CurPc(s, c).RelHold? && CurPc(s, c).i < |s.procs| && CurPc(s, c).l < |s.locks|
    case RelEnd(c) =>
      Executes(s, c) && CurPc(s, c).RelScan? && CurPc(s, c).i == |s.procs| && CurPc(s, c).l < |s.locks|
  }

  predicate OwnsOther(s: State, c: nat, q: nat) {
    Executes(s, c) && CurPc(s, c) in {Run, Held} && q < |s.procs| && q != Cur(s, c) && s.procs[q].lock == Some(c)
  }

  /** exit releases its parent's lock after it has become a zombie. */
  predicate LeavesWith(s: State, c: nat, q: nat) {
    Executes(s, c) && CurPc(s, c) == Pc.Leaving && q < |s.procs| && q != Cur(s, c)
  }

  predicate AcqTest(s: State, c: nat) {
    Executes(s, c) && CurPc(s, c).AcqHold? && CurPc(s, c).l < |s.locks|
  }

  function SetProc(s: State, p: nat, x: Proc): State
    requires p < |s.procs|
  {
    s.(procs := s.procs[p := x])
  }

  function SetCpu(s: State, c: nat, x: Cpu): State
    requires c < |s.cpus|
  {
    s.(cpus := s.cpus[c := x])
  }

  function SetLock(s: State, l: nat, x: SleepLock): State
    requires l < |s.locks|
  {
    s.(locks := s.locks[l := x])
  }

  predicate SchedEvent(e: Event) {
    e.Choose? || e.Skip? || e.Switch? || e.Finish? || e.Leave?
  }

  predicate OwnEvent(e: Event) {
    e.Resume? || e.KeepLock? || e.AcquireOwn? || e.ReleaseOwn? || e.SetYield? || e.SetZombie? || e.SetSleep?
  }

  predicate OtherEvent(e: Event) {
    e.AcquireOther? || e.ReleaseOther? || e.Wake? || e.Reap? || e.Create?
  }

  predicate AcqEvent(e: Event) {
    e.AcqStart? || e.AcqTake? || e.AcqOwnLock? || e.AcqDrop? || e.AcqSleep?
  }

  function DoSched(s: State, e: Event): State
    requires SchedEvent(e) && Enabled(s, e)
  {
    match e
    case Choose(c, p) =>
      SetCpu(SetProc(s, p, s.procs[p].(lock := Some(c))), c, s.cpus[c].(mode := Chosen(p)))
    case Skip(c) =>
      var p := s.cpus[c].mode.p;
      SetCpu(SetProc(s, p, s.procs[p].(lock := None)), c, s.cpus[c].(mode := Idle))
    case Switch(c) =>
      var p := s.cpus[c].mode.p;
      SetCpu(SetProc(s, p, s.procs[p].(state := Running, pc := Pc.Resumed, on := Some(c))), c, Cpu(Some(p), OnProc(p)))
    case Finish(c) =>
      var p := s.cpus[c].mode.p;
      SetCpu(SetProc(s, p, s.procs[p].(lock := None, on := None)), c, Cpu(None, Idle))
    case Leave(c) =>
      var p := Cur(s, c);
      SetCpu(SetProc(s, p, s.procs[p].(pc := Saved)), c, s.cpus[c].(mode := Back(p)))
  }

  /** The running process after an event on its own lock and state. */
  function OwnAfter(x: Proc, e: Event): Proc
    requires OwnEvent(e)
  {
    match e
    case Resume(c) => x.(lock := None, pc := Run, chan := None)
    case KeepLock(c) => x.(pc := Held, chan := None)
    case AcquireOwn(c) => x.(lock := Some(c), pc := Held)
    case ReleaseOwn(c) => x.(lock := None, pc := Run)
    case SetYield(c) => x.(state := Runnable, pc := Pc.Leaving)
    case SetZombie(c) => x.(state := Zombie, pc := Pc.Leaving)
    case SetSleep(c, q) => x.(state := Sleeping, chan := Some(ProcChan(q)), pc := Pc.Leaving)
  }

  /** Another process after an event on it. */
  function OtherAfter(x: Proc, e: Event, pid: nat): Proc
    requires OtherEvent(e)
  {
    match e
    case AcquireOther(c, q) => x.(lock := Some(c))
    case ReleaseOther(c, q) => x.(lock := None)
    case Wake(c, q) => x.(state := Runnable)
    case Reap(c, q) => x.(state := Unused, chan := None, cont := None, pid := 0)
    case Create(c, q) => x.(state := Runnable, chan := None, cont := None, pid := pid)
  }

  /** acquiresleep, with the sleep it contains. */
  function DoAcq(s: State, e: Event): State
    requires AcqEvent(e) && Enabled(s, e)
  {
    var p := Cur(s, e.c);
    var x := s.procs[p];
    match e
    case AcqStart(c, l) =>
      SetLock(SetProc(s, p, x.(pc := AcqHold(l), cont := None)), l, s.locks[l].(lk := Some(c)))
    case AcqTake(c) =>
      var k := s.locks[x.pc.l];
      SetLock(SetProc(s, p, x.(pc := Run)), x.pc.l,
              k.(locked := true, pid := x.pid, lk := None, holders := k.holders + {x.pid}))
    case AcqOwnLock(c) =>
      SetProc(s, p, x.(lock := Some(c), pc := AcqBoth(x.pc.l)))
    case AcqDrop(c) =>
      SetLock(SetProc(s, p, x.(pc := AcqOwn(x.pc.l))), x.pc.l, s.locks[x.pc.l].(lk := None))
    case AcqSleep(c) =>
      SetProc(s, p, x.(state := Sleeping, chan := Some(LockChan(x.pc.l)), pc := Pc.Leaving, cont := Some(x.pc.l)))
  }

  function Woken(x: Proc, l: nat): Proc {
    if x.state == Sleeping && x.chan == Some(LockChan(l)) then x.(lock := None, state := Runnable) else x.(lock := None)
  }

  /** releasesleep, with its wakeup. */
  function DoRel(s: State, e: Event): State
    requires Enabled(s, e) && (e.RelStart? || e.RelLock? || e.RelNext? || e.RelEnd?)
  {
    var p := Cur(s, e.c);
    var pc := s.procs[p].pc;
    match e
    case RelStart(c, l) =>
      SetLock(SetProc(s, p, s.procs[p].(pc := RelScan(l, 0))), l,
              SleepLock(false, 0, Some(c), Some(0), s.locks[l].holders - {s.procs[p].pid}))
    case RelLock(c) =>
      var s1 := SetProc(s, pc.i, s.procs[pc.i].(lock := Some(c)));
      SetProc(s1, p, s1.procs[p].(pc := RelHold(pc.l, pc.i)))
    case RelNext(c) =>
      var s1 := SetProc(s, pc.i, Woken(s.procs[pc.i], pc.l));
      SetLock(SetProc(s1, p, s1.procs[p].(pc := RelScan(pc.l, pc.i + 1))), pc.l, s.locks[pc.l].(scan := Some(pc.i + 1)))
    case RelEnd(c) =>
      SetLock(SetProc(s, p, s.procs[p].(pc := Run)), pc.l, s.locks[pc.l].(lk := None, scan := None))
  }

  function Do(s: State, e: Event): State
    requires Enabled(s, e)
  {
    if SchedEvent(e) then DoSched(s, e)
    else if OwnEvent(e) then SetProc(s, Cur(s, e.c), OwnAfter(s.procs[Cur(s, e.c)], e))
    else if OtherEvent(e) then
      SetProc(s, e.q, OtherAfter(s.procs[e.q], e, s.nextpid)).(nextpid := s.nextpid + if e.Create? then 1 else 0)
    else if AcqEvent(e) then DoAcq(s, e)
    else DoRel(s, e)
  }

  // ---------- the invariant ----------

  /** The thread holds its own p->lock. */
  predicate OwnHeld(p: nat, pc: Pc) {
    pc.Held? || pc.Leaving? || pc.Resumed? || pc.AcqBoth? || pc.AcqOwn? || (pc.RelHold? && pc.i == p)
  }

  /** The thread holds the inner spinlock of a sleep lock. */
  predicate InnerHeld(pc: Pc) {
    pc.AcqHold? || pc.AcqBoth? || pc.RelScan? || pc.RelHold?
  }

  /** Asleep on sleep lock l, or past the point where sleep has given up lk->lk. */
  predicate Waiting(x: Proc, l: nat) {
    x.pc == AcqOwn(l) || (x.state == Sleeping && x.chan == Some(LockChan(l)))
  }

  ghost predicate CpuOk(s: State, c: nat)
    requires c < |s.cpus|
  {
    var x := s.cpus[c];
    && (x.proc.Some? ==> x.proc.value < |s.procs| && s.procs[x.proc.value].on == Some(c))
    && match x.mode
       case Idle => x.proc == None
       case Chosen(p) => x.proc == None && p < |s.procs| && s.procs[p].lock == Some(c)
       case OnProc(p) => x.proc == Some(p)
       case Back(p) => x.proc == Some(p) && p < |s.procs| && s.procs[p].lock == Some(c)
  }

  /** The process alone and the CPU it is on. */
  ghost predicate ProcOk(s: State, p: nat)
    requires p < |s.procs|
  {
    var x := s.procs[p];
    && (x.on == None ==> x.pc == Saved && x.state != Running)
    && (x.on.Some? ==>
          && x.on.value < |s.cpus| && s.cpus[x.on.value].proc == Some(p)
          && s.cpus[x.on.value].mode == if x.pc == Saved then Back(p) else OnProc(p))
    && (x.pc != Saved ==> (x.lock == x.on <==> OwnHeld(p, x.pc)))
    && (x.on.Some? && (x.pc == Saved || x.pc == Pc.Leaving) ==> x.state in {Runnable, Sleeping, Zombie})
    && (x.pc != Saved && x.pc != Pc.Leaving ==> x.state == Running)
  }

  /** The sleep lock as a thread that holds its inner spinlock sees it. */
  ghost predicate InnerOk(s: State, p: nat)
    requires p < |s.procs|
  {
    var x := s.procs[p];
    InnerHeld(x.pc) ==>
      && x.pc.l < |s.locks| && s.locks[x.pc.l].lk == x.on
      && (x.pc.AcqHold? || x.pc.AcqBoth? ==> s.locks[x.pc.l].scan == None)
      && (x.pc.AcqBoth? ==> s.locks[x.pc.l].locked)
      && (x.pc.RelScan? || x.pc.RelHold? ==>
            x.pc.i <= |s.procs| && s.locks[x.pc.l].scan == Some(x.pc.i) && !s.locks[x.pc.l].locked)
      && (x.pc.RelHold? ==> x.pc.i < |s.procs| && s.procs[x.pc.i].lock == x.on)
  }

  /** Whoever waits for a lock either finds it locked, or is still ahead of the wakeup
      of the releasesleep that unlocked it. */
  ghost predicate NotLost(s: State, p: nat, l: nat)
    requires p < |s.procs| && l < |s.locks|
  {
    Waiting(s.procs[p], l) ==>
      s.locks[l].locked || (s.locks[l].scan.Some? && s.locks[l].scan.value <= p)
  }

  ghost predicate LockOk(s: State, l: nat)
    requires l < |s.locks|
  {
    && (s.locks[l].scan.Some? ==> s.locks[l].lk.Some?)
    && forall p :: 0 <= p < |s.procs| ==> NotLost(s, p, l)
  }

  ghost predicate Inv(s: State) {
    && (forall c :: 0 <= c < |s.cpus| ==> CpuOk(s, c))
    && (forall p :: 0 <= p < |s.procs| ==> ProcOk(s, p))
    && (forall p :: 0 <= p < |s.procs| ==> InnerOk(s, p))
    && (forall l :: 0 <= l < |s.locks| ==> LockOk(s, l))
  }

  // ---------- every event keeps the invariant ----------

  /** A process whose lock a scheduler or another thread holds, and which is not
      RUNNING, is on no CPU's stack. */
  lemma NotOnStack(s: State, c: nat, p: nat)
    requires Inv(s) && p < |s.procs| && c < |s.cpus| && s.procs[p].lock == Some(c) && s.procs[p].state != Running
    requires s.cpus[c].mode != OnProc(p) && s.cpus[c].mode != Back(p)
    ensures s.procs[p].on == None && s.procs[p].pc == Saved
  {
    assert ProcOk(s, p);
    forall d | 0 <= d < |s.cpus| ensures s.cpus[d].mode == Back(p) ==> s.procs[p].lock == Some(d) {
      assert CpuOk(s, d);
    }
  }

  lemma SchedCpus(s: State, e: Event, c: nat)
    requires Inv(s) && SchedEvent(e) && Enabled(s, e) && c < |s.cpus|
    ensures CpuOk(Do(s, e), c)
  {
    assert CpuOk(s, c) && CpuOk(s, e.c);
    if e.Switch? { NotOnStack(s, e.c, s.cpus[e.c].mode.p); }
    if e.Leave? { assert ProcOk(s, Cur(s, e.c)); }
  }

  lemma SchedProcs(s: State, e: Event, p: nat)
    requires Inv(s) && SchedEvent(e) && Enabled(s, e) && p < |s.procs|
    ensures ProcOk(Do(s, e), p)
  {
    assert ProcOk(s, p) && InnerOk(s, p) && CpuOk(s, e.c);
    if e.Switch? { NotOnStack(s, e.c, s.cpus[e.c].mode.p); }
    if e.Leave? { assert ProcOk(s, Cur(s, e.c)); }
  }

  lemma SchedInner(s: State, e: Event, p: nat)
    requires Inv(s) && SchedEvent(e) && Enabled(s, e) && p < |s.procs|
    ensures InnerOk(Do(s, e), p)
  {
    assert ProcOk(s, p) && InnerOk(s, p) && CpuOk(s, e.c);
    if e.Leave? { assert ProcOk(s, Cur(s, e.c)); }
  }

  lemma SchedLocks(s: State, e: Event, l: nat)
    requires Inv(s) && SchedEvent(e) && Enabled(s, e) && l < |s.locks|
    ensures LockOk(Do(s, e), l)
  {
    assert LockOk(s, l);
    forall p | 0 <= p < |s.procs| ensures NotLost(Do(s, e), p, l) { assert NotLost(s, p, l); }
  }

  lemma OwnKeeps(s: State, e: Event)
    requires Inv(s) && OwnEvent(e) && Enabled(s, e)
    ensures Inv(Do(s, e))
  {
    OwnShape(s, e);
    hide CpuOk, ProcOk, InnerOk, LockOk, Do, Enabled;
    forall c | 0 <= c < |s.cpus| ensures CpuOk(Do(s, e), c) { OwnCpus(s, e, c); }
    forall p | 0 <= p < |s.procs| ensures ProcOk(Do(s, e), p) && InnerOk(Do(s, e), p) { OwnProcs(s, e, p); }
    forall l | 0 <= l < |s.locks| ensures LockOk(Do(s, e), l) { OwnLocks(s, e, l); }
  }

  lemma OwnShape(s: State, e: Event)
    requires Inv(s) && OwnEvent(e) && Enabled(s, e)
    ensures |Do(s, e).cpus| == |s.cpus| && |Do(s, e).procs| == |s.procs| && |Do(s, e).locks| == |s.locks|
  {
  }

  lemma OwnCpus(s: State, e: Event, c: nat)
    requires Inv(s) && OwnEvent(e) && Enabled(s, e) && c < |s.cpus|
    ensures CpuOk(Do(s, e), c)
  {
    assert ProcOk(s, Cur(s, e.c)) && CpuOk(s, e.c) && CpuOk(s, c);
  }

  lemma OwnProcs(s: State, e: Event, p: nat)
    requires Inv(s) && OwnEvent(e) && Enabled(s, e) && p < |s.procs|
    ensures ProcOk(Do(s, e), p) && InnerOk(Do(s, e), p)
  {
    assert ProcOk(s, Cur(s, e.c)) && CpuOk(s, e.c) && ProcOk(s, p) && InnerOk(s, p);
  }

  lemma OwnLocks(s: State, e: Event, l: nat)
    requires Inv(s) && OwnEvent(e) && Enabled(s, e) && l < |s.locks|
    ensures LockOk(Do(s, e), l)
  {
    assert ProcOk(s, Cur(s, e.c)) && CpuOk(s, e.c) && LockOk(s, l);
    forall p | 0 <= p < |s.procs| ensures NotLost(Do(s, e), p, l) { assert NotLost(s, p, l); }
  }

  lemma OtherKeeps(s: State, e: Event)
    requires Inv(s) && OtherEvent(e) && Enabled(s, e)
    ensures Inv(Do(s, e))
  {
    OtherShape(s, e);
    hide CpuOk, ProcOk, InnerOk, LockOk, Do, Enabled;
    forall c | 0 <= c < |s.cpus| ensures CpuOk(Do(s, e), c) { OtherCpus(s, e, c); }
    forall p | 0 <= p < |s.procs| ensures ProcOk(Do(s, e), p) && InnerOk(Do(s, e), p) { OtherProcs(s, e, p); }
    forall l | 0 <= l < |s.locks| ensures LockOk(Do(s, e), l) { OtherLocks(s, e, l); }
  }

  lemma OtherShape(s: State, e: Event)
    requires Inv(s) && OtherEvent(e) && Enabled(s, e)
    ensures |Do(s, e).cpus| == |s.cpus| && |Do(s, e).procs| == |s.procs| && |Do(s, e).locks| == |s.locks|
  {
  }

  lemma OtherCpus(s: State, e: Event, c: nat)
    requires Inv(s) && OtherEvent(e) && Enabled(s, e) && c < |s.cpus|
    ensures CpuOk(Do(s, e), c)
  {
    assert ProcOk(s, e.q) && CpuOk(s, e.c) && ProcOk(s, Cur(s, e.c)) && CpuOk(s, c);
    if e.Wake? || e.Reap? || e.Create? { NotOnStack(s, e.c, e.q); }
  }

  lemma OtherProcs(s: State, e: Event, p: nat)
    requires Inv(s) && OtherEvent(e) && Enabled(s, e) && p < |s.procs|
    ensures ProcOk(Do(s, e), p) && InnerOk(Do(s, e), p)
  {
    assert ProcOk(s, e.q) && CpuOk(s, e.c) && ProcOk(s, Cur(s, e.c)) && ProcOk(s, p) && InnerOk(s, p);
    if e.Wake? || e.Reap? || e.Create? { NotOnStack(s, e.c, e.q); }
  }

  lemma OtherLocks(s: State, e: Event, l: nat)
    requires Inv(s) && OtherEvent(e) && Enabled(s, e) && l < |s.locks|
    ensures LockOk(Do(s, e), l)
  {
    assert ProcOk(s, e.q) && CpuOk(s, e.c) && ProcOk(s, Cur(s, e.c)) && LockOk(s, l);
    forall p | 0 <= p < |s.procs| ensures NotLost(Do(s, e), p, l) { assert NotLost(s, p, l); }
  }

  lemma SchedKeeps(s: State, e: Event)
    requires Inv(s) && SchedEvent(e) && Enabled(s, e)
    ensures Inv(Do(s, e))
  {
    forall c | 0 <= c < |s.cpus| ensures CpuOk(Do(s, e), c) { SchedCpus(s, e, c); }
    forall p | 0 <= p < |s.procs| ensures ProcOk(Do(s, e), p) { SchedProcs(s, e, p); }
    forall p | 0 <= p < |s.procs| ensures InnerOk(Do(s, e), p) { SchedInner(s, e, p); }
    forall l | 0 <= l < |s.locks| ensures LockOk(Do(s, e), l) { SchedLocks(s, e, l); }
  }

  lemma AcqCpus(s: State, e: Event, c: nat)
    requires Inv(s) && AcqEvent(e) && Enabled(s, e) && c < |s.cpus|
    ensures CpuOk(DoAcq(s, e), c)
  {
    var me := Cur(s, e.c);
    assert ProcOk(s, me) && InnerOk(s, me) && CpuOk(s, e.c) && CpuOk(s, c);
  }

  lemma AcqProcs(s: State, e: Event, p: nat)
    requires Inv(s) && AcqEvent(e) && Enabled(s, e) && p < |s.procs|
    ensures ProcOk(DoAcq(s, e), p)
  {
    var me := Cur(s, e.c);
    assert ProcOk(s, me) && InnerOk(s, me) && CpuOk(s, e.c) && ProcOk(s, p);
  }

  lemma AcqInner(s: State, e: Event, p: nat)
    requires Inv(s) && AcqEvent(e) && Enabled(s, e) && p < |s.procs|
    ensures InnerOk(DoAcq(s, e), p)
  {
    var me := Cur(s, e.c);
    assert ProcOk(s, me) && InnerOk(s, me) && CpuOk(s, e.c) && ProcOk(s, p) && InnerOk(s, p);
    if e.AcqStart? { assert LockOk(s, e.l); }
  }

  lemma AcqLocks(s: State, e: Event, l: nat)
    requires Inv(s) && AcqEvent(e) && Enabled(s, e) && l < |s.locks|
    ensures LockOk(DoAcq(s, e), l)
  {
    var me := Cur(s, e.c);
    assert InnerOk(s, me) && LockOk(s, l);
    forall p | 0 <= p < |s.procs| ensures NotLost(DoAcq(s, e), p, l) { assert NotLost(s, p, l); }
  }

  lemma AcqKeeps(s: State, e: Event)
    requires Inv(s) && AcqEvent(e) && Enabled(s, e)
    ensures Inv(Do(s, e))
  {
    forall c | 0 <= c < |s.cpus| ensures CpuOk(DoAcq(s, e), c) { AcqCpus(s, e, c); }
    forall p | 0 <= p < |s.procs| ensures ProcOk(DoAcq(s, e), p) { AcqProcs(s, e, p); }
    forall p | 0 <= p < |s.procs| ensures InnerOk(DoAcq(s, e), p) { AcqInner(s, e, p); }
    forall l | 0 <= l < |s.locks| ensures LockOk(DoAcq(s, e), l) { AcqLocks(s, e, l); }
  }

  predicate RelEvent(e: Event) {
    e.RelStart? || e.RelLock? || e.RelNext? || e.RelEnd?
  }

  lemma RelCpus(s: State, e: Event, c: nat)
    requires Inv(s) && RelEvent(e) && Enabled(s, e) && c < |s.cpus|
    ensures CpuOk(DoRel(s, e), c)
  {
    var me := Cur(s, e.c);
    assert ProcOk(s, me) && InnerOk(s, me) && CpuOk(s, e.c) && CpuOk(s, c);
  }

  lemma RelProcs(s: State, e: Event, p: nat)
    requires Inv(s) && RelEvent(e) && Enabled(s, e) && p < |s.procs|
    ensures ProcOk(DoRel(s, e), p)
  {
    var me := Cur(s, e.c);
    assert ProcOk(s, me) && InnerOk(s, me) && CpuOk(s, e.c) && ProcOk(s, p);
    if e.RelNext? { RelNextProcs(s, e, p); }
  }

  lemma RelNextProcs(s: State, e: Event, p: nat)
    requires Inv(s) && e.RelNext? && Enabled(s, e) && p < |s.procs|
    ensures ProcOk(DoRel(s, e), p)
  {
    var me := Cur(s, e.c);
    assert ProcOk(s, me) && InnerOk(s, me) && CpuOk(s, e.c) && ProcOk(s, p);
    if s.procs[me].pc.i == p && p != me && s.procs[p].state != Running { NotOnStack(s, e.c, p); }
  }

  lemma RelInner(s: State, e: Event, p: nat)
    requires Inv(s) && RelEvent(e) && Enabled(s, e) && p < |s.procs|
    ensures InnerOk(DoRel(s, e), p)
  {
    var me := Cur(s, e.c);
    assert ProcOk(s, me) && InnerOk(s, me) && CpuOk(s, e.c) && ProcOk(s, p) && InnerOk(s, p);
    if e.RelNext? { RelNextInner(s, e, p); }
  }

  lemma RelNextInner(s: State, e: Event, p: nat)
    requires Inv(s) && e.RelNext? && Enabled(s, e) && p < |s.procs|
    ensures InnerOk(DoRel(s, e), p)
  {
    var me := Cur(s, e.c);
    assert ProcOk(s, me) && InnerOk(s, me) && CpuOk(s, e.c) && ProcOk(s, p) && InnerOk(s, p);
  }

  /** The wakeup passes process i only after it has locked it, so i is either woken or
      not waiting. */
  lemma RelLocks(s: State, e: Event, l: nat, p: nat)
    requires Inv(s) && RelEvent(e) && Enabled(s, e) && l < |s.locks| && p < |s.procs|
    ensures NotLost(DoRel(s, e), p, l)
    ensures DoRel(s, e).locks[l].scan.Some? ==> DoRel(s, e).locks[l].lk.Some?
  {
    var me := Cur(s, e.c);
    assert ProcOk(s, me) && InnerOk(s, me) && CpuOk(s, e.c) && ProcOk(s, p) && LockOk(s, l) && NotLost(s, p, l);
  }

  lemma RelKeeps(s: State, e: Event)
    requires Inv(s) && RelEvent(e) && Enabled(s, e)
    ensures Inv(Do(s, e))
  {
    RelShape(s, e);
    hide CpuOk, ProcOk, InnerOk, LockOk, DoRel, Enabled;
    forall c | 0 <= c < |s.cpus| ensures CpuOk(DoRel(s, e), c) { RelCpus(s, e, c); }
    forall p | 0 <= p < |s.procs| ensures ProcOk(DoRel(s, e), p) { RelProcs(s, e, p); }
    forall p | 0 <= p < |s.procs| ensures InnerOk(DoRel(s, e), p) { RelInner(s, e, p); }
    forall l | 0 <= l < |s.locks| ensures LockOk(DoRel(s, e), l) {
      forall p | 0 <= p < |s.procs| ensures NotLost(DoRel(s, e), p, l) { RelLocks(s, e, l, p); }
      RelLocks(s, e, l, Cur(s, e.c));
    }
  }

  lemma RelShape(s: State, e: Event)
    requires Inv(s) && RelEvent(e) && Enabled(s, e)
    ensures Do(s, e) == DoRel(s, e)
    ensures |DoRel(s, e).cpus| == |s.cpus| && |DoRel(s, e).procs| == |s.procs| && |DoRel(s, e).locks| == |s.locks|
  {
  }

  lemma StepKeeps(s: State, e: Event)
    requires Inv(s) && Enabled(s, e)
    ensures Inv(Do(s, e))
  {
    hide Enabled, Do, Inv;
    if SchedEvent(e) { SchedKeeps(s, e); }
    else if OwnEvent(e) { OwnKeeps(s, e); }
    else if OtherEvent(e) { OtherKeeps(s, e); }
    else if AcqEvent(e) { AcqKeeps(s, e); }
    else { RelKeeps(s, e); }
  }

  // ---------- who holds a sleep lock ----------

  /** Processes have pids of their own, given out in order from 1. */
  predicate PidsOk(s: State) {
    && s.nextpid > 0
    && (forall p :: 0 <= p < |s.procs| ==>
          if s.procs[p].state == Unused then s.procs[p].pid == 0 else 0 < s.procs[p].pid < s.nextpid)
    && (forall p, q :: 0 <= p < q < |s.procs| && s.procs[p].pid == s.procs[q].pid ==> s.procs[p].pid == 0)
  }

  /** The lock is locked exactly while it has a holder, and lk->pid is that one. */
  predicate HolderOk(k: SleepLock) {
    && (k.locked <==> k.holders != {}) && (k.locked ==> k.holders == {k.pid} && k.pid > 0) && (!k.locked ==> k.pid == 0)
  }

  predicate Holders(s: State) {
    PidsOk(s) && forall l :: 0 <= l < |s.locks| ==> HolderOk(s.locks[l])
  }

  lemma PidStep(s: State, e: Event)
    requires Inv(s) && PidsOk(s) && Enabled(s, e)
    ensures PidsOk(Do(s, e))
  {
    hide CpuOk, InnerOk, LockOk;
    forall p | 0 <= p < |s.procs|
      ensures if Do(s, e).procs[p].state == Unused then Do(s, e).procs[p].pid == 0
              else 0 < Do(s, e).procs[p].pid < Do(s, e).nextpid
    {
      PidOf(s, e, p);
    }
    forall p, q | 0 <= p < q < |s.procs| && Do(s, e).procs[p].pid == Do(s, e).procs[q].pid
      ensures Do(s, e).procs[p].pid == 0
    {
      PidOf(s, e, p);
      PidOf(s, e, q);
    }
    StepShape(s, e);
  }

  lemma StepShape(s: State, e: Event)
    requires Enabled(s, e)
    ensures |Do(s, e).procs| == |s.procs| && |Do(s, e).locks| == |s.locks|
    ensures Do(s, e).nextpid == s.nextpid + if e.Create? then 1 else 0
  {
  }

  /** Only fork and freeproc change a pid, and no other step makes a slot used or unused. */
  lemma PidOf(s: State, e: Event, p: nat)
    requires Inv(s) && Enabled(s, e) && p < |s.procs|
    ensures Do(s, e).procs[p].pid ==
            if e.Create? && e.q == p then s.nextpid else if e.Reap? && e.q == p then 0 else s.procs[p].pid
    ensures Do(s, e).procs[p].state == Unused <==>
            if e.Create? && e.q == p then false else if e.Reap? && e.q == p then true else s.procs[p].state == Unused
  {
    hide CpuOk, InnerOk, LockOk;
    if SchedEvent(e) { SchedPid(s, e, p); }
    else if OwnEvent(e) { OwnPid(s, e, p); }
    else if OtherEvent(e) { OtherPid(s, e, p); }
    else if AcqEvent(e) { AcqPid(s, e, p); }
    else { RelPid(s, e, p); }
  }

  /** What stays the same of a process. */
  ghost predicate SameSlot(x: Proc, y: Proc) { x.pid == y.pid && (x.state == Unused <==> y.state == Unused) }

  lemma SchedPid(s: State, e: Event, p: nat)
    requires Inv(s) && SchedEvent(e) && Enabled(s, e) && p < |s.procs|
    ensures SameSlot(DoSched(s, e).procs[p], s.procs[p])
  {
    hide CpuOk, InnerOk, LockOk, ProcOk;
  }

  lemma OwnPid(s: State, e: Event, p: nat)
    requires Inv(s) && OwnEvent(e) && Enabled(s, e) && p < |s.procs|
    ensures SameSlot(Do(s, e).procs[p], s.procs[p])
  {
    hide CpuOk, InnerOk, LockOk;
    assert ProcOk(s, Cur(s, e.c));
  }

  lemma OtherPid(s: State, e: Event, p: nat)
    requires OtherEvent(e) && Enabled(s, e) && p < |s.procs|
    ensures Do(s, e).procs[p].pid ==
            if e.Create? && e.q == p then s.nextpid else if e.Reap? && e.q == p then 0 else s.procs[p].pid
    ensures Do(s, e).procs[p].state == Unused <==>
            if e.Create? && e.q == p then false else if e.Reap? && e.q == p then true else s.procs[p].state == Unused
  {
  }

  lemma AcqPid(s: State, e: Event, p: nat)
    requires Inv(s) && AcqEvent(e) && Enabled(s, e) && p < |s.procs|
    ensures SameSlot(DoAcq(s, e).procs[p], s.procs[p])
  {
    hide CpuOk, InnerOk, LockOk;
    assert ProcOk(s, Cur(s, e.c));
  }

  lemma RelPid(s: State, e: Event, p: nat)
    requires RelEvent(e) && Enabled(s, e) && p < |s.procs|
    ensures SameSlot(DoRel(s, e).procs[p], s.procs[p])
  {
  }

  lemma HolderStep(s: State, e: Event, l: nat)
    requires Inv(s) && Holders(s) && Enabled(s, e) && l < |s.locks|
    ensures HolderOk(Do(s, e).locks[l])
  {
    hide CpuOk, InnerOk, LockOk;
    assert HolderOk(s.locks[l]);
    if e.AcqTake? { assert ProcOk(s, Cur(s, e.c)); }
  }

  lemma HoldersKeep(s: State, e: Event)
    requires Inv(s) && Holders(s) && Enabled(s, e)
    ensures Holders(Do(s, e))
  {
    hide Inv, Enabled, Do, HolderOk, PidsOk;
    PidStep(s, e);
    StepShape(s, e);
    forall l | 0 <= l < |s.locks| ensures HolderOk(Do(s, e).locks[l]) { HolderStep(s, e, l); }
  }

  // ---------- who holds a spinlock ----------

  /** An inner spinlock is held only by a thread that is inside acquiresleep or releasesleep of
      that lock. */
  ghost predicate LkOk(s: State, l: nat)
    requires l < |s.locks|
  {
    s.locks[l].lk.Some? ==>
      var c := s.locks[l].lk.value; Executes(s, c) && InnerHeld(CurPc(s, c)) && CurPc(s, c).l == l
  }

  /** A scheduler holds no process's lock between processes, and that of one process while it is
      switching to or from it. */
  ghost predicate SpinOk(s: State, p: nat)
    requires p < |s.procs|
  {
    s.procs[p].lock.Some? ==>
      var c := s.procs[p].lock.value;
      c < |s.cpus| && !s.cpus[c].mode.Idle? && (!s.cpus[c].mode.OnProc? ==> s.cpus[c].mode.p == p)
  }

  /** p->chan is set only from sleep to its return, and whoever sleeps on a sleep lock has to
      test it again. */
  ghost predicate ChanOk(x: Proc) {
    && (x.chan.Some? ==> x.pc.Leaving? || x.pc.Saved? || x.pc.Resumed?)
    && (x.chan.Some? && x.chan.value.LockChan? ==> x.cont == Some(x.chan.value.l))
  }

  ghost predicate Spins(s: State) {
    && (forall l :: 0 <= l < |s.locks| ==> LkOk(s, l))
    && (forall p :: 0 <= p < |s.procs| ==> SpinOk(s, p))
    && (forall p :: 0 <= p < |s.procs| ==> ChanOk(s.procs[p]))
  }

  lemma SchedSpins(s: State, e: Event)
    requires Inv(s) && Spins(s) && SchedEvent(e) && Enabled(s, e)
    ensures Spins(DoSched(s, e))
  {
    hide ProcOk, InnerOk, LockOk;
    assert CpuOk(s, e.c);
    forall l | 0 <= l < |s.locks| ensures LkOk(DoSched(s, e), l) { SchedLk(s, e, l); }
    forall p | 0 <= p < |s.procs| ensures SpinOk(DoSched(s, e), p) { SchedSpin(s, e, p); }
    forall p | 0 <= p < |s.procs| ensures ChanOk(DoSched(s, e).procs[p]) { assert ChanOk(s.procs[p]); }
  }

  lemma SchedLk(s: State, e: Event, l: nat)
    requires Inv(s) && Spins(s) && SchedEvent(e) && Enabled(s, e) && l < |s.locks|
    ensures LkOk(DoSched(s, e), l)
  {
    hide InnerOk, LockOk;
    assert LkOk(s, l) && CpuOk(s, e.c);
    if s.locks[l].lk.Some? {
      var d := s.locks[l].lk.value;
      assert CpuOk(s, d) && ProcOk(s, Cur(s, d));
      if e.Switch? { NotOnStack(s, e.c, s.cpus[e.c].mode.p); }
    }
  }

  lemma SchedSpin(s: State, e: Event, p: nat)
    requires Inv(s) && Spins(s) && SchedEvent(e) && Enabled(s, e) && p < |s.procs|
    ensures SpinOk(DoSched(s, e), p)
  {
    hide InnerOk, LockOk;
    assert CpuOk(s, e.c) && SpinOk(s, p);
    if e.Leave? { assert ProcOk(s, Cur(s, e.c)); }
  }

  lemma OwnSpins(s: State, e: Event)
    requires Inv(s) && Spins(s) && OwnEvent(e) && Enabled(s, e)
    ensures Spins(Do(s, e))
  {
    hide InnerOk, LockOk;
    assert CpuOk(s, e.c) && ProcOk(s, Cur(s, e.c));
    forall l | 0 <= l < |s.locks| ensures LkOk(Do(s, e), l) { assert LkOk(s, l); }
    forall p | 0 <= p < |s.procs| ensures SpinOk(Do(s, e), p) && ChanOk(Do(s, e).procs[p]) {
      assert SpinOk(s, p) && ChanOk(s.procs[p]);
    }
  }

  lemma OtherSpins(s: State, e: Event)
    requires Inv(s) && Spins(s) && OtherEvent(e) && Enabled(s, e)
    ensures Spins(Do(s, e))
  {
    hide InnerOk, LockOk, CpuOk, ProcOk;
    forall l | 0 <= l < |s.locks| ensures LkOk(Do(s, e), l) { assert LkOk(s, l); }
    forall p | 0 <= p < |s.procs| ensures SpinOk(Do(s, e), p) && ChanOk(Do(s, e).procs[p]) {
      assert SpinOk(s, p) && ChanOk(s.procs[p]);
    }
  }

  lemma AcqSpins(s: State, e: Event)
    requires Inv(s) && Spins(s) && AcqEvent(e) && Enabled(s, e)
    ensures Spins(DoAcq(s, e))
  {
    AcqShape(s, e);
    hide LockOk, CpuOk, ProcOk, InnerOk, LkOk, SpinOk, ChanOk, DoAcq, Enabled;
    forall l | 0 <= l < |s.locks| ensures LkOk(DoAcq(s, e), l) { AcqLk(s, e, l); }
    forall p | 0 <= p < |s.procs| ensures SpinOk(DoAcq(s, e), p) { AcqSpin(s, e, p); }
    forall p | 0 <= p < |s.procs| ensures ChanOk(DoAcq(s, e).procs[p]) { AcqSpin(s, e, p); }
  }

  lemma AcqShape(s: State, e: Event)
    requires AcqEvent(e) && Enabled(s, e)
    ensures |DoAcq(s, e).procs| == |s.procs| && |DoAcq(s, e).locks| == |s.locks|
  {
  }

  lemma AcqLk(s: State, e: Event, l: nat)
    requires Inv(s) && Spins(s) && AcqEvent(e) && Enabled(s, e) && l < |s.locks|
    ensures LkOk(DoAcq(s, e), l)
  {
    hide LockOk, SpinOk, ChanOk;
    var me := Cur(s, e.c);
    assert CpuOk(s, e.c) && InnerOk(s, me) && LkOk(s, l) && ProcOk(s, me);
    if s.locks[l].lk.Some? { assert CpuOk(s, s.locks[l].lk.value); }
  }

  lemma AcqSpin(s: State, e: Event, p: nat)
    requires Inv(s) && Spins(s) && AcqEvent(e) && Enabled(s, e) && p < |s.procs|
    ensures SpinOk(DoAcq(s, e), p) && ChanOk(DoAcq(s, e).procs[p])
  {
    hide LockOk, LkOk, InnerOk;
    assert CpuOk(s, e.c) && ProcOk(s, Cur(s, e.c)) && SpinOk(s, p) && ChanOk(s.procs[p]);
  }

  lemma RelSpins(s: State, e: Event)
    requires Inv(s) && Spins(s) && RelEvent(e) && Enabled(s, e)
    ensures Spins(DoRel(s, e))
  {
    hide LockOk;
    assert CpuOk(s, e.c) && ProcOk(s, Cur(s, e.c)) && InnerOk(s, Cur(s, e.c));
    forall l | 0 <= l < |s.locks| ensures LkOk(DoRel(s, e), l) { assert LkOk(s, l); }
    forall p | 0 <= p < |s.procs| ensures SpinOk(DoRel(s, e), p) && ChanOk(DoRel(s, e).procs[p]) {
      assert SpinOk(s, p) && ChanOk(s.procs[p]);
    }
  }

  lemma SpinsKeep(s: State, e: Event)
    requires Inv(s) && Spins(s) && Enabled(s, e)
    ensures Spins(Do(s, e))
  {
    hide Enabled, Inv, Spins;
    if SchedEvent(e) { SchedSpins(s, e); }
    else if OwnEvent(e) { OwnSpins(s, e); }
    else if OtherEvent(e) { OtherSpins(s, e); }
    else if AcqEvent(e) { AcqSpins(s, e); }
    else { RelSpins(s, e); }
  }

  // ---------- whole runs ----------

  /** After boot: no process exists and every CPU is in its scheduler. */
  predicate Initial(s: State) {
    && (forall p :: 0 <= p < |s.procs| ==>
          && s.procs[p].state in {Unused, Runnable}
          && s.procs[p] == Proc(s.procs[p].state, None, None, Saved, None, None, s.procs[p].pid))
    && (forall c :: 0 <= c < |s.cpus| ==> s.cpus[c] == Cpu(None, Idle))
    && (forall l :: 0 <= l < |s.locks| ==> s.locks[l] == SleepLock(false, 0, None, None, {}))
    && PidsOk(s)
  }

  ghost predicate Reaches(s: State, es: seq<Event>, t: State)
    decreases |es|
  {
    if es == [] then s == t
    else Enabled(s, es[0]) && Reaches(Do(s, es[0]), es[1..], t)
  }

  lemma {:induction false} RunKeeps(s: State, es: seq<Event>, t: State)
    requires Inv(s) && Reaches(s, es, t)
    ensures Inv(t)
    decreases |es|
  {
    if es != [] {
      StepKeeps(s, es[0]);
      RunKeeps(Do(s, es[0]), es[1..], t);
    }
  }

  lemma InitialOk(s: State)
    requires Initial(s)
    ensures Inv(s)
  {
  }

  /** No lost wakeup, in any state of any run: when a sleep lock is not locked and nobody
      holds its inner spinlock, no process sleeps on it or is about to. */
  lemma NoLostWakeup(s: State, es: seq<Event>, t: State, l: nat, p: nat)
    requires Initial(s) && Reaches(s, es, t) && l < |t.locks| && p < |t.procs|
    requires !t.locks[l].locked && t.locks[l].lk == None
    ensures !(t.procs[p].state == Sleeping && t.procs[p].chan == Some(LockChan(l)))
    ensures t.procs[p].pc != AcqOwn(l)
  {
    InitialOk(s);
    RunKeeps(s, es, t);
    assert LockOk(t, l) && NotLost(t, p, l);
  }

  lemma {:induction false} RunHolders(s: State, es: seq<Event>, t: State)
    requires Inv(s) && Holders(s) && Spins(s) && Reaches(s, es, t)
    ensures Inv(t) && Holders(t) && Spins(t)
    decreases |es|
  {
    hide Inv, Holders, Spins, Enabled, Do;
    if es != [] {
      StepKeeps(s, es[0]);
      HoldersKeep(s, es[0]);
      SpinsKeep(s, es[0]);
      RunHolders(Do(s, es[0]), es[1..], t);
    }
  }

  /** Who has returned from acquiresleep of lock l and not called releasesleep, read off the
      events of a run alone; now is who that is before the first event. */
  ghost function Inside(s: State, es: seq<Event>, t: State, l: nat, now: set<nat>): set<nat>
    requires Reaches(s, es, t)
    decreases |es|
  {
    if es == [] then now
    else Inside(Do(s, es[0]), es[1..], t, l, Entered(s, es[0], l, now))
  }

  /** The pids inside after one event. */
  function Entered(s: State, e: Event, l: nat, now: set<nat>): set<nat>
    requires Enabled(s, e)
  {
    match e
    case AcqTake(c) => if CurPc(s, c) == AcqHold(l) then now + {s.procs[Cur(s, c)].pid} else now
    case RelStart(c, k) => if k == l then now - {s.procs[Cur(s, c)].pid} else now
    case _ => now
  }

  lemma HoldersStep(s: State, e: Event, l: nat)
    requires Enabled(s, e) && l < |s.locks|
    ensures Do(s, e).locks[l].holders == Entered(s, e, l, s.locks[l].holders)
  {
  }

  /** The field holders is that history: nothing else changes it. */
  lemma {:induction false} HoldersAreInside(s: State, es: seq<Event>, t: State, l: nat)
    requires Reaches(s, es, t) && l < |s.locks|
    ensures |t.locks| == |s.locks| && t.locks[l].holders == Inside(s, es, t, l, s.locks[l].holders)
    decreases |es|
  {
    hide Enabled, Do, Entered;
    if es != [] {
      StepShape(s, es[0]);
      HoldersStep(s, es[0], l);
      HoldersAreInside(Do(s, es[0]), es[1..], t, l);
    }
  }

  lemma {:induction false} RunLocks(s: State, es: seq<Event>, t: State)
    requires Reaches(s, es, t)
    ensures |t.locks| == |s.locks|
    decreases |es|
  {
    hide Enabled, Do;
    if es != [] {
      StepShape(s, es[0]);
      RunLocks(Do(s, es[0]), es[1..], t);
    }
  }

  /** Mutual exclusion, in any state of any run: at most one process is between acquiresleep
      and releasesleep of a lock. */
  lemma MutualExclusion(s: State, es: seq<Event>, t: State, l: nat, p: nat, q: nat)
    requires Initial(s) && Reaches(s, es, t) && l < |t.locks| && p < |t.procs| && q < |t.procs|
    requires t.procs[p].state != Unused && t.procs[q].state != Unused
    requires t.procs[p].pid in Inside(s, es, t, l, {}) && t.procs[q].pid in Inside(s, es, t, l, {})
    ensures p == q
  {
    InitialOk(s);
    RunLocks(s, es, t);
    HoldersAreInside(s, es, t, l);
    RunHolders(s, es, t);
    hide Inv, Inside;
    assert HolderOk(t.locks[l]);
  }

  /** lk->locked is set exactly while acquiresleep has returned to somebody who has not called
      releasesleep, and holdingsleep tells exactly whether that is the caller. */
  lemma HoldingExact(s: State, es: seq<Event>, t: State, l: nat, p: nat)
    requires Initial(s) && Reaches(s, es, t) && l < |t.locks| && p < |t.procs|
    ensures t.locks[l].locked <==> Inside(s, es, t, l, {}) != {}
    ensures t.procs[p].state != Unused ==>
      (t.locks[l].locked && t.locks[l].pid == t.procs[p].pid <==> t.procs[p].pid in Inside(s, es, t, l, {}))
    ensures t.procs[p].pc == AcqBoth(l) ==> Inside(s, es, t, l, {}) != {}
  {
    InitialOk(s);
    RunLocks(s, es, t);
    HoldersAreInside(s, es, t, l);
    RunHolders(s, es, t);
    assert InnerOk(t, p);
    hide Inv;
    assert HolderOk(t.locks[l]);
  }

  /** In any state of any run: an inner spinlock is held exactly by the CPU whose thread is in
      the part of acquiresleep or releasesleep that says so, and a CPU between processes holds
      no lock at all. */
  lemma SpinsExact(s: State, es: seq<Event>, t: State, l: nat, p: nat, c: nat)
    requires Initial(s) && Reaches(s, es, t) && l < |t.locks| && p < |t.procs| && c < |t.cpus|
    ensures t.locks[l].lk == Some(c) <==> Executes(t, c) && InnerHeld(CurPc(t, c)) && CurPc(t, c).l == l
    ensures t.cpus[c].mode == Idle ==> t.procs[p].lock != Some(c) && t.locks[l].lk != Some(c)
  {
    InitialOk(s);
    RunHolders(s, es, t);
    assert LkOk(t, l) && SpinOk(t, p) && CpuOk(t, c);
    if Executes(t, c) { assert InnerOk(t, Cur(t, c)) && ProcOk(t, Cur(t, c)); }
  }

  /** A process that sleeps on a sleep lock, or was woken from it and does not run yet, tests the
      lock again before acquiresleep returns. */
  lemma SleeperRetries(s: State, es: seq<Event>, t: State, p: nat, l: nat)
    requires Initial(s) && Reaches(s, es, t) && p < |t.procs| && t.procs[p].chan == Some(LockChan(l))
    ensures t.procs[p].cont == Some(l)
  {
    InitialOk(s);
    RunHolders(s, es, t);
    assert ChanOk(t.procs[p]);
  }

  /** In any state of any run in which p->lock is free, p is RUNNING exactly when some
      CPU has it as c->proc, and then that CPU executes it. */
  lemma RunningExact(s: State, es: seq<Event>, t: State, p: nat)
    requires Initial(s) && Reaches(s, es, t) && p < |t.procs| && t.procs[p].lock == None
    ensures t.procs[p].state == Running <==> exists c :: 0 <= c < |t.cpus| && t.cpus[c].proc == Some(p)
    ensures forall c :: 0 <= c < |t.cpus| && t.cpus[c].proc == Some(p) ==> t.cpus[c].mode == OnProc(p)
  {
    InitialOk(s);
    RunKeeps(s, es, t);
    assert ProcOk(t, p);
    forall c | 0 <= c < |t.cpus| && t.cpus[c].proc == Some(p)
      ensures t.cpus[c].mode == OnProc(p) && t.procs[p].state == Running
    {
      assert CpuOk(t, c);
    }
  }

  /** No process executes on two CPUs, or on one while another CPU's scheduler has not
      finished switching away from it. */
  lemma OneCpuEach(s: State, es: seq<Event>, t: State, p: nat, c: nat, d: nat)
    requires Initial(s) && Reaches(s, es, t) && p < |t.procs| && c < |t.cpus| && d < |t.cpus|
    requires t.cpus[c].mode in {OnProc(p), Back(p)} && t.cpus[d].mode in {OnProc(p), Back(p)}
    ensures c == d
  {
    InitialOk(s);
    RunKeeps(s, es, t);
    assert CpuOk(t, c) && CpuOk(t, d);
  }

  /** When wait frees a zombie, no CPU executes on its stack any more and no scheduler
      is still switching away from it. */
  lemma ReapIsSafe(s: State, es: seq<Event>, t: State, c: nat, q: nat, d: nat)
    requires Initial(s) && Reaches(s, es, t) && Enabled(t, Reap(c, q)) && d < |t.cpus|
    ensures t.cpus[d].mode != OnProc(q) && t.cpus[d].mode != Back(q) && t.cpus[d].proc != Some(q)
  {
    InitialOk(s);
    RunKeeps(s, es, t);
    assert CpuOk(t, c);
    NotOnStack(t, c, q);
    assert CpuOk(t, d);
  }

  /** The scheduler never resumes a context that is still in use. */
  lemma SwitchIsSafe(s: State, es: seq<Event>, t: State, c: nat, d: nat)
    requires Initial(s) && Reaches(s, es, t) && Enabled(t, Switch(c)) && d < |t.cpus|
    ensures t.procs[t.cpus[c].mode.p].pc == Saved && t.cpus[d].proc != Some(t.cpus[c].mode.p)
  {
    InitialOk(s);
    RunKeeps(s, es, t);
    assert CpuOk(t, c);
    NotOnStack(t, c, t.cpus[c].mode.p);
    assert CpuOk(t, d);
  }

  // ---------- exit ----------

  /** exit from the point where p->parent is read, for a parent q: its lock, the own lock,
      wakeup1, ZOMBIE, and only then the release of the parent's lock and sched. */
  function ExitEvents(s: State, c: nat, q: nat): seq<Event>
    requires q < |s.procs|
  {
    [AcquireOwn(c), ReleaseOwn(c), AcquireOther(c, q), AcquireOwn(c)]
    + (if s.procs[q].state == Sleeping then [Wake(c, q)] else [])
    + [SetZombie(c), ReleaseOther(c, q), Leave(c)]
  }

  lemma ReachesMore(s: State, e: Event, es: seq<Event>, t: State)
    requires Enabled(s, e) && Reaches(Do(s, e), es, t)
    ensures Reaches(s, [e] + es, t)
  {
    assert ([e] + es)[1..] == es;
  }

  /** The state of exit's caller and its parent before the parent's lock is released. */
  function Exiting(s: State, p: nat, q: nat, c: nat): State
    requires p < |s.procs| && q < |s.procs|
  {
    var x := if s.procs[q].state == Sleeping then s.procs[q].(state := Runnable) else s.procs[q];
    SetProc(SetProc(s, q, x.(lock := Some(c))), p, s.procs[p].(lock := Some(c), state := Zombie, pc := Pc.Leaving))
  }

  function Exited(s: State, p: nat, q: nat, c: nat): State
    requires p < |s.procs| && q < |s.procs| && c < |s.cpus|
  {
    var x := if s.procs[q].state == Sleeping then s.procs[q].(state := Runnable) else s.procs[q];
    SetCpu(SetProc(SetProc(s, q, x), p, s.procs[p].(lock := Some(c), state := Zombie, pc := Saved)),
           c, s.cpus[c].(mode := Back(p)))
  }

  ghost predicate CanExit(s: State, c: nat, q: nat) {
    && Inv(s) && Executes(s, c) && CurPc(s, c) == Run && q < |s.procs| && q != Cur(s, c)
    && s.procs[Cur(s, c)].lock == None && s.procs[q].lock == None && HoldsOnly(s, c, Cur(s, c))
  }

  /** The end of exit: a zombie that still holds its parent's lock can go on. */
  lemma ExitLeaves(s: State, c: nat, q: nat)
    requires CanExit(s, c, q)
    ensures Reaches(Exiting(s, Cur(s, c), q, c), [ReleaseOther(c, q), Leave(c)], Exited(s, Cur(s, c), q, c))
  {
    var p := Cur(s, c);
    var s1 := Exiting(s, p, q, c);
    var s2 := Do(s1, ReleaseOther(c, q));
    var t := Exited(s, p, q, c);
    assert s2.procs[q].lock == None && s2.procs[p].pc == Pc.Leaving;
    assert HoldsOnly(s2, c, p);
    assert Do(s2, Leave(c)).procs == t.procs && Do(s2, Leave(c)) == t;
    assert Reaches(t, [], t);
    ReachesMore(s2, Leave(c), [], t);
    assert [Leave(c)] + [] == [Leave(c)];
    ReachesMore(s1, ReleaseOther(c, q), [Leave(c)], t);
    assert [ReleaseOther(c, q)] + [Leave(c)] == [ReleaseOther(c, q), Leave(c)];
  }

  /** Both locks are held and the parent, if asleep, is woken: the caller becomes a zombie. */
  lemma ExitZombie(s: State, c: nat, q: nat, es: seq<Event>, t: State)
    requires CanExit(s, c, q) && Reaches(Exiting(s, Cur(s, c), q, c), es, t)
    ensures var p := Cur(s, c);
      var both := SetProc(SetProc(s, q, s.procs[q].(lock := Some(c))), p, s.procs[p].(lock := Some(c), pc := Held));
      Reaches(both, (if s.procs[q].state == Sleeping then [Wake(c, q)] else []) + [SetZombie(c)] + es, t)
  {
    var p := Cur(s, c);
    var both := SetProc(SetProc(s, q, s.procs[q].(lock := Some(c))), p, s.procs[p].(lock := Some(c), pc := Held));
    if s.procs[q].state == Sleeping {
      WakeThenZombie(s, c, q, both, es, t);
      assert [Wake(c, q)] + ([SetZombie(c)] + es) == [Wake(c, q)] + [SetZombie(c)] + es;
    } else {
      assert Do(both, SetZombie(c)).procs == Exiting(s, p, q, c).procs;
      ReachesMore(both, SetZombie(c), es, t);
      assert [] + [SetZombie(c)] + es == [SetZombie(c)] + es;
    }
  }

  lemma WakeThenZombie(s: State, c: nat, q: nat, both: State, es: seq<Event>, t: State)
    requires CanExit(s, c, q) && Reaches(Exiting(s, Cur(s, c), q, c), es, t) && s.procs[q].state == Sleeping
    requires var p := Cur(s, c);
      both == SetProc(SetProc(s, q, s.procs[q].(lock := Some(c))), p, s.procs[p].(lock := Some(c), pc := Held))
    ensures Reaches(both, [Wake(c, q)] + ([SetZombie(c)] + es), t)
  {
    hide Reaches, ProcOk, CpuOk, InnerOk, LockOk;
    var woken := Do(both, Wake(c, q));
    assert Do(woken, SetZombie(c)).procs == Exiting(s, Cur(s, c), q, c).procs;
    ReachesMore(woken, SetZombie(c), es, t);
    ReachesMore(both, Wake(c, q), [SetZombie(c)] + es, t);
  }

  /** exit holds its own lock while it reads p->parent, and then no lock. */
  lemma ExitReadsParent(s: State, c: nat, q: nat, es: seq<Event>, t: State)
    requires CanExit(s, c, q) && Reaches(s, es, t)
    ensures Reaches(s, [AcquireOwn(c), ReleaseOwn(c)] + es, t)
  {
    hide Reaches, ProcOk, CpuOk, InnerOk, LockOk;
    var s1 := Do(s, AcquireOwn(c));
    assert Do(s1, ReleaseOwn(c)).procs == s.procs;
    ReachesMore(s1, ReleaseOwn(c), es, t);
    ReachesMore(s, AcquireOwn(c), [ReleaseOwn(c)] + es, t);
    assert [AcquireOwn(c)] + ([ReleaseOwn(c)] + es) == [AcquireOwn(c), ReleaseOwn(c)] + es;
  }

  /** The parent's lock and then the own lock again. */
  lemma ExitLocks(s: State, c: nat, q: nat, es: seq<Event>, t: State)
    requires CanExit(s, c, q)
    requires var p := Cur(s, c);
      Reaches(SetProc(SetProc(s, q, s.procs[q].(lock := Some(c))), p, s.procs[p].(lock := Some(c), pc := Held)), es, t)
    ensures Reaches(s, [AcquireOther(c, q), AcquireOwn(c)] + es, t)
  {
    hide Reaches, ProcOk, CpuOk, InnerOk, LockOk;
    var s1 := Do(s, AcquireOther(c, q));
    ReachesMore(s1, AcquireOwn(c), es, t);
    ReachesMore(s, AcquireOther(c, q), [AcquireOwn(c)] + es, t);
    assert [AcquireOther(c, q)] + ([AcquireOwn(c)] + es) == [AcquireOther(c, q), AcquireOwn(c)] + es;
  }

  /** exit as the code has it is a run of the machine, and ends with the zombie switched out
      and its parent awake. */
  lemma ExitIsRun(s: State, c: nat, q: nat)
    requires CanExit(s, c, q)
    ensures Reaches(s, ExitEvents(s, c, q), Exited(s, Cur(s, c), q, c))
    ensures Inv(Exited(s, Cur(s, c), q, c))
  {
    hide Exited, Exiting, Inv, Reaches;
    var t := Exited(s, Cur(s, c), q, c);
    var wake := if s.procs[q].state == Sleeping then [Wake(c, q)] else [];
    var tail := [ReleaseOther(c, q), Leave(c)];
    ExitLeaves(s, c, q);
    ExitZombie(s, c, q, tail, t);
    ExitLocks(s, c, q, wake + [SetZombie(c)] + tail, t);
    ExitReadsParent(s, c, q, [AcquireOther(c, q), AcquireOwn(c)] + (wake + [SetZombie(c)] + tail), t);
    assert [AcquireOwn(c), ReleaseOwn(c)] + ([AcquireOther(c, q), AcquireOwn(c)] + (wake + [SetZombie(c)] + tail))
        == ExitEvents(s, c, q);
    RunKeeps(s, ExitEvents(s, c, q), t);
  }
}
