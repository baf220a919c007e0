/** The handshake of exit and wait (kernel/proc.c) over p->lock and p->parent. Each process is
    a thread whose pc says where it is in fork, wait, exit and reparent; an event is what one
    thread does between two lock operations. wait and reparent read p->parent without its
    process's lock, as the code does, and take the lock in a later event. Process 0 is init. */
module WaitExit {
  import opened Options

  /** Ready is RUNNABLE or RUNNING; Sleeping is asleep in wait. */
  datatype PState = Unused | Ready | Sleeping | Zombie

  datatype Pc =
    | Free                        // no process
    | User                        // in none of the calls below
    | Scan(i: nat, kids: bool)    // wait: about to look at process i; kids is havekids
    | Seen(i: nat)                // wait: has read that process i is a child, without its lock
    | Look(i: nat)                // wait: holds the lock of child i
    | Slept                       // wait: in sleep, up to the release by the scheduler
    | Parked                      // wait: switched out
    | WakeInit                    // exit: holds initproc->lock
    | WokeInit
    | Own                         // exit: about to read p->parent
    | Read(op: nat)               // exit: op is original_parent
    | Parent(op: nat)             // exit: holds op's lock
    | Giving(op: nat, j: nat)     // reparent: about to look at process j
    | Found(op: nat, j: nat)      // reparent: has read that process j is a child, without its lock
    | Give(op: nat, j: nat)       // reparent: holds the lock of child j
    | Woke(op: nat)               // exit: after wakeup1(op)
    | Dying(op: nat)              // exit: ZOMBIE, op's lock still held
    | Last(op: nat)               // exit: about to call sched
    | Dead(op: nat)               // switched out for good

  datatype Proc = Proc(state: PState, parent: Option<nat>, lock: Option<nat>, pc: Pc)

  type State = seq<Proc>

  datatype Event =
    | Fork(p: nat, np: nat)
    | WaitStart(p: nat)
    | ScanSkip(p: nat)
    | ScanSee(p: nat)
    | ScanLock(p: nat)
    | LookOn(p: nat)
    | Reap(p: nat)
    | ReapFail(p: nat)     // copyout of the status fails
    | WaitNone(p: nat)     // no children: wait returns -1
    | WaitKilled(p: nat)
    | Sleep(p: nat)
    | Park(p: nat)
    | Resume(p: nat)
    | Kill(q: nat)
    | ExitStart(p: nat)
    | WakeFirst(p: nat)
    | LockOwn(p: nat)
    | ReadParent(p: nat)
    | LockParent(p: nat)
    | LockAgain(p: nat)
    | GiveSkip(p: nat)
    | GiveSee(p: nat)
    | GiveLock(p: nat)
    | GiveAway(p: nat)
    | WakeParent(p: nat)
    | SetZombie(p: nat)
    | Unlock(p: nat)
    | Leave(p: nat)

  function Woken(st: PState): PState { if st == Sleeping then Ready else st }

  ghost predicate Enabled(s: State, e: Event) {
    match e
    case Fork(p, np) => p < |s| && np < |s| && s[p].pc == User && s[np].state == Unused && s[np].lock == None
    case WaitStart(p) => p < |s| && s[p].pc == User && s[p].lock == None
    case ScanSkip(p) => p < |s| && s[p].pc.Scan? && s[p].pc.i < |s| && s[s[p].pc.i].parent != Some(p)
    case ScanSee(p) => p < |s| && s[p].pc.Scan? && s[p].pc.i < |s| && s[s[p].pc.i].parent == Some(p)
    case ScanLock(p) => p < |s| && s[p].pc.Seen? && s[p].pc.i < |s| && s[s[p].pc.i].lock == None
    case LookOn(p) => p < |s| && s[p].pc.Look? && s[p].pc.i < |s| && s[s[p].pc.i].state != Zombie
    case Reap(p) => p < |s| && s[p].pc.Look? && s[p].pc.i < |s| && s[s[p].pc.i].state == Zombie
    case ReapFail(p) => p < |s| && s[p].pc.Look? && s[p].pc.i < |s| && s[s[p].pc.i].state == Zombie
    case WaitNone(p) => p < |s| && s[p].pc == Scan(|s|, false)
    case WaitKilled(p) => p < |s| && s[p].pc.Scan? && s[p].pc.i == |s|
    case Sleep(p) => p < |s| && s[p].pc == Scan(|s|, true)
    case Park(p) => p < |s| && s[p].pc == Slept
    case Resume(p) => p < |s| && s[p].pc == Parked && s[p].state == Ready && s[p].lock == None
    case Kill(q) => q < |s| && s[q].lock == None
    case ExitStart(p) => 0 < p < |s| && s[p].pc == User && s[0].lock == None
    case WakeFirst(p) => p < |s| && s[p].pc == WakeInit
    case LockOwn(p) => p < |s| && s[p].pc == WokeInit && s[p].lock == None
    case ReadParent(p) => p < |s| && s[p].pc == Own && s[p].parent.Some?
    case LockParent(p) => p < |s| && s[p].pc.Read? && s[p].pc.op < |s| && s[s[p].pc.op].lock == None
    case LockAgain(p) => p < |s| && s[p].pc.Parent? && s[p].lock == None
    case GiveSkip(p) => p < |s| && s[p].pc.Giving? && s[p].pc.j < |s| && s[s[p].pc.j].parent != Some(p)
    case GiveSee(p) => p < |s| && s[p].pc.Giving? && s[p].pc.j < |s| && s[s[p].pc.j].parent == Some(p)
    case GiveLock(p) => p < |s| && s[p].pc.Found? && s[p].pc.j < |s| && s[s[p].pc.j].lock == None
    case GiveAway(p) => p < |s| && s[p].pc.Give? && s[p].pc.j < |s|
    case WakeParent(p) => p < |s| && s[p].pc.Giving? && s[p].pc.j == |s| && s[p].pc.op < |s|
    case SetZombie(p) => p < |s| && s[p].pc.Woke?
    case Unlock(p) => p < |s| && s[p].pc.Dying? && s[p].pc.op < |s|
    case Leave(p) => p < |s| && s[p].pc.Last?
  }

  function At(s: State, p: nat, pc: Pc): State
    requires p < |s|
  {
    s[p := s[p].(pc := pc)]
  }

  function Lock(s: State, x: nat, p: nat): State
    requires x < |s|
  {
    s[x := s[x].(lock := Some(p))]
  }

  function Release(s: State, x: nat): State
    requires x < |s|
  {
    s[x := s[x].(lock := None)]
  }

  function Wake(s: State, x: nat): State
    requires x < |s|
  {
    s[x := s[x].(state := Woken(s[x].state))]
  }

  /** The events of exit and reparent; the others are those of fork, wait and kill. */
  predicate OfExit(e: Event) {
    e.ExitStart? || e.WakeFirst? || e.LockOwn? || e.ReadParent? || e.LockParent? || e.LockAgain? || e.GiveSkip? ||
    e.GiveSee? || e.GiveLock? || e.GiveAway? || e.WakeParent? || e.SetZombie? || e.Unlock? || e.Leave?
  }

  ghost function DoWait(s: State, e: Event): (s': State)
    requires Enabled(s, e) && !OfExit(e)
    ensures |s'| == |s|
  {
    match e
    case Fork(p, np) => s[np := Proc(Ready, Some(p), None, User)]
    case WaitStart(p) => At(Lock(s, p, p), p, Scan(0, false))
    case ScanSkip(p) => At(s, p, Scan(s[p].pc.i + 1, s[p].pc.kids))
    case ScanSee(p) => At(s, p, Seen(s[p].pc.i))
    case ScanLock(p) => At(Lock(s, s[p].pc.i, p), p, Look(s[p].pc.i))
    case LookOn(p) => At(Release(s, s[p].pc.i), p, Scan(s[p].pc.i + 1, true))
    case Reap(p) => At(Release(s[s[p].pc.i := Proc(Unused, None, None, Free)], p), p, User)
    case ReapFail(p) => At(Release(Release(s, s[p].pc.i), p), p, User)
    case WaitNone(p) => At(Release(s, p), p, User)
    case WaitKilled(p) => At(Release(s, p), p, User)
    case Sleep(p) => At(s[p := s[p].(state := Sleeping)], p, Slept)
    case Park(p) => At(Release(s, p), p, Parked)
    case Resume(p) => At(Lock(s, p, p), p, Scan(0, false))
    case Kill(q) => Wake(s, q)
  }

  ghost function DoExit(s: State, e: Event): (s': State)
    requires Enabled(s, e) && OfExit(e)
    ensures |s'| == |s|
  {
    match e
    case ExitStart(p) => At(Lock(s, 0, p), p, WakeInit)
    case WakeFirst(p) => At(Release(Wake(s, 0), 0), p, WokeInit)
    case LockOwn(p) => At(Lock(s, p, p), p, Own)
    case ReadParent(p) => At(Release(s, p), p, Read(s[p].parent.value))
    case LockParent(p) => At(Lock(s, s[p].pc.op, p), p, Parent(s[p].pc.op))
    case LockAgain(p) => At(Lock(s, p, p), p, Giving(s[p].pc.op, 0))
    case GiveSkip(p) => At(s, p, Giving(s[p].pc.op, s[p].pc.j + 1))
    case GiveSee(p) => At(s, p, Found(s[p].pc.op, s[p].pc.j))
    case GiveLock(p) => At(Lock(s, s[p].pc.j, p), p, Give(s[p].pc.op, s[p].pc.j))
    case GiveAway(p) =>
      var j := s[p].pc.j;
      At(s[j := s[j].(parent := Some(0), lock := None)], p, Giving(s[p].pc.op, j + 1))
    case WakeParent(p) => At(Wake(s, s[p].pc.op), p, Woke(s[p].pc.op))
    case SetZombie(p) => At(s[p := s[p].(state := Zombie)], p, Dying(s[p].pc.op))
    case Unlock(p) => At(Release(s, s[p].pc.op), p, Last(s[p].pc.op))
    case Leave(p) => At(Release(s, p), p, Dead(s[p].pc.op))
  }

  ghost function Do(s: State, e: Event): (s': State)
    requires Enabled(s, e)
    ensures |s'| == |s|
  {
    if OfExit(e) then DoExit(s, e) else DoWait(s, e)
  }

  // ---------- the invariant ----------

  /** The locks that process p holds when it is at pc. */
  function Holds(pc: Pc, p: nat): set<nat> {
    match pc
    case Scan(_, _) => {p}
    case Seen(_) => {p}
    case Look(i) => {p, i}
    case Slept => {p}
    case WakeInit => {0}
    case Own => {p}
    case Parent(op) => {op}
    case Giving(op, _) => {op, p}
    case Found(op, _) => {op, p}
    case Give(op, j) => {op, p, j}
    case Woke(op) => {op, p}
    case Dying(op) => {op, p}
    case Last(_) => {p}
    case _ => {}
  }

  function Op(pc: Pc): Option<nat> {
    match pc
    case Read(op) => Some(op)
    case Parent(op) => Some(op)
    case Giving(op, _) => Some(op)
    case Found(op, _) => Some(op)
    case Give(op, _) => Some(op)
    case Woke(op) => Some(op)
    case Dying(op) => Some(op)
    case Last(op) => Some(op)
    case Dead(op) => Some(op)
    case _ => None
  }

  /** A lock is held exactly by the process whose pc says so. */
  ghost predicate OwnerOk(s: State, x: nat, p: nat)
    requires x < |s|
  {
    s[x].lock == Some(p) <==> p < |s| && x in Holds(s[p].pc, p)
  }

  /** pc, state and parent of one process fit together. */
  ghost predicate ProcOk(s: State, p: nat)
    requires p < |s|
  {
    var r := s[p];
    && (r.state == Unused <==> r.pc == Free)
    && (r.state == Zombie <==> r.pc.Dying? || r.pc.Last? || r.pc.Dead?)
    && (r.state == Sleeping ==> r.pc == Slept || r.pc == Parked) && (r.pc == Slept ==> r.state == Sleeping)
    && (p == 0 ==>
          r.parent == None && Op(r.pc) == None && r.pc != Own && r.pc != WakeInit && r.pc != WokeInit && r.pc != Free)
    && (r.state == Unused ==> r.parent == None)
    && (r.state != Unused && p != 0 ==> r.parent.Some? && r.parent.value < |s| && r.parent.value != p)
    && (Op(r.pc).Some? ==> Op(r.pc).value < |s| && Op(r.pc).value != p && (r.parent == Op(r.pc) || r.parent == Some(0)))
    && (r.pc.Woke? ==> s[r.pc.op].state != Sleeping)
    && (r.pc.Seen? || r.pc.Look? ==> r.pc.i < |s| && r.pc.i != p && s[r.pc.i].parent == Some(p))
    && (r.pc.Found? || r.pc.Give? ==> r.pc.j < |s| && r.pc.j != p && s[r.pc.j].parent == Some(p))
    && (r.pc.Give? ==> r.pc.j != r.pc.op)
  }

  /** How many processes wait has looked at since it took its lock. */
  function Scanned(r: Proc, n: nat): nat {
    if r.pc.Scan? || r.pc.Seen? || r.pc.Look? then r.pc.i else if r.state == Sleeping then n else 0
  }

  /** How many processes reparent has looked at. */
  function Given(pc: Pc, n: nat): nat {
    match pc
    case Giving(_, j) => j
    case Found(_, j) => j
    case Give(_, j) => j
    case Woke(_) => n
    case Dying(_) => n
    case Last(_) => n
    case Dead(_) => n
    case Free => n
    case _ => 0
  }

  /** What the loops of p have established about process c. */
  ghost predicate PairOk(s: State, p: nat, c: nat)
    requires p < |s| && c < |s|
  {
    && (c < Scanned(s[p], |s|) && s[c].parent == Some(p) && s[c].state == Zombie ==> Op(s[c].pc) != Some(p))
    && (c < Given(s[p].pc, |s|) ==> s[c].parent != Some(p))
    && (p != 0 && s[p].pc.Scan? && c < s[p].pc.i && s[c].parent == Some(p) ==> s[p].pc.kids)
    && (s[p].pc.Scan? || s[p].pc.Seen? || s[p].pc.Look? ==> s[p].pc.i <= |s|)
  }

  ghost predicate Owners(s: State) {
    forall x, p {:trigger OwnerOk(s, x, p)} :: 0 <= x < |s| && p >= 0 ==> OwnerOk(s, x, p)
  }

  ghost predicate Core(s: State) {
    && |s| > 0
    && (forall p {:trigger ProcOk(s, p)} :: 0 <= p < |s| ==> ProcOk(s, p))
    && (forall p, c {:trigger PairOk(s, p, c)} :: 0 <= p < |s| && 0 <= c < |s| ==> PairOk(s, p, c))
  }

  ghost predicate Inv(s: State) {
    Owners(s) && Core(s)
  }

  /** What the invariant says about a process and its target. */
  lemma Known(s: State, p: nat, x: nat)
    requires Inv(s) && p < |s| && x < |s|
    ensures ProcOk(s, p) && ProcOk(s, x) && PairOk(s, p, x)
    ensures OwnerOk(s, x, p) && OwnerOk(s, p, p) && OwnerOk(s, x, x) && OwnerOk(s, p, x)
  {
  }

  // ---------- locks follow the pc ----------

  function Actor(e: Event): nat {
    match e
    case Kill(q) => q
    case _ => e.p
  }

  /** After an event its process holds the locks that its new pc names; it took only free
      ones, and no other lock changed. */
  ghost predicate LockEffect(s: State, s': State, a: nat, y: nat)
    requires y < |s| == |s'| && a < |s|
  {
    if y in Holds(s'[a].pc, a) then s'[y].lock == Some(a) && (s[y].lock == None || s[y].lock == Some(a))
    else s'[y].lock == if s[y].lock == Some(a) then None else s[y].lock
  }

  // ---------- kinds of changes ----------

  /** Only locks, and the pc of process a, differ. */
  ghost predicate PcOnly(s: State, s': State, a: nat) {
    && |s'| == |s| && a < |s| && s'[a].state == s[a].state && s'[a].parent == s[a].parent
    && (s[a].state == Zombie ==> Op(s'[a].pc) == Op(s[a].pc))
    && forall x {:trigger s'[x]} :: 0 <= x < |s| && x != a ==> s'[x] == s[x].(lock := s'[x].lock)
  }

  lemma PcOnlyKeeps(s: State, s': State, a: nat)
    requires Core(s) && PcOnly(s, s', a) && ProcOk(s', a) && forall c :: 0 <= c < |s| ==> PairOk(s', a, c)
    ensures Core(s')
  {
    forall p | 0 <= p < |s| ensures ProcOk(s', p) {
      assert ProcOk(s, p);
      if Op(s[p].pc).Some? { assert s'[Op(s[p].pc).value].state == s[Op(s[p].pc).value].state; }
      if s[p].pc.Seen? || s[p].pc.Look? { assert s'[s[p].pc.i].parent == s[s[p].pc.i].parent; }
      if s[p].pc.Found? || s[p].pc.Give? { assert s'[s[p].pc.j].parent == s[s[p].pc.j].parent; }
    }
    forall p, c | 0 <= p < |s| && 0 <= c < |s| ensures PairOk(s', p, c) {
      assert PairOk(s, p, c);
      assert s'[c].state == s[c].state && s'[c].parent == s[c].parent;
    }
  }

  /** wakeup1, or kill, of a process that has been switched out. */
  lemma WakeKeeps(s: State, q: nat)
    requires Core(s) && q < |s| && s[q].pc != Slept
    ensures Core(Wake(s, q))
  {
    var s' := Wake(s, q);
    forall p | 0 <= p < |s| ensures ProcOk(s', p) {
      assert ProcOk(s, p);
      if Op(s[p].pc).Some? {
        var o := Op(s[p].pc).value;
        assert s'[o].state == Sleeping ==> s[o].state == Sleeping;
      }
      if s[p].pc.Seen? || s[p].pc.Look? { assert s'[s[p].pc.i].parent == s[s[p].pc.i].parent; }
      if s[p].pc.Found? || s[p].pc.Give? { assert s'[s[p].pc.j].parent == s[s[p].pc.j].parent; }
    }
    forall p, c | 0 <= p < |s| && 0 <= c < |s| ensures PairOk(s', p, c) {
      assert PairOk(s, p, c);
    }
  }

  /** wait goes to sleep; nobody has just woken this process. */
  lemma SleepKeeps(s: State, a: nat)
    requires Core(s) && a < |s| && s[a].pc == Scan(|s|, true)
    requires forall p :: 0 <= p < |s| && s[p].pc.Woke? ==> s[p].pc.op != a
    ensures Core(s[a := s[a].(state := Sleeping, pc := Slept)])
  {
    var s' := s[a := s[a].(state := Sleeping, pc := Slept)];
    forall p | 0 <= p < |s| ensures ProcOk(s', p) {
      assert ProcOk(s, p);
      if s[p].pc.Seen? || s[p].pc.Look? { assert s'[s[p].pc.i].parent == s[s[p].pc.i].parent; }
      if s[p].pc.Found? || s[p].pc.Give? { assert s'[s[p].pc.j].parent == s[s[p].pc.j].parent; }
    }
    forall p, c | 0 <= p < |s| && 0 <= c < |s| ensures PairOk(s', p, c) {
      assert PairOk(s, p, c);
    }
  }

  /** exit makes a zombie while its original parent is neither scanning nor asleep. */
  lemma ZombieKeeps(s: State, a: nat)
    requires Core(s) && a < |s| && s[a].pc.Woke? && s[a].pc.op < |s| && Scanned(s[s[a].pc.op], |s|) == 0
    ensures Core(s[a := s[a].(state := Zombie, pc := Dying(s[a].pc.op))])
  {
    var s' := s[a := s[a].(state := Zombie, pc := Dying(s[a].pc.op))];
    forall p | 0 <= p < |s| ensures ProcOk(s', p) {
      assert ProcOk(s, p) && ProcOk(s, a);
      if s[p].pc.Seen? || s[p].pc.Look? { assert s'[s[p].pc.i].parent == s[s[p].pc.i].parent; }
      if s[p].pc.Found? || s[p].pc.Give? { assert s'[s[p].pc.j].parent == s[s[p].pc.j].parent; }
    }
    forall p, c | 0 <= p < |s| && 0 <= c < |s| ensures PairOk(s', p, c) {
      assert PairOk(s, p, c) && ProcOk(s, a);
    }
  }

  /** reparent gives child j of a to init. */
  function GivenAway(s: State, a: nat, j: nat): State
    requires a < |s| && j < |s| && s[a].pc.Give?
  {
    s[j := s[j].(parent := Some(0), lock := None)][a := s[a].(pc := Giving(s[a].pc.op, j + 1))]
  }

  lemma GiveProc(s: State, a: nat, j: nat, p: nat)
    requires Core(s) && 0 < a < |s| && j < |s| && s[a].pc.Give? && s[a].pc.j == j && p < |s|
    ensures ProcOk(GivenAway(s, a, j), p)
  {
    var s' := GivenAway(s, a, j);
    assert ProcOk(s, j) && ProcOk(s, a) && ProcOk(s, p) && j != a;
    hide Core;
    if Op(s[p].pc).Some? { assert s'[Op(s[p].pc).value].state == s[Op(s[p].pc).value].state; }
  }

  lemma GivePair(s: State, a: nat, j: nat, p: nat, c: nat)
    requires Core(s) && 0 < a < |s| && j < |s| && s[a].pc.Give? && s[a].pc.j == j && p < |s| && c < |s|
    ensures PairOk(GivenAway(s, a, j), p, c)
  {
    assert PairOk(s, p, c) && ProcOk(s, p) && ProcOk(s, j) && ProcOk(s, a);
    hide Core;
  }

  lemma GiveKeeps(s: State, a: nat, j: nat)
    requires Core(s) && 0 < a < |s| && j < |s| && s[a].pc.Give? && s[a].pc.j == j
    ensures Core(GivenAway(s, a, j))
  {
    var s' := GivenAway(s, a, j);
    forall p | 0 <= p < |s| ensures ProcOk(s', p) { GiveProc(s, a, j, p); }
    forall p, c | 0 <= p < |s| && 0 <= c < |s| ensures PairOk(s', p, c) { GivePair(s, a, j, p, c); }
  }

  /** fork puts a new child of p into a free slot. */
  lemma ForkKeeps(s: State, p: nat, np: nat)
    requires Core(s) && p < |s| && np < |s| && s[p].pc == User && s[np].state == Unused
    ensures Core(s[np := Proc(Ready, Some(p), None, User)])
  {
    var s' := s[np := Proc(Ready, Some(p), None, User)];
    assert ProcOk(s, np) && ProcOk(s, p);
    forall q | 0 <= q < |s| ensures ProcOk(s', q) {
      assert ProcOk(s, q);
      if s[q].pc.Seen? || s[q].pc.Look? { assert s[q].pc.i != np; }
      if s[q].pc.Found? || s[q].pc.Give? { assert s[q].pc.j != np; }
    }
    forall q, c | 0 <= q < |s| && 0 <= c < |s| ensures PairOk(s', q, c) {
      assert PairOk(s, q, c);
    }
  }

  /** wait frees the slot of its child i. */
  function Reaped(s: State, a: nat, i: nat): State
    requires a < |s| && i < |s|
  {
    s[i := Proc(Unused, None, None, Free)][a := s[a].(lock := None, pc := User)]
  }

  lemma ReapProc(s: State, a: nat, i: nat, q: nat)
    requires Core(s) && a < |s| && i < |s| && s[a].pc == Look(i) && s[i].state == Zombie && q < |s|
    ensures ProcOk(Reaped(s, a, i), q)
  {
    assert ProcOk(s, i) && ProcOk(s, a) && ProcOk(s, q);
    hide Core;
    if (s[q].pc.Seen? || s[q].pc.Look?) && q != a { assert s[q].pc.i != i; }
    if s[q].pc.Found? || s[q].pc.Give? { assert s[q].pc.j != i; }
  }

  lemma ReapKeeps(s: State, a: nat, i: nat)
    requires Core(s) && a < |s| && i < |s| && s[a].pc == Look(i) && s[i].state == Zombie
    ensures Core(Reaped(s, a, i))
  {
    var s' := Reaped(s, a, i);
    assert ProcOk(s, i) && ProcOk(s, a);
    forall q | 0 <= q < |s| ensures ProcOk(s', q) { ReapProc(s, a, i, q); }
    forall q, c | 0 <= q < |s| && 0 <= c < |s| ensures PairOk(s', q, c) {
      assert PairOk(s, q, c);
    }
  }

  // ---------- every event keeps the invariant ----------

  /** The rounds of wait's loop. */
  predicate Rounds(e: Event) { e.ScanSkip? || e.ScanSee? || e.ScanLock? || e.LookOn? || e.Reap? || e.ReapFail? }

  lemma RoundLocks(s: State, e: Event, y: nat)
    requires Inv(s) && Enabled(s, e) && !OfExit(e) && Rounds(e) && y < |s|
    ensures LockEffect(s, DoWait(s, e), Actor(e), y)
  {
    hide Inv;
    Known(s, Actor(e), y);
    Known(s, Actor(e), s[Actor(e)].pc.i);
  }

  lemma WaitLocks(s: State, e: Event, y: nat)
    requires Inv(s) && Enabled(s, e) && !OfExit(e) && !Rounds(e) && y < |s|
    ensures LockEffect(s, DoWait(s, e), Actor(e), y)
  {
    hide Inv;
    Known(s, Actor(e), y);
  }

  /** exit up to original_parent. */
  predicate Early(e: Event) { e.ExitStart? || e.WakeFirst? || e.LockOwn? || e.ReadParent? }

  /** exit up to reparent. */
  predicate Middle(e: Event) { e.LockParent? || e.LockAgain? }

  predicate Gives(e: Event) { e.GiveSkip? || e.GiveSee? || e.GiveLock? || e.GiveAway? }

  lemma EarlyLocks(s: State, e: Event, y: nat)
    requires Inv(s) && Enabled(s, e) && OfExit(e) && Early(e) && y < |s|
    ensures LockEffect(s, DoExit(s, e), Actor(e), y)
  {
    hide Inv;
    Known(s, Actor(e), y);
  }

  lemma MiddleLocks(s: State, e: Event, y: nat)
    requires Inv(s) && Enabled(s, e) && OfExit(e) && Middle(e) && y < |s|
    ensures LockEffect(s, DoExit(s, e), Actor(e), y)
  {
    hide Inv;
    Known(s, Actor(e), y);
    Known(s, Actor(e), s[Actor(e)].pc.op);
  }

  lemma PassLocks(s: State, e: Event, y: nat)
    requires Inv(s) && Enabled(s, e) && (e.GiveSkip? || e.GiveSee?) && y < |s|
    ensures LockEffect(s, DoExit(s, e), e.p, y)
  {
    hide Inv;
    Known(s, e.p, y);
  }

  lemma GiveLocks(s: State, p: nat, y: nat)
    requires Inv(s) && Enabled(s, GiveLock(p)) && y < |s|
    ensures LockEffect(s, DoExit(s, GiveLock(p)), p, y)
  {
    hide Inv;
    Known(s, p, y);
    Known(s, p, s[p].pc.j);
  }

  lemma AwayLocks(s: State, p: nat, y: nat)
    requires Inv(s) && Enabled(s, GiveAway(p)) && y < |s|
    ensures LockEffect(s, DoExit(s, GiveAway(p)), p, y)
  {
    hide Inv;
    Known(s, p, y);
  }

  lemma WokeLocks(s: State, e: Event, y: nat)
    requires Inv(s) && Enabled(s, e) && (e.WakeParent? || e.SetZombie?) && y < |s|
    ensures LockEffect(s, DoExit(s, e), e.p, y)
  {
    hide Inv;
    Known(s, e.p, y);
  }

  lemma LateLocks(s: State, e: Event, y: nat)
    requires Inv(s) && Enabled(s, e) && (e.Unlock? || e.Leave?) && y < |s|
    ensures LockEffect(s, DoExit(s, e), e.p, y)
  {
    hide Inv;
    Known(s, e.p, y);
  }

  /** A process whose pc another one's event changes holds no lock before or after. */
  lemma OthersHold(s: State, e: Event, p: nat)
    requires Inv(s) && Enabled(s, e) && p < |s| && p != Actor(e)
    ensures Holds(Do(s, e)[p].pc, p) == Holds(s[p].pc, p)
  {
    hide Inv;
    if e.Reap? && p == s[Actor(e)].pc.i {
      Known(s, Actor(e), p);
    } else if e.Fork? && p == e.np {
      Known(s, p, p);
    } else {
      hide Holds;
      OtherPc(s, e, p);
    }
  }

  lemma OtherPc(s: State, e: Event, p: nat)
    requires Enabled(s, e) && p < |s| && p != Actor(e) && !(e.Reap? && p == s[e.p].pc.i) && !(e.Fork? && p == e.np)
    ensures Do(s, e)[p].pc == s[p].pc
  {
  }

  lemma OwnersKeep(s: State, s': State, a: nat)
    requires Owners(s) && |s'| == |s| && a < |s| && forall y :: 0 <= y < |s| ==> LockEffect(s, s', a, y)
    requires forall p :: 0 <= p < |s| && p != a ==> Holds(s'[p].pc, p) == Holds(s[p].pc, p)
    ensures Owners(s')
  {
    hide Holds;
    forall x, p | 0 <= x < |s| && p >= 0 ensures OwnerOk(s', x, p) {
      assert OwnerOk(s, x, p) && OwnerOk(s, x, a) && LockEffect(s, s', a, x);
    }
  }

  lemma StepOwners(s: State, e: Event)
    requires Inv(s) && Enabled(s, e)
    ensures Owners(Do(s, e))
  {
    hide Inv, Owners, Core, Enabled, DoWait, DoExit, LockEffect, Holds;
    KnownOwners(s, e);
    forall y | 0 <= y < |s| ensures LockEffect(s, Do(s, e), Actor(e), y) {
      if Rounds(e) { RoundLocks(s, e, y); }
      else if !OfExit(e) { WaitLocks(s, e, y); }
      else if Early(e) { EarlyLocks(s, e, y); }
      else if Middle(e) { MiddleLocks(s, e, y); }
      else if e.GiveLock? { GiveLocks(s, e.p, y); }
      else if e.GiveAway? { AwayLocks(s, e.p, y); }
      else if Gives(e) { PassLocks(s, e, y); }
      else if e.WakeParent? || e.SetZombie? { WokeLocks(s, e, y); }
      else { LateLocks(s, e, y); }
    }
    forall p | 0 <= p < |s| && p != Actor(e) ensures Holds(Do(s, e)[p].pc, p) == Holds(s[p].pc, p) {
      OthersHold(s, e, p);
    }
    OwnersKeep(s, Do(s, e), Actor(e));
  }

  lemma KnownOwners(s: State, e: Event)
    requires Inv(s) && Enabled(s, e)
    ensures Owners(s) && Core(s) && Actor(e) < |s|
  {
  }

  /** Where an event leaves its own process, when it changes nothing but locks and the pc. */
  ghost predicate LocalOk(s: State, s': State, a: nat, c: nat)
    requires c < |s'| && a < |s'|
  {
    ProcOk(s', a) && PairOk(s', a, c) && PcOnly(s, s', a)
  }

  /** wait starts, starts again, or is left. */
  predicate Turns(e: Event) {
    e.WaitStart? || e.Resume? || e.Park? || e.WaitNone? || e.WaitKilled? || e.ReapFail?
  }

  lemma TakeLocal(s: State, e: Event, c: nat)
    requires Inv(s) && Enabled(s, e) && c < |s| && Turns(e) && (e.WaitStart? || e.Resume? || e.Park?)
    ensures LocalOk(s, DoWait(s, e), Actor(e), c)
  {
    hide Inv;
    Known(s, Actor(e), c);
  }

  lemma LeaveLocal(s: State, e: Event, c: nat)
    requires Inv(s) && Enabled(s, e) && c < |s| && Turns(e) && !(e.WaitStart? || e.Resume? || e.Park?)
    ensures LocalOk(s, DoWait(s, e), Actor(e), c)
  {
    hide Inv;
    Known(s, Actor(e), c);
  }

  lemma PassLocal(s: State, e: Event, c: nat)
    requires Inv(s) && Enabled(s, e) && c < |s| && e.ScanSkip?
    ensures LocalOk(s, DoWait(s, e), Actor(e), c)
  {
    hide Inv;
    Known(s, Actor(e), c);
  }

  lemma SeenLocal(s: State, p: nat, c: nat)
    requires Inv(s) && Enabled(s, ScanSee(p)) && c < |s|
    ensures LocalOk(s, DoWait(s, ScanSee(p)), p, c)
  {
    hide Inv;
    Known(s, p, c);
    Known(s, p, s[p].pc.i);
  }

  lemma ScanLocal(s: State, p: nat, c: nat)
    requires Inv(s) && Enabled(s, ScanLock(p)) && c < |s|
    ensures LocalOk(s, DoWait(s, ScanLock(p)), p, c)
  {
    hide Inv;
    Known(s, p, c);
  }

  lemma LookLocal(s: State, e: Event, c: nat)
    requires Inv(s) && Enabled(s, e) && c < |s| && e.LookOn?
    ensures LocalOk(s, DoWait(s, e), Actor(e), c)
  {
    hide Inv;
    Known(s, Actor(e), c);
  }

  lemma StartLocal(s: State, p: nat, c: nat)
    requires Inv(s) && Enabled(s, ExitStart(p)) && c < |s|
    ensures LocalOk(s, DoExit(s, ExitStart(p)), p, c)
  {
    hide Inv;
    Known(s, p, c);
  }

  lemma EarlyLocal(s: State, e: Event, c: nat)
    requires Inv(s) && Enabled(s, e) && c < |s| && (e.LockOwn? || e.ReadParent?)
    ensures LocalOk(s, DoExit(s, e), Actor(e), c)
  {
    hide Inv;
    Known(s, Actor(e), c);
  }

  lemma MiddleLocal(s: State, e: Event, c: nat)
    requires Inv(s) && Enabled(s, e) && c < |s| && Middle(e)
    ensures LocalOk(s, DoExit(s, e), Actor(e), c)
  {
    hide Inv;
    Known(s, Actor(e), c);
  }

  lemma SkipLocal(s: State, e: Event, c: nat)
    requires Inv(s) && Enabled(s, e) && c < |s| && e.GiveSkip?
    ensures LocalOk(s, DoExit(s, e), Actor(e), c)
  {
    hide Inv;
    Known(s, Actor(e), c);
  }

  lemma FoundLocal(s: State, p: nat, c: nat)
    requires Inv(s) && Enabled(s, GiveSee(p)) && c < |s|
    ensures LocalOk(s, DoExit(s, GiveSee(p)), p, c)
  {
    hide Inv;
    Known(s, p, c);
    Known(s, p, s[p].pc.j);
  }

  lemma GiveLocal(s: State, p: nat, c: nat)
    requires Inv(s) && Enabled(s, GiveLock(p)) && c < |s|
    ensures LocalOk(s, DoExit(s, GiveLock(p)), p, c)
  {
    hide Inv;
    Known(s, p, c);
    Known(s, p, s[p].pc.op);
  }

  lemma EndLocal(s: State, e: Event, c: nat)
    requires Inv(s) && Enabled(s, e) && c < |s| && (e.Unlock? || e.Leave?)
    ensures LocalOk(s, DoExit(s, e), Actor(e), c)
  {
    hide Inv;
    Known(s, Actor(e), c);
  }

  predicate OnlyPc(e: Event) {
    !(e.Fork? || e.Reap? || e.Sleep? || e.Kill? || e.WakeFirst? || e.GiveAway? || e.WakeParent? || e.SetZombie?)
  }

  lemma PcStep(s: State, e: Event)
    requires Inv(s) && Enabled(s, e) && OnlyPc(e)
    ensures Core(Do(s, e))
  {
    hide Inv, Owners, Core, Enabled, DoWait, DoExit, ProcOk, PairOk, PcOnly;
    KnownOwners(s, e);
    forall c | 0 <= c < |s| ensures PairOk(Do(s, e), Actor(e), c) && LocalOk(s, Do(s, e), Actor(e), c) {
      if e.WaitStart? || e.Resume? || e.Park? { TakeLocal(s, e, c); }
      else if Turns(e) { LeaveLocal(s, e, c); }
      else if e.ScanSkip? { PassLocal(s, e, c); }
      else if e.ScanSee? { SeenLocal(s, e.p, c); }
      else if e.ScanLock? { ScanLocal(s, e.p, c); }
      else if e.LookOn? { LookLocal(s, e, c); }
      else if e.GiveSkip? { SkipLocal(s, e, c); }
      else if e.GiveSee? { FoundLocal(s, e.p, c); }
      else if e.GiveLock? { GiveLocal(s, e.p, c); }
      else if e.Unlock? || e.Leave? { EndLocal(s, e, c); }
      else if Middle(e) { MiddleLocal(s, e, c); }
      else if e.ExitStart? { StartLocal(s, e.p, c); }
      else { EarlyLocal(s, e, c); }
    }
    assert LocalOk(s, Do(s, e), Actor(e), Actor(e));
    PcOnlyKeeps(s, Do(s, e), Actor(e));
  }

  /** exit wakes init, and later its original parent. */
  lemma WakeStep(s: State, e: Event)
    requires Inv(s) && Enabled(s, e) && (e.WakeFirst? || e.WakeParent?)
    ensures Core(Do(s, e))
  {
    hide Inv, Core, PairOk, ProcOk, PcOnly, DoExit;
    KnownOwners(s, e);
    var q := SwitchedOut(s, e);
    WakeKeeps(s, q);
    forall c | 0 <= c < |s| ensures PairOk(Do(s, e), Actor(e), c) { WakePair(s, e, c); }
    WakeProc(s, e);
    PcOnlyKeeps(Wake(s, q), Do(s, e), Actor(e));
  }

  /** The process that it wakes is switched out. */
  lemma SwitchedOut(s: State, e: Event) returns (q: nat)
    requires Inv(s) && Enabled(s, e) && (e.WakeFirst? || e.WakeParent?)
    ensures q < |s| && s[q].pc != Slept && q == if e.WakeFirst? then 0 else s[Actor(e)].pc.op
  {
    hide Inv;
    q := if e.WakeFirst? then 0 else s[Actor(e)].pc.op;
    KnownOwners(s, e);
    Known(s, Actor(e), q);
    Known(s, Actor(e), Actor(e));
  }

  lemma WakePair(s: State, e: Event, c: nat)
    requires Inv(s) && Enabled(s, e) && (e.WakeFirst? || e.WakeParent?) && c < |s|
    ensures PairOk(Do(s, e), Actor(e), c)
  {
    hide Inv;
    Known(s, Actor(e), c);
  }

  lemma WakeProc(s: State, e: Event)
    requires Inv(s) && Enabled(s, e) && (e.WakeFirst? || e.WakeParent?)
    ensures ProcOk(Do(s, e), Actor(e))
    ensures PcOnly(Wake(s, if e.WakeFirst? then 0 else s[Actor(e)].pc.op), Do(s, e), Actor(e))
  {
    hide Inv;
    KnownOwners(s, e);
    Known(s, Actor(e), Actor(e));
  }

  lemma SleepStep(s: State, a: nat)
    requires Inv(s) && Enabled(s, Sleep(a))
    ensures Core(Do(s, Sleep(a)))
  {
    forall p | 0 <= p < |s| && s[p].pc.Woke? ensures s[p].pc.op != a {
      assert OwnerOk(s, a, p) && OwnerOk(s, a, a);
    }
    SleepKeeps(s, a);
    assert Do(s, Sleep(a)) == s[a := s[a].(state := Sleeping, pc := Slept)];
  }

  lemma ZombieStep(s: State, a: nat)
    requires Inv(s) && Enabled(s, SetZombie(a))
    ensures Core(Do(s, SetZombie(a)))
  {
    var op := s[a].pc.op;
    assert ProcOk(s, a);
    assert OwnerOk(s, op, a) && OwnerOk(s, op, op) && ProcOk(s, op);
    ZombieKeeps(s, a);
    assert Do(s, SetZombie(a)) == s[a := s[a].(state := Zombie, pc := Dying(op))];
  }

  lemma StepKeeps(s: State, e: Event)
    requires Inv(s) && Enabled(s, e)
    ensures Inv(Do(s, e))
  {
    StepOwners(s, e);
    hide Owners, ProcOk, PairOk, Holds, DoExit;
    match e
    case Fork(p, np) => ForkKeeps(s, p, np);
    case Reap(p) => ReapStep(s, p);
    case Sleep(p) => SleepStep(s, p);
    case Kill(q) => KillStep(s, q);
    case WakeFirst(p) => WakeStep(s, e);
    case WakeParent(p) => WakeStep(s, e);
    case GiveAway(p) => GiveStep(s, p);
    case SetZombie(p) => ZombieStep(s, p);
    case _ => PcStep(s, e);
  }

  lemma ReapStep(s: State, p: nat)
    requires Inv(s) && Enabled(s, Reap(p))
    ensures Core(Do(s, Reap(p)))
  {
    var i := s[p].pc.i;
    assert ProcOk(s, p);
    ReapKeeps(s, p, i);
    assert Do(s, Reap(p)) == Reaped(s, p, i);
  }

  lemma KillStep(s: State, q: nat)
    requires Inv(s) && Enabled(s, Kill(q))
    ensures Core(Do(s, Kill(q)))
  {
    assert OwnerOk(s, q, q);
    WakeKeeps(s, q);
  }

  lemma Away(s: State, p: nat)
    requires Enabled(s, GiveAway(p))
    ensures Do(s, GiveAway(p)) == GivenAway(s, p, s[p].pc.j) || p == s[p].pc.j
  {
  }

  lemma GiveStep(s: State, p: nat)
    requires Inv(s) && Enabled(s, GiveAway(p))
    ensures Core(Do(s, GiveAway(p)))
  {
    hide Inv, Core, Owners;
    KnownOwners(s, GiveAway(p));
    InExit(s, GiveAway(p));
    GivesChild(s, p);
    hide ProcOk;
    GiveKeeps(s, p, s[p].pc.j);
    Away(s, p);
  }

  // ---------- the tree of parents ----------

  /** fork, reparent and freeproc are all that changes p->parent. */
  lemma Parents(s: State, e: Event, c: nat)
    requires Enabled(s, e) && c < |s|
    ensures Do(s, e)[c].parent ==
            if e.Fork? && c == e.np then Some(e.p)
            else if e.Reap? && c == s[e.p].pc.i then None
            else if e.GiveAway? && c == s[e.p].pc.j then Some(0)
            else s[c].parent
  {
    hide Enabled;
    if OfExit(e) { ExitParents(s, e, c); } else { WaitParents(s, e, c); }
  }

  lemma ExitParents(s: State, e: Event, c: nat)
    requires Enabled(s, e) && OfExit(e) && c < |s|
    ensures DoExit(s, e)[c].parent == if e.GiveAway? && c == s[e.p].pc.j then Some(0) else s[c].parent
  {
  }

  lemma WaitParents(s: State, e: Event, c: nat)
    requires Enabled(s, e) && !OfExit(e) && c < |s|
    ensures DoWait(s, e)[c].parent ==
            if e.Fork? && c == e.np then Some(e.p)
            else if e.Reap? && c == s[e.p].pc.i then None
            else s[c].parent
  {
  }

  /** A parent has a smaller rank than its child. */
  ghost predicate RankOk(s: State, r: seq<nat>, c: nat)
    requires c < |s| == |r|
  {
    s[c].parent.Some? ==> s[c].parent.value < |s| && r[s[c].parent.value] < r[c]
  }

  /** The original parent of an exiting process is not its child. */
  ghost predicate OpOk(s: State, p: nat)
    requires p < |s|
  {
    Op(s[p].pc).Some? ==> Op(s[p].pc).value < |s| && s[Op(s[p].pc).value].parent != Some(p)
  }

  /** The ranks show that the processes form a tree with init at the root. */
  ghost predicate Ranked(s: State, r: seq<nat>) {
    && |s| == |r| > 0 && r[0] == 0
    && (forall c {:trigger RankOk(s, r, c)} :: 0 <= c < |s| ==> RankOk(s, r, c))
    && (forall p {:trigger OpOk(s, p)} :: 0 <= p < |s| ==> OpOk(s, p))
  }

  function NewRanks(s: State, r: seq<nat>, e: Event): seq<nat>
    requires Enabled(s, e) && |r| == |s|
  {
    if e.Fork? then r[e.np := r[e.p] + 1] else r
  }

  lemma StepRank(s: State, r: seq<nat>, e: Event, c: nat)
    requires Inv(s) && Ranked(s, r) && Enabled(s, e) && c < |s|
    ensures RankOk(Do(s, e), NewRanks(s, r, e), c)
  {
    hide Inv, Do, ProcOk;
    Parents(s, e, c);
    assert RankOk(s, r, c);
    if e.Fork? {
      Known(s, e.np, c);
      Known(s, e.p, e.np);
      FreeSlot(s, e.np);
    } else if e.GiveAway? {
      GivesChild(s, e.p);
    }
  }

  lemma GivesChild(s: State, p: nat)
    requires Inv(s) && p < |s| && s[p].pc.Give?
    ensures s[p].pc.j < |s| && s[p].pc.j != p && s[s[p].pc.j].parent == Some(p)
  {
    Known(s, p, p);
  }

  lemma FreeSlot(s: State, x: nat)
    requires Inv(s) && x < |s| && s[x].state == Unused
    ensures s[x].pc == Free && s[x].parent == None && x != 0
  {
    Known(s, x, x);
  }

  lemma StepOp(s: State, r: seq<nat>, e: Event, p: nat)
    requires Inv(s) && Ranked(s, r) && Enabled(s, e) && p < |s|
    ensures OpOk(Do(s, e), p)
  {
    hide Inv, PairOk;
    assert OpOk(s, p) && RankOk(s, r, p);
    Known(s, p, p);
    var pc := Do(s, e)[p].pc;
    if Op(pc).Some? {
      OpStep(s, e, p);
      Parents(s, e, Op(pc).value);
      assert e.ReadParent? && e.p == p ==> RankOk(s, r, Op(pc).value);
    }
  }

  /** original_parent is set once, by the read of p->parent; fork is called outside of exit, and
      init does not call exit. */
  lemma OpStep(s: State, e: Event, p: nat)
    requires Inv(s) && Enabled(s, e) && p < |s| && Op(Do(s, e)[p].pc).Some?
    ensures Op(Do(s, e)[p].pc) == (if e == ReadParent(p) then s[p].parent else Op(s[p].pc))
    ensures p != 0 && !(e.Fork? && e.p == p)
  {
    hide Inv;
    if p == Actor(e) {
      if OfExit(e) { OpOwn(s, e); } else { OpWait(s, e); }
    } else {
      KnownOwners(s, e);
      if e.Reap? { Known(s, e.p, e.p); }
      OtherPc(s, e, p);
      Known(s, p, p);
    }
  }

  lemma OpOwn(s: State, e: Event)
    requires Inv(s) && Enabled(s, e) && OfExit(e)
    ensures Op(DoExit(s, e)[e.p].pc) == (if e.ReadParent? then s[e.p].parent else Op(s[e.p].pc))
    ensures e.p != 0
  {
    hide Inv;
    InExit(s, e);
    hide ProcOk;
  }

  lemma InExit(s: State, e: Event)
    requires Inv(s) && Enabled(s, e) && OfExit(e)
    ensures 0 < e.p < |s|
  {
    hide Inv;
    KnownOwners(s, e);
    Known(s, e.p, e.p);
  }

  /** No process in exit takes part in fork or wait. */
  lemma OpWait(s: State, e: Event)
    requires Inv(s) && Enabled(s, e) && !OfExit(e) && Op(DoWait(s, e)[Actor(e)].pc).Some?
    ensures e.Kill? && Op(s[e.q].pc) == Op(DoWait(s, e)[Actor(e)].pc) && e.q != 0
  {
    hide Inv;
    KnownOwners(s, e);
    Known(s, Actor(e), Actor(e));
  }

  lemma StepRanked(s: State, r: seq<nat>, e: Event)
    requires Inv(s) && Ranked(s, r) && Enabled(s, e)
    ensures Ranked(Do(s, e), NewRanks(s, r, e))
  {
    hide Inv, Do, RankOk, OpOk;
    forall c | 0 <= c < |s| ensures RankOk(Do(s, e), NewRanks(s, r, e), c) { StepRank(s, r, e, c); }
    forall p | 0 <= p < |s| ensures OpOk(Do(s, e), p) { StepOp(s, r, e, p); }
    if e.Fork? { FreeSlot(s, e.np); }
  }

  /** Every process descends from a child of init. */
  lemma {:induction false} Ancestor(s: State, r: seq<nat>, x: nat) returns (c: nat)
    requires Inv(s) && Ranked(s, r) && 0 < x < |s| && s[x].state != Unused
    ensures c < |s| && s[c].parent == Some(0)
    decreases if x < |r| then r[x] else 0
  {
    hide Inv;
    Known(s, x, x);
    var q := s[x].parent.value;
    if q == 0 {
      c := x;
    } else {
      assert RankOk(s, r, x);
      Known(s, q, x);
      c := Ancestor(s, r, q);
    }
  }

  // ---------- the scan of init ----------

  ghost predicate Alone(s: State) {
    forall x :: 0 < x < |s| ==> s[x].state == Unused
  }

  /** init has a child that its scan has not come to. */
  ghost predicate Ahead(s: State, i: nat) {
    exists c :: i <= c < |s| && s[c].parent == Some(0)
  }

  /** While init has found no child, there is none, or one is still ahead, whatever others
      give to init in the meantime. */
  ghost predicate ScanOk(s: State)
    requires |s| > 0
  {
    s[0].pc.Scan? && !s[0].pc.kids ==> Alone(s) || Ahead(s, s[0].pc.i)
  }

  /** Nobody but init takes a child of init away. */
  lemma StepAhead(s: State, e: Event, c: nat)
    requires Inv(s) && Enabled(s, e) && c < |s| && s[c].parent == Some(0) && e != Reap(0)
    ensures Do(s, e)[c].parent == Some(0)
  {
    hide Inv, Do, PairOk;
    Parents(s, e, c);
    if e.Fork? { FreeSlot(s, e.np); }
    if e.Reap? { Known(s, e.p, e.p); }
  }

  /** A process that does something exists. */
  lemma Acts(s: State, e: Event)
    requires Inv(s) && Enabled(s, e) && !e.Kill?
    ensures s[Actor(e)].state != Unused
  {
    hide Inv;
    KnownOwners(s, e);
    Known(s, Actor(e), Actor(e));
  }

  lemma StepAlone(s: State, e: Event)
    requires Inv(s) && Enabled(s, e) && Alone(s) && s[0].pc.Scan? && Do(s, e)[0].pc.Scan?
    ensures Alone(Do(s, e))
  {
    hide Inv;
    if !e.Kill? { Acts(s, e); }
  }

  /** How init comes to be scanning with no child found. */
  lemma ScanPc(s: State, e: Event)
    requires Inv(s) && Enabled(s, e) && Do(s, e)[0].pc.Scan? && !Do(s, e)[0].pc.kids
    ensures e != Reap(0)
    ensures
      || e == WaitStart(0) || e == Resume(0)
      || s[0].pc == Do(s, e)[0].pc
      || (s[0].pc.Scan? && !s[0].pc.kids && s[0].pc.i < |s| && s[s[0].pc.i].parent != Some(0) &&
          Do(s, e)[0].pc.i == s[0].pc.i + 1)
  {
    hide Inv;
    KnownOwners(s, e);
    if Actor(e) == 0 {
      if OfExit(e) { InExit(s, e); }
    } else {
      if e.Reap? { Known(s, e.p, e.p); Known(s, 0, 0); }
      if e.Fork? { FreeSlot(s, e.np); }
      OtherPc(s, e, 0);
    }
  }

  /** The start of a scan. */
  lemma ScanStarts(s: State, e: Event)
    requires Enabled(s, e) && (e == WaitStart(0) || e == Resume(0))
    ensures Do(s, e)[0].pc == Scan(0, false) && forall x :: 0 < x < |s| ==> Do(s, e)[x] == s[x]
  {
  }

  lemma StepScan(s: State, r: seq<nat>, e: Event)
    requires Inv(s) && Ranked(s, r) && ScanOk(s) && Enabled(s, e)
    ensures ScanOk(Do(s, e))
  {
    hide Inv, Do, Enabled, RankOk, OpOk;
    var s' := Do(s, e);
    if s'[0].pc.Scan? && !s'[0].pc.kids {
      ScanPc(s, e);
      if e == WaitStart(0) || e == Resume(0) {
        ScanStarts(s, e);
        if x :| 0 < x < |s'| && s'[x].state != Unused {
          var c := Ancestor(s, r, x);
          StepAhead(s, e, c);
        }
      } else if Alone(s) {
        StepAlone(s, e);
      } else {
        var c :| s[0].pc.i <= c < |s| && s[c].parent == Some(0);
        StepAhead(s, e, c);
        assert s'[0].pc.i <= c;
      }
    }
  }

  // ---------- whole runs ----------

  /** Only init exists. */
  function Initial(n: nat): State
    requires n > 0
  {
    seq(n, i => if i == 0 then Proc(Ready, None, None, User) else Proc(Unused, None, None, Free))
  }

  lemma InitialOk(n: nat)
    requires n > 0
    ensures Inv(Initial(n))
  {
  }

  ghost predicate Reaches(s: State, es: seq<Event>, t: State)
    decreases |es|
  {
    if es == [] then t == s else Enabled(s, es[0]) && Reaches(Do(s, es[0]), es[1..], t)
  }

  lemma {:induction false} RunKeeps(s: State, es: seq<Event>, t: State)
    requires Inv(s) && Reaches(s, es, t)
    ensures Inv(t)
    decreases |es|
  {
    hide Inv, Enabled, Do;
    if es != [] {
      StepKeeps(s, es[0]);
      RunKeeps(Do(s, es[0]), es[1..], t);
    }
  }

  /** A process asleep in wait has no zombie child, in every run, unless it is init and the
      child had read another p->parent before it was given to init. */
  lemma NoMissedChild(n: nat, es: seq<Event>, s: State, q: nat, c: nat)
    requires n > 0 && Reaches(Initial(n), es, s) && q < |s| && c < |s|
    requires s[q].state == Sleeping && s[c].parent == Some(q) && s[c].state == Zombie
    ensures q == 0 && Op(s[c].pc).Some? && Op(s[c].pc) != Some(0)
  {
    InitialOk(n);
    RunKeeps(Initial(n), es, s);
    Known(s, q, c);
  }

  /** The tree and the scan of init in every run. */
  lemma {:induction false} RunScan(s: State, r: seq<nat>, es: seq<Event>, t: State) returns (r': seq<nat>)
    requires Inv(s) && Ranked(s, r) && ScanOk(s) && Reaches(s, es, t)
    ensures Inv(t) && Ranked(t, r') && ScanOk(t)
    decreases |es|
  {
    hide Inv, Enabled, Do, Ranked, ScanOk;
    r' := r;
    if es != [] {
      StepKeeps(s, es[0]);
      SameLength(s, r);
      StepRanked(s, r, es[0]);
      StepScan(s, r, es[0]);
      r' := RunScan(Do(s, es[0]), NewRanks(s, r, es[0]), es[1..], t);
    }
  }

  lemma SameLength(s: State, r: seq<nat>)
    requires Ranked(s, r)
    ensures |s| == |r|
  {
  }

  lemma InitialRanked(n: nat)
    requires n > 0
    ensures Ranked(Initial(n), seq(n, i => 0)) && ScanOk(Initial(n))
  {
    var s, r := Initial(n), seq(n, i => 0);
    forall c | 0 <= c < n ensures RankOk(s, r, c) && OpOk(s, c) { assert s[c].parent == None; }
  }

  /** The same from the start. */
  lemma FromInitial(n: nat, es: seq<Event>, s: State) returns (r: seq<nat>)
    requires n > 0 && Reaches(Initial(n), es, s)
    ensures Inv(s) && Ranked(s, r) && ScanOk(s)
  {
    hide Inv, Reaches;
    InitialOk(n);
    InitialRanked(n);
    r := RunScan(Initial(n), seq(n, i => 0), es, s);
  }

  /** wait reports that there are no children only when there are none: for init too, which
      receives the children of others while it scans. */
  lemma NoneIsNone(n: nat, es: seq<Event>, s: State, p: nat, c: nat)
    requires n > 0 && Reaches(Initial(n), es, s) && Enabled(s, WaitNone(p)) && c < |s|
    ensures s[c].parent != Some(p)
  {
    hide Inv;
    var r := FromInitial(n, es, s);
    Known(s, p, c);
    Known(s, c, c);
  }

  /** A parent is a process that exists and has not exited. */
  lemma ParentAlive(n: nat, es: seq<Event>, s: State, c: nat, q: nat)
    requires n > 0 && Reaches(Initial(n), es, s) && c < |s| && s[c].parent == Some(q)
    ensures q < |s| && (s[q].state == Ready || s[q].state == Sleeping)
  {
    InitialOk(n);
    RunKeeps(Initial(n), es, s);
    Known(s, c, c);
    Known(s, q, c);
  }

  /** wait frees only a process that has left its kernel stack, and holds no lock. */
  lemma ReapedIsDead(n: nat, es: seq<Event>, s: State, p: nat)
    requires n > 0 && Reaches(Initial(n), es, s) && Enabled(s, Reap(p))
    ensures var i := s[p].pc.i;
      s[i].pc.Dead? && s[i].parent == Some(p) && forall x :: 0 <= x < |s| ==> s[x].lock != Some(i)
  {
    hide Inv;
    InitialOk(n);
    RunKeeps(Initial(n), es, s);
    var i := s[p].pc.i;
    Known(s, p, i);
    forall x | 0 <= x < |s| ensures s[x].lock != Some(i) { Known(s, i, x); }
  }

  /** At both calls of sched the caller holds its own lock and no other. */
  lemma SchedLocks(n: nat, es: seq<Event>, s: State, p: nat, x: nat)
    requires n > 0 && Reaches(Initial(n), es, s) && p < |s| && x < |s| && (s[p].pc == Slept || s[p].pc.Last?)
    ensures s[x].lock == Some(p) <==> x == p
  {
    InitialOk(n);
    RunKeeps(Initial(n), es, s);
    Known(s, p, x);
  }

  /** p->parent does not change between the check without the lock and the acquire. */
  lemma ParentStays(n: nat, es: seq<Event>, s: State, p: nat)
    requires n > 0 && Reaches(Initial(n), es, s) && p < |s| && (s[p].pc.Seen? || s[p].pc.Found?)
    ensures var c := if s[p].pc.Seen? then s[p].pc.i else s[p].pc.j;
      c < |s| && s[c].parent == Some(p)
  {
    InitialOk(n);
    RunKeeps(Initial(n), es, s);
    Known(s, p, p);
  }

  /** The locks that process p may acquire next when it is at pc. */
  function Wants(pc: Pc, p: nat): set<nat> {
    match pc
    case User => {p, 0}
    case Seen(i) => {i}
    case Parked => {p}
    case WokeInit => {p}
    case Read(op) => {op}
    case Parent(_) => {p}
    case Found(_, j) => {j}
    case _ => {}
  }

  /** acquire never finds the lock already held by its caller, where it would panic. */
  lemma AcquireOnce(n: nat, es: seq<Event>, s: State, p: nat, x: nat)
    requires n > 0 && Reaches(Initial(n), es, s) && p < |s| && x in Wants(s[p].pc, p)
    ensures x < |s| && s[x].lock != Some(p)
  {
    hide Inv, RankOk;
    var r := FromInitial(n, es, s);
    assert OpOk(s, p);
    Known(s, p, p);
    Known(s, p, x);
  }

  // ---------- init can miss a child ----------

  lemma {:induction false} Further(s: State, es: seq<Event>, t: State, e: Event)
    requires Reaches(s, es, t) && Enabled(t, e)
    ensures Reaches(s, es + [e], Do(t, e))
    decreases |es|
  {
    hide Enabled, Do;
    if es == [] {
      assert (es + [e])[1..] == [];
    } else {
      Further(Do(s, es[0]), es[1..], t, e);
      assert (es + [e])[1..] == es[1..] + [e];
    }
  }

  /** One more event of a run, which leads to u. */
  lemma Then(s: State, es: seq<Event>, t: State, e: Event, u: State) returns (r: seq<Event>)
    requires Reaches(s, es, t) && Enabled(t, e) && Do(t, e) == u
    ensures Reaches(s, r, u)
  {
    Further(s, es, t, e);
    r := es + [e];
  }

  /** exit up to the read of p->parent. */
  lemma ExitReads(s: State, es: seq<Event>, t: State, p: nat) returns (r: seq<Event>)
    requires Reaches(s, es, t) && 0 < p < |t| && t[p].pc == User && t[p].lock == None && t[p].parent.Some?
    requires t[0].lock == None && t[0].state != Sleeping
    ensures Reaches(s, r, t[p := t[p].(pc := Read(t[p].parent.value))])
  {
    hide Reaches;
    var u1 := t[0 := t[0].(lock := Some(p))][p := t[p].(pc := WakeInit)];
    var u2 := t[p := t[p].(pc := WokeInit)];
    var u3 := t[p := t[p].(lock := Some(p), pc := Own)];
    r := Then(s, es, t, ExitStart(p), u1);
    assert Do(u1, WakeFirst(p)) == u2;
    r := Then(s, r, u1, WakeFirst(p), u2);
    assert Do(u2, LockOwn(p)) == u3;
    r := Then(s, r, u2, LockOwn(p), u3);
    assert Do(u3, ReadParent(p)) == t[p := t[p].(pc := Read(t[p].parent.value))];
    r := Then(s, r, u3, ReadParent(p), t[p := t[p].(pc := Read(t[p].parent.value))]);
  }

  /** exit takes the two locks. */
  lemma ExitTakes(s: State, es: seq<Event>, t: State, p: nat, op: nat) returns (r: seq<Event>)
    requires Reaches(s, es, t) && p < |t| && op < |t| && p != op && t[p].pc == Read(op)
    requires t[p].lock == None && t[op].lock == None
    ensures Reaches(s, r, t[op := t[op].(lock := Some(p))][p := t[p].(lock := Some(p), pc := Giving(op, 0))])
  {
    hide Reaches;
    var u1 := t[op := t[op].(lock := Some(p))][p := t[p].(pc := Parent(op))];
    var u2 := t[op := t[op].(lock := Some(p))][p := t[p].(lock := Some(p), pc := Giving(op, 0))];
    r := Then(s, es, t, LockParent(p), u1);
    assert Do(u1, LockAgain(p)) == u2;
    r := Then(s, r, u1, LockAgain(p), u2);
  }

  /** reparent passes over processes that are no children. */
  lemma {:induction false} GivesSkip(s: State, es: seq<Event>, t: State, p: nat, op: nat, j: nat, k: nat)
    returns (r: seq<Event>)
    requires Reaches(s, es, t) && p < |t| && t[p].pc == Giving(op, j) && j <= k <= |t|
    requires forall c :: j <= c < k ==> t[c].parent != Some(p)
    ensures Reaches(s, r, t[p := t[p].(pc := Giving(op, k))])
    decreases k - j
  {
    hide Reaches;
    if j == k {
      assert t == t[p := t[p].(pc := Giving(op, k))];
      r := es;
    } else {
      var u := t[p := t[p].(pc := Giving(op, j + 1))];
      r := Then(s, es, t, GiveSkip(p), u);
      r := GivesSkip(s, r, u, p, op, j + 1, k);
      assert u[p := u[p].(pc := Giving(op, k))] == t[p := t[p].(pc := Giving(op, k))];
    }
  }

  /** reparent gives one child away. */
  lemma GivesOne(s: State, es: seq<Event>, t: State, p: nat, op: nat, j: nat) returns (r: seq<Event>)
    requires Reaches(s, es, t) && p < |t| && j < |t| && j != p && t[p].pc == Giving(op, j)
    requires t[j].parent == Some(p) && t[j].lock == None
    ensures Reaches(s, r, t[j := t[j].(parent := Some(0))][p := t[p].(pc := Giving(op, j + 1))])
  {
    hide Reaches;
    var u0 := t[p := t[p].(pc := Found(op, j))];
    var u1 := t[j := t[j].(lock := Some(p))][p := t[p].(pc := Give(op, j))];
    var u2 := t[j := t[j].(parent := Some(0))][p := t[p].(pc := Giving(op, j + 1))];
    r := Then(s, es, t, GiveSee(p), u0);
    assert Do(u0, GiveLock(p)) == u1;
    r := Then(s, r, u0, GiveLock(p), u1);
    assert Do(u1, GiveAway(p)) == u2;
    r := Then(s, r, u1, GiveAway(p), u2);
  }

  /** exit from the wakeup of the original parent on. */
  lemma ExitWakes(s: State, es: seq<Event>, t: State, p: nat, op: nat) returns (r: seq<Event>)
    requires Reaches(s, es, t) && p < |t| && op < |t| && t[p].pc == Giving(op, |t|) && t[op].state != Sleeping
    ensures Reaches(s, r, t[p := t[p].(state := Zombie, pc := Dying(op))])
  {
    hide Reaches;
    var u1 := t[p := t[p].(pc := Woke(op))];
    var u2 := t[p := t[p].(state := Zombie, pc := Dying(op))];
    assert Do(t, WakeParent(p)) == u1;
    r := Then(s, es, t, WakeParent(p), u1);
    assert Do(u1, SetZombie(p)) == u2;
    r := Then(s, r, u1, SetZombie(p), u2);
  }

  lemma ExitEnds(s: State, es: seq<Event>, t: State, p: nat, op: nat) returns (r: seq<Event>)
    requires Reaches(s, es, t) && p < |t| && op < |t| && p != op && t[p].pc == Giving(op, |t|)
    requires t[op].state != Sleeping
    ensures Reaches(s, r, t[op := t[op].(lock := None)][p := t[p].(state := Zombie, lock := None, pc := Dead(op))])
  {
    hide Reaches;
    var u2 := t[p := t[p].(state := Zombie, pc := Dying(op))];
    var u3 := t[op := t[op].(lock := None)][p := t[p].(state := Zombie, pc := Last(op))];
    var u4 := t[op := t[op].(lock := None)][p := t[p].(state := Zombie, lock := None, pc := Dead(op))];
    r := ExitWakes(s, es, t, p, op);
    assert Do(u2, Unlock(p)) == u3;
    r := Then(s, r, u2, Unlock(p), u3);
    assert Do(u3, Leave(p)) == u4;
    r := Then(s, r, u3, Leave(p), u4);
  }

  /** wait passes over processes that are no children. */
  lemma {:induction false} ScansSkip(s: State, es: seq<Event>, t: State, p: nat, i: nat, k: nat, kids: bool)
    returns (r: seq<Event>)
    requires Reaches(s, es, t) && p < |t| && t[p].pc == Scan(i, kids) && i <= k <= |t|
    requires forall c :: i <= c < k ==> t[c].parent != Some(p)
    ensures Reaches(s, r, t[p := t[p].(pc := Scan(k, kids))])
    decreases k - i
  {
    hide Reaches;
    if i == k {
      assert t == t[p := t[p].(pc := Scan(k, kids))];
      r := es;
    } else {
      var u := t[p := t[p].(pc := Scan(i + 1, kids))];
      r := Then(s, es, t, ScanSkip(p), u);
      r := ScansSkip(s, r, u, p, i + 1, k, kids);
      assert u[p := u[p].(pc := Scan(k, kids))] == t[p := t[p].(pc := Scan(k, kids))];
    }
  }

  /** wait reads that a process is its child and takes the lock. */
  lemma ScansLook(s: State, es: seq<Event>, t: State, p: nat, i: nat, kids: bool) returns (r: seq<Event>)
    requires Reaches(s, es, t) && p < |t| && i < |t| && i != p && t[p].pc == Scan(i, kids)
    requires t[i].parent == Some(p) && t[i].lock == None
    ensures Reaches(s, r, t[i := t[i].(lock := Some(p))][p := t[p].(pc := Look(i))])
  {
    hide Reaches;
    var u0 := t[p := t[p].(pc := Seen(i))];
    var u1 := t[i := t[i].(lock := Some(p))][p := t[p].(pc := Look(i))];
    r := Then(s, es, t, ScanSee(p), u0);
    assert Do(u0, ScanLock(p)) == u1;
    r := Then(s, r, u0, ScanLock(p), u1);
  }

  /** wait looks at a child: it frees a zombie, and goes past any other. */
  lemma ScansOne(s: State, es: seq<Event>, t: State, p: nat, i: nat, kids: bool) returns (r: seq<Event>)
    requires Reaches(s, es, t) && p < |t| && i < |t| && i != p && t[p].pc == Scan(i, kids)
    requires t[i].parent == Some(p) && t[i].lock == None
    ensures t[i].state != Zombie ==> Reaches(s, r, t[p := t[p].(pc := Scan(i + 1, true))])
    ensures t[i].state == Zombie ==>
      Reaches(s, r, t[i := Proc(Unused, None, None, Free)][p := t[p].(lock := None, pc := User)])
  {
    hide Reaches;
    var u1 := t[i := t[i].(lock := Some(p))][p := t[p].(pc := Look(i))];
    r := ScansLook(s, es, t, p, i, kids);
    if t[i].state == Zombie {
      var u2 := t[i := Proc(Unused, None, None, Free)][p := t[p].(lock := None, pc := User)];
      assert Do(u1, Reap(p)) == u2;
      r := Then(s, r, u1, Reap(p), u2);
    } else {
      var u2 := t[p := t[p].(pc := Scan(i + 1, true))];
      assert Do(u1, LookOn(p)) == u2;
      r := Then(s, r, u1, LookOn(p), u2);
    }
  }

  lemma WaitBegins(s: State, es: seq<Event>, t: State, p: nat) returns (r: seq<Event>)
    requires Reaches(s, es, t) && p < |t| && t[p].pc == User && t[p].lock == None
    ensures Reaches(s, r, t[p := t[p].(lock := Some(p), pc := Scan(0, false))])
  {
    hide Reaches;
    var u := t[p := t[p].(lock := Some(p), pc := Scan(0, false))];
    assert Do(t, WaitStart(p)) == u;
    r := Then(s, es, t, WaitStart(p), u);
  }

  lemma WaitSleeps(s: State, es: seq<Event>, t: State, p: nat) returns (r: seq<Event>)
    requires Reaches(s, es, t) && p < |t| && t[p].pc == Scan(|t|, true)
    ensures Reaches(s, r, t[p := t[p].(state := Sleeping, lock := None, pc := Parked)])
  {
    hide Reaches;
    var u1 := t[p := t[p].(state := Sleeping, pc := Slept)];
    var u2 := t[p := t[p].(state := Sleeping, lock := None, pc := Parked)];
    assert Do(t, Sleep(p)) == u1;
    r := Then(s, es, t, Sleep(p), u1);
    assert Do(u1, Park(p)) == u2;
    r := Then(s, r, u1, Park(p), u2);
  }

  /** Processes 0, 1 and 2 as given, and no other. */
  function Three(n: nat, a: Proc, b: Proc, c: Proc): (s: State)
    requires n >= 3
    ensures |s| == n && s[0] == a && s[1] == b && s[2] == c
    ensures forall i :: 3 <= i < n ==> s[i] == Proc(Unused, None, None, Free)
  {
    Initial(n)[0 := a][1 := b][2 := c]
  }

  lemma IsThree(n: nat, a: Proc, b: Proc, c: Proc, t: State)
    requires n >= 3 && |t| == n && t[0] == a && t[1] == b && t[2] == c
    requires forall i :: 3 <= i < n ==> t[i] == Proc(Unused, None, None, Free)
    ensures t == Three(n, a, b, c)
  {
  }

  /** init forks process 1, which forks process 2, which calls exit and reads its parent. */
  lemma ChildReads(n: nat) returns (es: seq<Event>)
    requires n >= 3
    ensures Reaches(Initial(n), es, Three(n, Proc(Ready, None, None, User), Proc(Ready, Some(0), None, User),
                                          Proc(Ready, Some(1), None, Read(1))))
  {
    var s := Initial(n);
    var u1 := s[1 := Proc(Ready, Some(0), None, User)];
    var u2 := u1[2 := Proc(Ready, Some(1), None, User)];
    assert Reaches(s, [], s);
    hide Reaches;
    es := Then(s, [], s, Fork(0, 1), u1);
    es := Then(s, es, u1, Fork(1, 2), u2);
    es := ExitReads(s, es, u2, 2);
    IsThree(n, Proc(Ready, None, None, User), Proc(Ready, Some(0), None, User), Proc(Ready, Some(1), None, Read(1)),
            u2[2 := u2[2].(pc := Read(1))]);
  }

  /** Process 1 exits, giving process 2 to init. */
  lemma ParentExits(n: nat) returns (es: seq<Event>)
    requires n >= 3
    ensures Reaches(Initial(n), es, Three(n, Proc(Ready, None, None, User), Proc(Zombie, Some(0), None, Dead(0)),
                                          Proc(Ready, Some(0), None, Read(1))))
  {
    hide Reaches, Initial;
    es := ChildReads(n);
    es := ParentStarts(n, es);
    es := ParentGives(n, es);
    es := ParentEnds(n, es);
  }

  lemma ParentStarts(n: nat, es: seq<Event>) returns (r: seq<Event>)
    requires n >= 3
    requires Reaches(Initial(n), es, Three(n, Proc(Ready, None, None, User), Proc(Ready, Some(0), None, User),
                                           Proc(Ready, Some(1), None, Read(1))))
    ensures Reaches(Initial(n), r,
                    Three(n, Proc(Ready, None, Some(1), User), Proc(Ready, Some(0), Some(1), Giving(0, 0)),
                          Proc(Ready, Some(1), None, Read(1))))
  {
    hide Reaches, Initial;
    var u, l, b := Proc(Ready, None, None, User), Proc(Ready, None, Some(1), User), Proc(Ready, Some(1), None, Read(1));
    var a0, a1, a2 := Proc(Ready, Some(0), None, User), Proc(Ready, Some(0), None, Read(0)),
                      Proc(Ready, Some(0), Some(1), Giving(0, 0));
    r := ExitReads(Initial(n), es, Three(n, u, a0, b), 1);
    IsThree(n, u, a1, b, Three(n, u, a0, b)[1 := a1]);
    r := ExitTakes(Initial(n), r, Three(n, u, a1, b), 1, 0);
    IsThree(n, l, a2, b, Three(n, u, a1, b)[0 := l][1 := a2]);
  }

  lemma ParentGives(n: nat, es: seq<Event>) returns (r: seq<Event>)
    requires n >= 3
    requires Reaches(Initial(n), es,
                     Three(n, Proc(Ready, None, Some(1), User), Proc(Ready, Some(0), Some(1), Giving(0, 0)),
                           Proc(Ready, Some(1), None, Read(1))))
    ensures Reaches(Initial(n), r,
                    Three(n, Proc(Ready, None, Some(1), User), Proc(Ready, Some(0), Some(1), Giving(0, 3)),
                          Proc(Ready, Some(0), None, Read(1))))
  {
    hide Reaches, Initial;
    var l, b, c := Proc(Ready, None, Some(1), User), Proc(Ready, Some(1), None, Read(1)),
        Proc(Ready, Some(0), None, Read(1));
    var a0, a2, a3 := Proc(Ready, Some(0), Some(1), Giving(0, 0)), Proc(Ready, Some(0), Some(1), Giving(0, 2)),
                      Proc(Ready, Some(0), Some(1), Giving(0, 3));
    r := GivesSkip(Initial(n), es, Three(n, l, a0, b), 1, 0, 0, 2);
    IsThree(n, l, a2, b, Three(n, l, a0, b)[1 := a2]);
    r := GivesOne(Initial(n), r, Three(n, l, a2, b), 1, 0, 2);
    IsThree(n, l, a3, c, Three(n, l, a2, b)[2 := c][1 := a3]);
  }

  lemma ParentEnds(n: nat, es: seq<Event>) returns (r: seq<Event>)
    requires n >= 3
    requires Reaches(Initial(n), es,
                     Three(n, Proc(Ready, None, Some(1), User), Proc(Ready, Some(0), Some(1), Giving(0, 3)),
                           Proc(Ready, Some(0), None, Read(1))))
    ensures Reaches(Initial(n), r, Three(n, Proc(Ready, None, None, User), Proc(Zombie, Some(0), None, Dead(0)),
                                         Proc(Ready, Some(0), None, Read(1))))
  {
    hide Reaches, Initial;
    var s := Initial(n);
    var u, l, c := Proc(Ready, None, None, User), Proc(Ready, None, Some(1), User), Proc(Ready, Some(0), None, Read(1));
    r := GivesSkip(s, es, Three(n, l, Proc(Ready, Some(0), Some(1), Giving(0, 3)), c), 1, 0, 3, n);
    IsThree(n, l, Proc(Ready, Some(0), Some(1), Giving(0, n)), c,
            Three(n, l, Proc(Ready, Some(0), Some(1), Giving(0, 3)), c)
              [1 := Proc(Ready, Some(0), Some(1), Giving(0, n))]);
    r := ExitEnds(s, r, Three(n, l, Proc(Ready, Some(0), Some(1), Giving(0, n)), c), 1, 0);
    IsThree(n, u, Proc(Zombie, Some(0), None, Dead(0)), c,
            Three(n, l, Proc(Ready, Some(0), Some(1), Giving(0, n)), c)
              [0 := u][1 := Proc(Zombie, Some(0), None, Dead(0))]);
  }

  /** init frees process 1, looks again, finds no zombie and goes to sleep. */
  lemma InitSleeps(n: nat) returns (es: seq<Event>)
    requires n >= 3
    ensures Reaches(Initial(n), es, Three(n, Proc(Sleeping, None, None, Parked), Proc(Unused, None, None, Free),
                                          Proc(Ready, Some(0), None, Read(1))))
  {
    hide Reaches, Initial;
    var s := Initial(n);
    var u, z := Proc(Ready, None, None, User), Proc(Zombie, Some(0), None, Dead(0));
    var f, c := Proc(Unused, None, None, Free), Proc(Ready, Some(0), None, Read(1));
    es := ParentExits(n);
    es := WaitBegins(s, es, Three(n, u, z, c), 0);
    IsThree(n, Proc(Ready, None, Some(0), Scan(0, false)), z, c,
            Three(n, u, z, c)[0 := Proc(Ready, None, Some(0), Scan(0, false))]);
    es := ScansSkip(s, es, Three(n, Proc(Ready, None, Some(0), Scan(0, false)), z, c), 0, 0, 1, false);
    IsThree(n, Proc(Ready, None, Some(0), Scan(1, false)), z, c,
            Three(n, Proc(Ready, None, Some(0), Scan(0, false)), z, c)
              [0 := Proc(Ready, None, Some(0), Scan(1, false))]);
    es := ScansOne(s, es, Three(n, Proc(Ready, None, Some(0), Scan(1, false)), z, c), 0, 1, false);
    IsThree(n, u, f, c, Three(n, Proc(Ready, None, Some(0), Scan(1, false)), z, c)[1 := f][0 := u]);
    es := InitRescans(n, es);
  }

  lemma InitRescans(n: nat, es: seq<Event>) returns (r: seq<Event>)
    requires n >= 3
    requires Reaches(Initial(n), es, Three(n, Proc(Ready, None, None, User), Proc(Unused, None, None, Free),
                                           Proc(Ready, Some(0), None, Read(1))))
    ensures Reaches(Initial(n), r, Three(n, Proc(Sleeping, None, None, Parked), Proc(Unused, None, None, Free),
                                         Proc(Ready, Some(0), None, Read(1))))
  {
    hide Reaches, Initial;
    var s := Initial(n);
    var u, f, c := Proc(Ready, None, None, User), Proc(Unused, None, None, Free), Proc(Ready, Some(0), None, Read(1));
    var i0, i2 := Proc(Ready, None, Some(0), Scan(0, false)), Proc(Ready, None, Some(0), Scan(2, false));
    var i3, i4 := Proc(Ready, None, Some(0), Scan(3, true)), Proc(Ready, None, Some(0), Scan(n, true));
    r := WaitBegins(s, es, Three(n, u, f, c), 0);
    IsThree(n, i0, f, c, Three(n, u, f, c)[0 := i0]);
    r := ScansSkip(s, r, Three(n, i0, f, c), 0, 0, 2, false);
    IsThree(n, i2, f, c, Three(n, i0, f, c)[0 := i2]);
    r := ScansOne(s, r, Three(n, i2, f, c), 0, 2, false);
    IsThree(n, i3, f, c, Three(n, i2, f, c)[0 := i3]);
    r := ScansSkip(s, r, Three(n, i3, f, c), 0, 3, n, true);
    IsThree(n, i4, f, c, Three(n, i3, f, c)[0 := i4]);
    r := WaitSleeps(s, r, Three(n, i4, f, c), 0);
    IsThree(n, Proc(Sleeping, None, None, Parked), f, c, Three(n, i4, f, c)[0 := Proc(Sleeping, None, None, Parked)]);
  }

  /** The missed child of NoMissedChild exists: with three or more processes a run ends with
      init asleep in wait, its child a zombie, and no lock held. */
  lemma InitMisses(n: nat) returns (es: seq<Event>, s: State)
    requires n >= 3
    ensures Reaches(Initial(n), es, s) && |s| == n
    ensures s[0].state == Sleeping && s[2].state == Zombie && s[2].parent == Some(0)
    ensures forall x :: 0 <= x < n ==> s[x].lock == None
  {
    hide Reaches, Initial;
    var i, f := Proc(Sleeping, None, None, Parked), Proc(Unused, None, None, Free);
    var c, l := Proc(Ready, Some(0), None, Read(1)), Proc(Unused, None, Some(2), Free);
    var g0, g1 := Proc(Ready, Some(0), Some(2), Giving(1, 0)), Proc(Ready, Some(0), Some(2), Giving(1, n));
    es := InitSleeps(n);
    es := ExitTakes(Initial(n), es, Three(n, i, f, c), 2, 1);
    IsThree(n, i, l, g0, Three(n, i, f, c)[1 := l][2 := g0]);
    es := GivesSkip(Initial(n), es, Three(n, i, l, g0), 2, 1, 0, n);
    IsThree(n, i, l, g1, Three(n, i, l, g0)[2 := g1]);
    es := ExitEnds(Initial(n), es, Three(n, i, l, g1), 2, 1);
    s := Three(n, i, f, Proc(Zombie, Some(0), None, Dead(1)));
    IsThree(n, i, f, Proc(Zombie, Some(0), None, Dead(1)),
            Three(n, i, l, g1)[1 := f][2 := Proc(Zombie, Some(0), None, Dead(1))]);
  }

  /** init sleeps although a child of it has exited. */
  ghost predicate Missed(s: State) {
    exists c :: 0 <= c < |s| && s[0].state == Sleeping && s[c].parent == Some(0) && s[c].state == Zombie
  }

  /** That can happen exactly when there is room for three processes. */
  lemma MissExact(n: nat)
    requires n > 0
    ensures (exists es, s :: Reaches(Initial(n), es, s) && Missed(s)) <==> n >= 3
  {
    if n >= 3 {
      var es, s := InitMisses(n);
      assert Missed(s);
    } else {
      forall es, s | Reaches(Initial(n), es, s) ensures !Missed(s) { FewMissNone(n, es, s); }
    }
  }

  lemma FewMissNone(n: nat, es: seq<Event>, s: State)
    requires 0 < n < 3 && Reaches(Initial(n), es, s)
    ensures !Missed(s)
  {
    hide Inv, Reaches;
    InitialOk(n);
    RunKeeps(Initial(n), es, s);
    RunLength(Initial(n), es, s);
    forall c | 0 <= c < |s| && s[0].state == Sleeping && s[c].parent == Some(0) && s[c].state == Zombie ensures false {
      NoMissedChild(n, es, s, 0, c);
      Known(s, c, c);
    }
  }

  lemma {:induction false} RunLength(s: State, es: seq<Event>, t: State)
    requires Reaches(s, es, t)
    ensures |t| == |s|
    decreases |es|
  {
    hide Enabled;
    if es != [] { RunLength(Do(s, es[0]), es[1..], t); }
  }
}
