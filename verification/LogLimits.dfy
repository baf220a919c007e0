/** Where the log's reservation stops. begin_op reserves against LOGSIZE and log_write
    checks against the size of the log area; the gap is shown by a run and closed by an
    exact condition. */
module LogLimits {
  import opened Options
  import opened Params
  import opened Redo
  import opened LogMachine

  // ---------- building runs ----------

  lemma Extend(s: State, es: seq<Event>, e: Event)
    requires Inv(s) && Legal(s, es) && Shape(Run(s, es)) && Enabled(Run(s, es), e)
    ensures Legal(s, es + [e]) && Run(s, es + [e]) == Do(Run(s, es), e)
    ensures Inv(Run(s, es + [e]))
  {
    hide Inv, Enabled, Shape, Do;
    assert (es + [e])[..|es + [e]| - 1] == es;
    RunKeeps(s, es + [e]);
  }

  /** An empty log, at least LOGSIZE blocks behind the log area, and at least three processes. */
  ghost predicate Roomy(g: Geometry, d: Disk, threads: nat) {
    && WellFormed(g, d) && HeaderBlocks(d[g.start]) == [] && g.start + g.size + LOGSIZE <= g.blocks
    && 3 <= threads < UINT_RANGE - 2
  }

  /** Three of the processes are inside an operation; together they have logged the first
      m blocks behind the log area, ten each, and let go of every buffer. */
  ghost function Loaded(g: Geometry, d: Disk, threads: nat, m: nat): State
    requires Roomy(g, d, threads) && m <= LOGSIZE
  {
    var b0 := g.start + g.size;
    State(Env(g, d, seq(m, j => b0 + j), seq(m, j requires 0 <= j < m => d[b0 + j]), seq(m, j => j),
              3, false, Idle, seq(threads, t => t < 3),
              Budgets(threads, m)),
          seq(NBUF, i requires 0 <= i < NBUF =>
            if i < m then Buf(b0 + i, true, 1, None, d[b0 + i], {}, false, Some(i)) else EmptyBuf()))
  }

  /** What the three operations have left of their reservations after m blocks. */
  ghost function Budgets(threads: nat, m: nat): seq<nat> {
    seq(threads, t => if t < 3 then Left(m - t * MAXOPBLOCKS) else 0)
  }

  lemma BudgetStep(threads: nat, m: nat)
    requires m < LOGSIZE && threads >= 3
    ensures var t := m / 10;
      t < 3 && Budgets(threads, m)[t] > 0 &&
      Budgets(threads, m)[t := Budgets(threads, m)[t] - 1] == Budgets(threads, m + 1)
  {
  }

  function Left(used: int): nat {
    if used <= 0 then MAXOPBLOCKS else if used >= MAXOPBLOCKS then 0 else MAXOPBLOCKS - used
  }

  ghost function Started(g: Geometry, d: Disk, threads: nat, n: nat): State
    requires n <= 3
  {
    State(Env(g, d, [], [], [], n, false, Idle,
              seq(threads, t => t < n), seq(threads, t => if t < n then MAXOPBLOCKS else 0)),
          seq(NBUF, _ => EmptyBuf()))
  }

  lemma StartOne(g: Geometry, d: Disk, threads: nat, n: nat)
    requires Roomy(g, d, threads) && n < 3
    ensures var s := Started(g, d, threads, n);
      Shape(s) && Enabled(s, BeginOp(n)) && Do(s, BeginOp(n)) == Started(g, d, threads, n + 1)
  {
    assert Do(Started(g, d, threads, n), BeginOp(n)).k.active == Started(g, d, threads, n + 1).k.active;
    assert Do(Started(g, d, threads, n), BeginOp(n)).k.budget == Started(g, d, threads, n + 1).k.budget;
  }

  lemma {:induction false} StartRun(g: Geometry, d: Disk, threads: nat, s: State, n: nat) returns (es: seq<Event>)
    requires Roomy(g, d, threads) && n <= 3 && s == Started(g, d, threads, 0) && Inv(s)
    ensures Legal(s, es) && Run(s, es) == Started(g, d, threads, n)
  {
    hide Inv, Started, Enabled, Do, Shape, Roomy;
    if n == 0 {
      es := [];
    } else {
      es := StartRun(g, d, threads, s, n - 1);
      StartOne(g, d, threads, n - 1);
      Extend(s, es, BeginOp(n - 1));
      es := es + [BeginOp(n - 1)];
    }
  }

  lemma StartThree(g: Geometry, d: Disk, threads: nat) returns (es: seq<Event>)
    requires Roomy(g, d, threads)
    ensures Legal(Boot(g, d, threads), es) && Run(Boot(g, d, threads), es) == Loaded(g, d, threads, 0)
  {
    BootInv(g, d, threads);
    assert Started(g, d, threads, 0) == Boot(g, d, threads) by {
      assert Started(g, d, threads, 0).k.active == Boot(g, d, threads).k.active;
      assert Started(g, d, threads, 0).k.budget == Boot(g, d, threads).k.budget;
    }
    assert Started(g, d, threads, 3) == Loaded(g, d, threads, 0) by {
      assert Started(g, d, threads, 3).k.active == Loaded(g, d, threads, 0).k.active;
      assert Started(g, d, threads, 3).k.budget == Loaded(g, d, threads, 0).k.budget;
      assert Started(g, d, threads, 3).bufs == Loaded(g, d, threads, 0).bufs;
    }
    hide Inv, Loaded, Started, Boot;
    es := StartRun(g, d, threads, Boot(g, d, threads), 3);
  }

  lemma BootInv(g: Geometry, d: Disk, threads: nat)
    requires Roomy(g, d, threads)
    ensures Inv(Boot(g, d, threads))
  {
    BootOk(g, d, threads);
  }

  // ---------- one operation logs one more block ----------

  function Got(b: int, t: nat, owner: Option<nat>, valid: bool, data: Block): Buf {
    EmptyBuf().(blockno := b, refcnt := 1, holders := {t}, owner := owner, valid := valid, data := data)
  }

  lemma LoadedShape(g: Geometry, d: Disk, threads: nat, m: nat)
    requires Roomy(g, d, threads) && m <= Capacity(g)
    ensures Shape(Loaded(g, d, threads, m))
  {
  }

  lemma LoadGet(g: Geometry, d: Disk, threads: nat, m: nat)
    requires Roomy(g, d, threads) && m < Capacity(g)
    ensures var s := Loaded(g, d, threads, m); var t := m / 10; var b := g.start + g.size + m; var e := Bget(t, b, m);
      Shape(s) && Enabled(s, e) && Do(s, e) == SetBuf(s, m, Got(b, t, None, false, Zero()))
  {
    LoadedShape(g, d, threads, m);
    assert Loaded(g, d, threads, m).bufs[m] == EmptyBuf();
  }

  lemma LoadLock(g: Geometry, d: Disk, threads: nat, m: nat)
    requires Roomy(g, d, threads) && m < Capacity(g)
    ensures var t := m / 10; var b := g.start + g.size + m;
      var s := SetBuf(Loaded(g, d, threads, m), m, Got(b, t, None, false, Zero()));
      Shape(s) && Enabled(s, Lock(t, m)) &&
      Do(s, Lock(t, m)) == SetBuf(Loaded(g, d, threads, m), m, Got(b, t, Some(t), false, Zero()))
  {
    LoadedShape(g, d, threads, m);
  }

  lemma LoadFill(g: Geometry, d: Disk, threads: nat, m: nat)
    requires Roomy(g, d, threads) && m < Capacity(g)
    ensures var t := m / 10; var b := g.start + g.size + m;
      var s := SetBuf(Loaded(g, d, threads, m), m, Got(b, t, Some(t), false, Zero()));
      Shape(s) && Enabled(s, Fill(t, m)) &&
      Do(s, Fill(t, m)) == SetBuf(Loaded(g, d, threads, m), m, Got(b, t, Some(t), true, d[b]))
  {
    LoadedShape(g, d, threads, m);
  }

  lemma LoadLog(g: Geometry, d: Disk, threads: nat, m: nat)
    requires Roomy(g, d, threads) && m < Capacity(g)
    ensures var t := m / 10; var b := g.start + g.size + m;
      var s := SetBuf(Loaded(g, d, threads, m), m, Got(b, t, Some(t), true, d[b]));
      Shape(s) && Enabled(s, LogWrite(t, m)) && Do(s, LogWrite(t, m)) ==
      SetBuf(Loaded(g, d, threads, m + 1), m, Got(b, t, Some(t), true, d[b]).(refcnt := 2, pin := Some(m)))
  {
    LoadedShape(g, d, threads, m);
    BudgetStep(threads, m);
    hide Budgets;
    var t := m / 10;
    var b := g.start + g.size + m;
    var s := SetBuf(Loaded(g, d, threads, m), m, Got(b, t, Some(t), true, d[b]));
    assert Find(s.k.lh, b) == m;
    var n := Do(s, LogWrite(t, m));
    var w := SetBuf(Loaded(g, d, threads, m + 1), m, Got(b, t, Some(t), true, d[b]).(refcnt := 2, pin := Some(m)));
    assert n.k.lh == w.k.lh && n.k.logged == w.k.logged && n.k.slot == w.k.slot;
    assert n.k.budget == w.k.budget;
    assert n.bufs == w.bufs;
  }

  lemma LoadRelease(g: Geometry, d: Disk, threads: nat, m: nat)
    requires Roomy(g, d, threads) && m < Capacity(g)
    ensures var t := m / 10; var b := g.start + g.size + m;
      var held := Got(b, t, Some(t), true, d[b]).(refcnt := 2, pin := Some(m));
      var s := SetBuf(Loaded(g, d, threads, m + 1), m, held);
      var s' := SetBuf(Loaded(g, d, threads, m + 1), m, held.(owner := None));
      && Shape(s) && Enabled(s, Unlock(t, m)) && Do(s, Unlock(t, m)) == s'
      && Shape(s') && Enabled(s', Unref(t, m)) && Do(s', Unref(t, m)) == Loaded(g, d, threads, m + 1)
  {
    LoadedShape(g, d, threads, m + 1);
    var t := m / 10;
    var b := g.start + g.size + m;
    var held := Got(b, t, Some(t), true, d[b]).(refcnt := 2, pin := Some(m));
    var s' := SetBuf(Loaded(g, d, threads, m + 1), m, held.(owner := None));
    assert {t} - {t} == {};
    assert Do(s', Unref(t, m)).bufs == Loaded(g, d, threads, m + 1).bufs;
  }

  lemma LoadOne(g: Geometry, d: Disk, threads: nat, m: nat, s: State, es: seq<Event>) returns (r: seq<Event>)
    requires Roomy(g, d, threads) && m < Capacity(g) && Inv(s) && Legal(s, es) && Run(s, es) == Loaded(g, d, threads, m)
    ensures Legal(s, r) && Run(s, r) == Loaded(g, d, threads, m + 1)
  {
    hide Loaded, Inv, Legal, Run, Enabled, Do, Shape, SetBuf, Got;
    var t := m / 10;
    LoadGet(g, d, threads, m);
    Extend(s, es, Bget(t, g.start + g.size + m, m));
    r := es + [Bget(t, g.start + g.size + m, m)];
    LoadLock(g, d, threads, m);
    Extend(s, r, Lock(t, m));
    r := r + [Lock(t, m)];
    LoadFill(g, d, threads, m);
    Extend(s, r, Fill(t, m));
    r := r + [Fill(t, m)];
    LoadLog(g, d, threads, m);
    Extend(s, r, LogWrite(t, m));
    r := r + [LogWrite(t, m)];
    LoadRelease(g, d, threads, m);
    Extend(s, r, Unlock(t, m));
    r := r + [Unlock(t, m)];
    Extend(s, r, Unref(t, m));
    r := r + [Unref(t, m)];
  }

  lemma {:induction false} LoadRun(g: Geometry, d: Disk, threads: nat, m: nat) returns (es: seq<Event>)
    requires Roomy(g, d, threads) && m <= Capacity(g)
    ensures Legal(Boot(g, d, threads), es) && Run(Boot(g, d, threads), es) == Loaded(g, d, threads, m)
  {
    hide Loaded, Inv, Legal, Run, Roomy, Boot;
    if m == 0 {
      es := StartThree(g, d, threads);
    } else {
      BootInv(g, d, threads);
      es := LoadRun(g, d, threads, m - 1);
      es := LoadOne(g, d, threads, m - 1, Boot(g, d, threads), es);
    }
  }

  // ---------- is the reservation enough? ----------

  /** No operation that still has reserved space is refused it by log_write. */
  ghost predicate ReservationHonoured(s: State) {
    forall t :: 0 <= t < |s.k.active| == |s.k.budget| && s.k.active[t] && s.k.budget[t] > 0 ==> LogWriteChecks(s.k)
  }

  lemma EnoughRoom(s: State)
    requires Inv(s) && s.k.g.size > LOGSIZE
    ensures ReservationHonoured(s)
  {
    forall t | 0 <= t < |s.k.active| && s.k.active[t] && s.k.budget[t] > 0 ensures LogWriteChecks(s.k) {
      SumUpdate(s.k.budget, t, 0);
      CountUpdate(s.k.active, t, true);
    }
  }

  /** An operation that still has reserved space is never refused a new block exactly when
      the log area has more than LOGSIZE blocks. mkfs makes it LOGSIZE blocks, header
      included, so there an operation can be stopped inside its reservation. */
  lemma ReservationExact(g: Geometry, d: Disk, threads: nat)
    requires Roomy(g, d, threads)
    ensures (forall es: seq<Event> ::
               Legal(Boot(g, d, threads), es) ==> ReservationHonoured(Run(Boot(g, d, threads), es)))
            <==> g.size > LOGSIZE
  {
    hide Inv, Legal, Run, Loaded, ReservationHonoured;
    BootInv(g, d, threads);
    if g.size > LOGSIZE {
      forall es: seq<Event> | Legal(Boot(g, d, threads), es) ensures ReservationHonoured(Run(Boot(g, d, threads), es)) {
        RunKeeps(Boot(g, d, threads), es);
        RunGeometry(Boot(g, d, threads), es);
        EnoughRoom(Run(Boot(g, d, threads), es));
      }
    } else {
      var es := LoadRun(g, d, threads, g.size - 1);
      Refused(g, d, threads);
    }
  }

  lemma {:induction false} RunGeometry(s: State, es: seq<Event>)
    requires Legal(s, es)
    ensures Run(s, es).k.g == s.k.g
  {
    if es != [] {
      RunGeometry(s, es[..|es| - 1]);
      StepGeometry(Run(s, es[..|es| - 1]), es[|es| - 1]);
    }
  }

  lemma StepGeometry(s: State, e: Event)
    requires Shape(s) && Enabled(s, e)
    ensures Do(s, e).k.g == s.k.g
  {
    hide EnvOk;
  }

  lemma Refused(g: Geometry, d: Disk, threads: nat)
    requires Roomy(g, d, threads) && g.size <= LOGSIZE
    ensures !ReservationHonoured(Loaded(g, d, threads, g.size - 1))
  {
    var s := Loaded(g, d, threads, g.size - 1);
    var t := (g.size - 1) / 10;
    assert s.k.active[t] && s.k.budget[t] > 0 && !LogWriteChecks(s.k);
  }

  /** The exact condition of log_write's panic for a running operation: the log list is
      full. With more than LOGSIZE blocks in the log area that is LOGSIZE entries, and then
      no operation has reserved space left. */
  lemma PanicExact(s: State, t: nat)
    requires Inv(s) && t < |s.k.active| && s.k.active[t]
    ensures !LogWriteChecks(s.k) <==> |s.k.lh| == Capacity(s.k.g)
    ensures !LogWriteChecks(s.k) && s.k.g.size > LOGSIZE
      ==> |s.k.lh| == LOGSIZE && forall u :: 0 <= u < |s.k.budget| ==> s.k.budget[u] == 0
  {
    CountUpdate(s.k.active, t, true);
    forall u | 0 <= u < |s.k.budget| ensures |s.k.lh| == LOGSIZE ==> s.k.budget[u] == 0 {
      SumUpdate(s.k.budget, u, 0);
    }
  }

  /** The full list is reachable whatever the size of the log area, by operations that each
      stay within MAXOPBLOCKS. The check comes before the search for a block already in the
      log, so in that state log_write panics for those blocks too. */
  lemma AbsorptionRefused(g: Geometry, d: Disk, threads: nat) returns (es: seq<Event>)
    requires Roomy(g, d, threads)
    ensures Legal(Boot(g, d, threads), es)
    ensures var s := Run(Boot(g, d, threads), es);
      && |s.k.lh| == Capacity(g) && |s.k.active| == threads && !LogWriteChecks(s.k)
      && forall t :: 0 <= t < threads ==> (s.k.active[t] <==> t < 3)
  {
    hide Legal, Run, Boot;
    es := LoadRun(g, d, threads, Capacity(g));
  }
}
