/** The physical redo log of kernel/log.c seen from the disk: the header block,
    the copies behind it, the order of the single-block writes that commit() and
    recover_from_log() make, and what a crash after any one of them leaves.
    One block write is one atomic step. */
module Redo {
  import opened Params

  // BSIZE is 1024 bytes: 256 C ints, the unit in which struct logheader is laid out
  const BLOCK_WORDS := 256

  type Block = b: seq<int> | |b| == BLOCK_WORDS witness seq(BLOCK_WORDS, _ => 0)
  type Disk = seq<Block>

  /** log[dev].start, log[dev].size and the number of blocks of the device. */
  datatype Geometry = Geometry(start: nat, size: nat, blocks: nat)

  ghost predicate ValidGeometry(g: Geometry) {
    0 < g.start && 1 <= g.size && g.start + g.size <= g.blocks
  }

  /** Blocks that file system code may log: neither the boot block nor the log area. */
  predicate IsHome(g: Geometry, b: int) {
    0 < b < g.blocks && !(g.start <= b < g.start + g.size)
  }

  /** How many copies the log area holds behind its header block. */
  function Capacity(g: Geometry): int {
    if g.size - 1 < LOGSIZE then g.size - 1 else LOGSIZE
  }

  ghost predicate Distinct(bs: seq<int>) {
    forall i, j :: 0 <= i < j < |bs| ==> bs[i] != bs[j]
  }

  ghost predicate Loggable(g: Geometry, bs: seq<int>) {
    && |bs| <= Capacity(g)
    && Distinct(bs)
    && forall i :: 0 <= i < |bs| ==> IsHome(g, bs[i])
  }

  // ---------- the header block ----------

  predicate HeaderOk(h: Block) {
    0 <= h[0] <= LOGSIZE
  }

  /** What read_head copies into memory. */
  function HeaderBlocks(h: Block): seq<int>
    requires HeaderOk(h)
  {
    h[1..1 + h[0]]
  }

  /** What write_head leaves in the header buffer: words past the new count are stale. */
  function PutHeader(h: Block, bs: seq<int>): Block
    requires |bs| <= LOGSIZE
  {
    [|bs|] + bs + h[1 + |bs|..]
  }

  lemma HeaderRoundTrip(h: Block, bs: seq<int>)
    requires |bs| <= LOGSIZE
    ensures HeaderOk(PutHeader(h, bs)) && HeaderBlocks(PutHeader(h, bs)) == bs
  {
    assert PutHeader(h, bs)[1..1 + |bs|] == bs;
  }

  ghost predicate WellFormed(g: Geometry, d: Disk) {
    && ValidGeometry(g)
    && |d| == g.blocks
    && HeaderOk(d[g.start])
    && Loggable(g, HeaderBlocks(d[g.start]))
  }

  // ---------- single-block writes ----------

  function WriteHeader(g: Geometry, d: Disk, bs: seq<int>): Disk
    requires ValidGeometry(g) && |d| == g.blocks && |bs| <= LOGSIZE
  {
    d[g.start := PutHeader(d[g.start], bs)]
  }

  /** The disk after the first k iterations of install_trans. */
  function Installed(g: Geometry, d: Disk, bs: seq<int>, k: nat): (r: Disk)
    requires ValidGeometry(g) && |d| == g.blocks && Loggable(g, bs) && k <= |bs|
    ensures |r| == |d|
  {
    if k == 0 then d
    else
      var p := Installed(g, d, bs, k - 1);
      p[bs[k - 1] := p[g.start + k]]
  }

  /** The disk after the first k iterations of write_log. */
  function Copied(g: Geometry, d: Disk, cs: seq<Block>, k: nat): (r: Disk)
    requires ValidGeometry(g) && |d| == g.blocks && |cs| <= Capacity(g) && k <= |cs|
    ensures |r| == |d|
  {
    if k == 0 then d else Copied(g, d, cs, k - 1)[g.start + k := cs[k - 1]]
  }

  /** The disk after the first k block writes of recover_from_log. */
  function RecoverState(g: Geometry, d: Disk, k: nat): (r: Disk)
    requires WellFormed(g, d)
    requires k <= |HeaderBlocks(d[g.start])| + 1
    ensures |r| == |d|
  {
    var bs := HeaderBlocks(d[g.start]);
    if k <= |bs| then Installed(g, d, bs, k)
    else WriteHeader(g, Installed(g, d, bs, |bs|), [])
  }

  /** The disk after an uninterrupted recover_from_log. */
  function Recover(g: Geometry, d: Disk): (r: Disk)
    requires WellFormed(g, d)
    ensures |r| == |d|
  {
    RecoverState(g, d, |HeaderBlocks(d[g.start])| + 1)
  }

  /** The disk after the first k block writes of commit(), whose in-memory header
      lists bs and whose cached blocks hold cs. */
  function CommitState(g: Geometry, d: Disk, bs: seq<int>, cs: seq<Block>, k: nat): (r: Disk)
    requires WellFormed(g, d) && Loggable(g, bs) && |bs| == |cs| && k <= 2 * |bs| + 2
    ensures |r| == |d|
  {
    var n := |bs|;
    if k <= n then Copied(g, d, cs, k)
    else
      var committed := WriteHeader(g, Copied(g, d, cs, n), bs);
      if k <= 2 * n + 1 then Installed(g, committed, bs, k - n - 1)
      else WriteHeader(g, Installed(g, committed, bs, n), [])
  }

  // ---------- what the writes do, block by block ----------

  lemma {:induction false} InstalledOutside(g: Geometry, d: Disk, bs: seq<int>, k: nat, b: int)
    requires ValidGeometry(g) && |d| == g.blocks && Loggable(g, bs) && k <= |bs|
    requires 0 <= b < |d| && b !in bs[..k]
    ensures Installed(g, d, bs, k)[b] == d[b]
  {
    if k > 0 {
      assert bs[..k][k - 1] == bs[k - 1];
      assert forall i :: 0 <= i < k - 1 ==> bs[..k - 1][i] == bs[..k][i];
      InstalledOutside(g, d, bs, k - 1, b);
    }
  }

  lemma InstalledKeepsLog(g: Geometry, d: Disk, bs: seq<int>, k: nat)
    requires ValidGeometry(g) && |d| == g.blocks && Loggable(g, bs) && k <= |bs|
    ensures forall b :: g.start <= b < g.start + g.size ==> Installed(g, d, bs, k)[b] == d[b]
  {
    forall b | g.start <= b < g.start + g.size
      ensures Installed(g, d, bs, k)[b] == d[b]
    {
      forall i | 0 <= i < k ensures bs[..k][i] != b { assert IsHome(g, bs[i]); }
      InstalledOutside(g, d, bs, k, b);
    }
  }

  lemma {:induction false} InstalledAt(g: Geometry, d: Disk, bs: seq<int>, k: nat, i: nat)
    requires ValidGeometry(g) && |d| == g.blocks && Loggable(g, bs) && i < k <= |bs|
    ensures Installed(g, d, bs, k)[bs[i]] == d[g.start + 1 + i]
  {
    if i == k - 1 {
      InstalledKeepsLog(g, d, bs, k - 1);
    } else {
      InstalledAt(g, d, bs, k - 1, i);
    }
  }

  lemma {:induction false} CopiedAt(g: Geometry, d: Disk, cs: seq<Block>, k: nat, b: int)
    requires ValidGeometry(g) && |d| == g.blocks && |cs| <= Capacity(g) && k <= |cs|
    requires 0 <= b < |d|
    ensures Copied(g, d, cs, k)[b] ==
            if g.start < b <= g.start + k then cs[b - g.start - 1] else d[b]
  {
    if k > 0 { CopiedAt(g, d, cs, k - 1, b); }
  }

  /** A complete recovery, block by block: the independent reading of Recover. */
  ghost predicate IsRecovered(g: Geometry, d: Disk, r: Disk)
    requires WellFormed(g, d)
  {
    var bs := HeaderBlocks(d[g.start]);
    && |r| == |d|
    && (forall i :: 0 <= i < |bs| ==> r[bs[i]] == d[g.start + 1 + i])
    && (forall b :: 0 <= b < |d| && b !in bs && b != g.start ==> r[b] == d[b])
    && r[g.start] == PutHeader(d[g.start], [])
  }

  lemma RecoverMeaning(g: Geometry, d: Disk)
    requires WellFormed(g, d)
    ensures IsRecovered(g, d, Recover(g, d))
    ensures WellFormed(g, Recover(g, d)) && HeaderBlocks(Recover(g, d)[g.start]) == []
  {
    var bs := HeaderBlocks(d[g.start]);
    var n := |bs|;
    var r := Recover(g, d);
    HeaderRoundTrip(d[g.start], []);
    InstalledKeepsLog(g, d, bs, n);
    forall i | 0 <= i < n ensures r[bs[i]] == d[g.start + 1 + i] {
      assert IsHome(g, bs[i]);
      InstalledAt(g, d, bs, n, i);
    }
    forall b | 0 <= b < |d| && b !in bs && b != g.start ensures r[b] == d[b] {
      assert bs[..n] == bs;
      InstalledOutside(g, d, bs, n, b);
    }
  }

  lemma RecoveredUnique(g: Geometry, d: Disk, r: Disk, s: Disk)
    requires WellFormed(g, d) && IsRecovered(g, d, r) && IsRecovered(g, d, s)
    ensures r == s
  {
    var bs := HeaderBlocks(d[g.start]);
    forall b | 0 <= b < |d| ensures r[b] == s[b] {
      if b in bs { var i :| 0 <= i < |bs| && bs[i] == b; }
    }
  }

  // ---------- crashes during recovery ----------

  /** A crash after any number of recovery's writes changes nothing about where
      the next recovery ends up: the whole disk, log area included, is the same. */
  lemma RecoveryIsRestartable(g: Geometry, d: Disk, k: nat)
    requires WellFormed(g, d)
    requires k <= |HeaderBlocks(d[g.start])| + 1
    ensures WellFormed(g, RecoverState(g, d, k))
    ensures Recover(g, RecoverState(g, d, k)) == Recover(g, d)
  {
    var bs := HeaderBlocks(d[g.start]);
    var n := |bs|;
    var c := RecoverState(g, d, k);
    RecoverMeaning(g, d);
    if k <= n {
      InstalledKeepsLog(g, d, bs, k);
      assert c[g.start] == d[g.start];
      RecoverMeaning(g, c);
      forall b | 0 <= b < |d| && b !in bs && b != g.start ensures Recover(g, c)[b] == d[b] {
        forall i | 0 <= i < k ensures bs[..k][i] != b { assert bs[i] in bs; }
        InstalledOutside(g, d, bs, k, b);
      }
      RecoveredUnique(g, d, Recover(g, c), Recover(g, d));
    } else {
      RecoverMeaning(g, c);
      assert PutHeader(c[g.start], []) == c[g.start];
      forall b | 0 <= b < |d| ensures Recover(g, c)[b] == c[b] {}
      assert Recover(g, c) == c;
    }
  }

  /** The disk after a series of recoveries, each cut short after the given number
      of writes (a number past the last write means that one ran to its end). */
  function AfterCuts(g: Geometry, d: Disk, cuts: seq<nat>): (r: Disk)
    requires WellFormed(g, d)
    ensures WellFormed(g, r)
    decreases |cuts|
  {
    if cuts == [] then d
    else
      var last := |HeaderBlocks(d[g.start])| + 1;
      var k := if cuts[0] <= last then cuts[0] else last;
      RecoveryIsRestartable(g, d, k);
      AfterCuts(g, RecoverState(g, d, k), cuts[1..])
  }

  lemma {:induction false} InterruptedRecoveries(g: Geometry, d: Disk, cuts: seq<nat>)
    requires WellFormed(g, d)
    ensures Recover(g, AfterCuts(g, d, cuts)) == Recover(g, d)
    decreases |cuts|
  {
    if cuts != [] {
      var last := |HeaderBlocks(d[g.start])| + 1;
      var k := if cuts[0] <= last then cuts[0] else last;
      RecoveryIsRestartable(g, d, k);
      InterruptedRecoveries(g, RecoverState(g, d, k), cuts[1..]);
    }
  }

  // ---------- crashes during commit ----------

  ghost predicate SameHome(g: Geometry, d: Disk, e: Disk) {
    && |d| == |e| == g.blocks
    && forall b :: IsHome(g, b) ==> d[b] == e[b]
  }

  /** e's home blocks are d's with the whole group of updates bs[i] -> cs[i] applied. */
  ghost predicate GroupApplied(g: Geometry, d: Disk, bs: seq<int>, cs: seq<Block>, e: Disk)
    requires |bs| == |cs|
  {
    && |d| == |e| == g.blocks
    && (forall i :: 0 <= i < |bs| && IsHome(g, bs[i]) ==> e[bs[i]] == cs[i])
    && forall b :: IsHome(g, b) && b !in bs ==> e[b] == d[b]
  }

  lemma CrashBeforeHeader(g: Geometry, d: Disk, bs: seq<int>, cs: seq<Block>, k: nat)
    requires WellFormed(g, d) && HeaderBlocks(d[g.start]) == []
    requires Loggable(g, bs) && |bs| == |cs| && k <= |bs|
    ensures WellFormed(g, CommitState(g, d, bs, cs, k))
    ensures SameHome(g, d, Recover(g, CommitState(g, d, bs, cs, k)))
  {
    var c := CommitState(g, d, bs, cs, k);
    forall b | 0 <= b < |d| ensures c[b] == if g.start < b <= g.start + k then cs[b - g.start - 1] else d[b] {
      CopiedAt(g, d, cs, k, b);
    }
    RecoverMeaning(g, c);
  }

  /** What the disk holds once the header has been written: the group is in the log. */
  lemma CommittedLog(g: Geometry, d: Disk, bs: seq<int>, cs: seq<Block>)
    requires WellFormed(g, d) && Loggable(g, bs) && |bs| == |cs|
    ensures var c := CommitState(g, d, bs, cs, |bs| + 1);
      && WellFormed(g, c) && HeaderBlocks(c[g.start]) == bs
      && (forall i :: 0 <= i < |bs| ==> c[g.start + 1 + i] == cs[i])
      && SameHome(g, d, c)
  {
    var n := |bs|;
    var m := Copied(g, d, cs, n);
    HeaderRoundTrip(m[g.start], bs);
    forall b | 0 <= b < |d| ensures m[b] == if g.start < b <= g.start + n then cs[b - g.start - 1] else d[b] {
      CopiedAt(g, d, cs, n, b);
    }
  }

  /** From the header write on, commit() goes through exactly the states that
      recovery of the committed log would go through. */
  lemma CommitIsRecovery(g: Geometry, d: Disk, bs: seq<int>, cs: seq<Block>, k: nat)
    requires WellFormed(g, d) && Loggable(g, bs) && |bs| == |cs|
    requires |bs| < k <= 2 * |bs| + 2
    ensures var c := CommitState(g, d, bs, cs, |bs| + 1);
      WellFormed(g, c) && HeaderBlocks(c[g.start]) == bs &&
      CommitState(g, d, bs, cs, k) == RecoverState(g, c, k - |bs| - 1)
  {
    CommittedLog(g, d, bs, cs);
  }

  /** Crash atomicity of one commit: whichever write the crash follows, and however
      often the recoveries after it are themselves cut short, a recovery that runs
      to its end leaves the home blocks as they were before the whole group when the
      header write had not happened yet, and with the whole group applied when it had. */
  lemma CrashAtomicity(g: Geometry, d: Disk, bs: seq<int>, cs: seq<Block>, k: nat, cuts: seq<nat>)
    requires WellFormed(g, d) && HeaderBlocks(d[g.start]) == []
    requires Loggable(g, bs) && |bs| == |cs| && k <= 2 * |bs| + 2
    ensures WellFormed(g, CommitState(g, d, bs, cs, k))
    ensures var r := Recover(g, AfterCuts(g, CommitState(g, d, bs, cs, k), cuts));
      if k <= |bs| then SameHome(g, d, r) else GroupApplied(g, d, bs, cs, r)
  {
    hide Recover, RecoverState, AfterCuts, CommitState, Loggable, SameHome;
    var c := CommitState(g, d, bs, cs, k);
    if k <= |bs| {
      CrashBeforeHeader(g, d, bs, cs, k);
      InterruptedRecoveries(g, c, cuts);
    } else {
      CommitIsRecovery(g, d, bs, cs, k);
      CommittedLog(g, d, bs, cs);
      var h := CommitState(g, d, bs, cs, |bs| + 1);
      RecoveryIsRestartable(g, h, k - |bs| - 1);
      InterruptedRecoveries(g, c, cuts);
      RecoverMeaning(g, h);
    }
  }

  /** An uninterrupted commit applies the group and leaves an empty log. */
  lemma CommitCompletes(g: Geometry, d: Disk, bs: seq<int>, cs: seq<Block>)
    requires WellFormed(g, d) && Loggable(g, bs) && |bs| == |cs|
    ensures var r := CommitState(g, d, bs, cs, 2 * |bs| + 2);
      WellFormed(g, r) && HeaderBlocks(r[g.start]) == [] && GroupApplied(g, d, bs, cs, r)
  {
    CommittedLog(g, d, bs, cs);
    CommitIsRecovery(g, d, bs, cs, 2 * |bs| + 2);
    RecoverMeaning(g, CommitState(g, d, bs, cs, |bs| + 1));
  }
}
