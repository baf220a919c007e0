/** kernel/fs.c and the write loop of kernel/file.c as code over FsModel. Buffers are
    read and written through the cache, so a method sees the current block contents;
    logged collects the block numbers passed to log_write since the operation began. */
module FsCode {
  import opened Options
  import opened Params
  import opened FsModel

  const BPB := BSIZE * 8
  const IPB := 16  // BSIZE / sizeof(struct dinode)

  /** The part of the file that one block contributes to a read. */
  lemma ReadPart(s: Fs, i: nat, o: nat, m: nat)
    requires Valid(s) && i < |s.inodes| && o + m <= s.inodes[i].size && o % BSIZE + m <= BSIZE
    requires Mapped(s, i, o / BSIZE) && o / BSIZE < MAXFILE
    ensures BlockAt(s, i, o / BSIZE)[o % BSIZE..o % BSIZE + m] == Contents(s, i)[o..o + m]
  {
    var x, y := BlockAt(s, i, o / BSIZE)[o % BSIZE..o % BSIZE + m], Contents(s, i)[o..o + m];
    forall q | 0 <= q < m ensures x[q] == y[q] {
      assert (o + q) / BSIZE == o / BSIZE && (o + q) % BSIZE == o % BSIZE + q;
    }
  }

  /** How many blocks the bytes [off, off + n) lie in. */
  function Touched(off: nat, n: nat): nat {
    if n == 0 then 0 else (off + n - 1) / BSIZE - off / BSIZE + 1
  }

  lemma WriteStart(s: Fs, i: nat, off: nat, src: seq<Byte>)
    requires Valid(s) && i < |s.inodes| && off <= s.inodes[i].size
    ensures Written(s, s, i, off, src, 0) && Inv(s, {})
  {
    forall bn: nat | bn < MAXFILE && off < (bn + 1) * BSIZE && bn * BSIZE < off ensures Mapped(s, i, bn) {
      assert bn * BSIZE < s.inodes[i].size;
    }
  }

  /** An unaligned write starts in a block that exists, because there are no holes. */
  lemma StartMapped(s: Fs, i: nat, off: nat)
    requires Valid(s) && i < |s.inodes| && off <= s.inodes[i].size && off % BSIZE != 0
    ensures Mapped(s, i, off / BSIZE)
  {
    assert off / BSIZE * BSIZE < s.inodes[i].size;
  }

  lemma UnionCard(x: set<nat>, y: set<nat>)
    ensures |x + y| <= |x| + |y|
  {
    assert x + y == x + (y - x);
    assert |y - x| <= |y| by { assert y == (y - x) + (y * x); }
  }

  lemma SubCard(x: set<nat>, y: set<nat>)
    requires x <= y
    ensures |x| <= |y|
  {
    assert y == x + (y - x);
  }

  /** The arithmetic behind filewrite's chunk size: three blocks of data cost at most
      MAXOPBLOCKS log entries at any offset and with any number of bitmap blocks. */
  lemma LogBound(was: set<nat>, now: set<nat>, d: set<nat>, b: set<nat>, rest: set<nat>, off: nat, n: nat)
    requires Budgeted(was, now, d, b, rest, off, n) && |rest| <= 3
    ensures n <= CHUNK ==> |now - was| <= MAXOPBLOCKS
  {
    assert now - was <= d + b + rest;
    SubCard(now - was, d + b + rest);
    UnionCard(d + b, rest);
    UnionCard(d, b);
  }

  /** The log entries of the first tot bytes of a write at off: data blocks d, bitmap
      blocks b, and rest. An unaligned start saves one bitmap block. */
  ghost predicate Budgeted(was: set<nat>, now: set<nat>, d: set<nat>, b: set<nat>, rest: set<nat>, off: nat, tot: nat) {
    && (forall x :: x in now ==> x in was || x in d || x in b || x in rest)
    && |d| <= Touched(off, tot)
    && |b| <= Touched(off, tot) - if off % BSIZE != 0 && tot > 0 then 1 else 0
  }

  lemma TouchedStep(off: nat, tot: nat, m: nat)
    requires 0 < m <= BSIZE - (off + tot) % BSIZE && (tot > 0 ==> (off + tot) % BSIZE == 0)
    ensures Touched(off, tot + m) == Touched(off, tot) + 1
  {
  }

  /** The bytes of one round of writei's loop: up to the end of the block or of the data. */
  function ChunkLen(off: nat, tot: nat, n: nat): (m: nat)
    requires tot < n
    ensures 0 < m <= BSIZE - (off + tot) % BSIZE && tot + m <= n
    ensures tot + m < n ==> (off + tot + m) % BSIZE == 0
  {
    if n - tot < BSIZE - (off + tot) % BSIZE then n - tot else BSIZE - (off + tot) % BSIZE
  }

  /** How many of n bytes at off writei takes when the caller can give the first good bytes:
      the rounds whose copies succeed. */
  function Whole(off: nat, n: nat, good: nat): (w: nat)
    ensures w <= n && w <= good
  {
    if good >= n then n
    else if (off + good) / BSIZE * BSIZE <= off then 0
    else (off + good) / BSIZE * BSIZE - off
  }

  /** The end of the round in which a copy fails, or of the last round. */
  function Tried(off: nat, n: nat, good: nat): (w: nat)
    ensures w <= n
  {
    var w := Whole(off, n, good);
    if w == n then n else w + ChunkLen(off, w, n)
  }

  /** How many bytes of the file change: a copy that fails has stored its first bytes in the
      buffer, and those below the old end of the file show. */
  function Cut(off: nat, n: nat, good: nat, size: nat): (c: nat)
    ensures c <= n && Whole(off, n, good) <= c && (c > Whole(off, n, good) ==> off + c <= size)
  {
    var w := Whole(off, n, good);
    if w < n && off + w < size then if off + good < size then good else size - off
    else w
  }

  /** The bytes stored that do not show lie behind the old end. */
  lemma CutFacts(off: nat, n: nat, good: nat, size: nat)
    requires good < n
    ensures var c := Cut(off, n, good, size); c <= good && (c < good ==> size <= off + c)
  {
  }

  lemma WholeAll(off: nat, n: nat, good: nat)
    requires n <= good
    ensures Whole(off, n, good) == n == Tried(off, n, good) && forall size: nat :: Cut(off, n, good, size) == n
  {
  }

  /** The copy of the round at tot fails. */
  lemma WholeIs(off: nat, n: nat, good: nat, tot: nat)
    requires tot < n && tot <= good < tot + ChunkLen(off, tot, n) && (tot > 0 ==> (off + tot) % BSIZE == 0)
    ensures Whole(off, n, good) == tot && Tried(off, n, good) == tot + ChunkLen(off, tot, n)
  {
    assert (off + good) / BSIZE == (off + tot) / BSIZE;
  }

  /** A round that begins ends no later than the last one tried. */
  lemma TriedPast(off: nat, n: nat, good: nat, tot: nat)
    requires tot < n && tot <= good && (tot > 0 ==> (off + tot) % BSIZE == 0)
    ensures tot < Tried(off, n, good)
  {
    if good < n {
      assert (off + tot) / BSIZE <= (off + good) / BSIZE;
      assert tot <= Whole(off, n, good);
    }
  }

  lemma BudgetStep(was: set<nat>, now: set<nat>, now': set<nat>, d: set<nat>, b: set<nat>, rest: set<nat>,
                   rest': set<nat>,
                   off: nat, tot: nat, m: nat, a: nat, bb: nat, extra: set<nat>)
    requires Budgeted(was, now, d, b, rest, off, tot) && rest <= rest' && extra <= rest'
    requires forall x :: x in now' ==> x in now || x == a || x == bb || x in extra
    requires 0 < m <= BSIZE - (off + tot) % BSIZE && (tot > 0 ==> (off + tot) % BSIZE == 0)
    requires tot == 0 && off % BSIZE != 0 ==> forall x :: x in now' ==> x in now || x == a
    ensures Budgeted(was, now', d + {a}, if tot == 0 && off % BSIZE != 0 then b else b + {bb}, rest', off, tot + m)
  {
    TouchedStep(off, tot, m);
    hide Touched;
    assert |d + {a}| <= |d| + 1 && |b + {bb}| <= |b| + 1;
  }

  lemma SlicePlus(s: seq<Byte>, a: nat, n: nat)
    requires a + n <= |s|
    ensures s[..a] + s[a..a + n] == s[..a + n]
  {
  }

  /** The blocks of several transactions. */
  ghost function Joined(ops: seq<set<nat>>): set<nat> {
    if ops == [] then {} else Joined(ops[..|ops| - 1]) + ops[|ops| - 1]
  }

  lemma JoinedNone(ops: seq<set<nat>>)
    ensures Joined(ops[|ops|..]) == {}
  {
  }

  lemma JoinedNext(ops: seq<set<nat>>, from: nat, x: set<nat>)
    requires from <= |ops|
    ensures Joined((ops + [x])[from..]) == Joined(ops[from..]) + x
  {
    var y := (ops + [x])[from..];
    assert y[..|y| - 1] == ops[from..];
  }

  /** filewrite's max. */
  const CHUNK := (MAXOPBLOCKS - 1 - 1 - 2) / 2 * BSIZE

  /** In how many pieces filewrite writes n bytes. */
  function Chunks(n: nat): nat { (n + CHUNK - 1) / CHUNK }

  /** How many of n bytes at off filewrite writes, if blocks do not run out: all, or as many
      whole pieces as the largest file has room for; none past the end of the file. */
  function Reach(size: nat, off: nat, n: nat): (m: nat)
    ensures m <= n
  {
    if off > size then 0
    else if off + n <= MAXFILE * BSIZE then n
    else if off > MAXFILE * BSIZE then 0
    else (MAXFILE * BSIZE - off) / CHUNK * CHUNK
  }

  /** Whole pieces in m bytes. */
  lemma WholePieces(m: nat, pos: nat)
    requires pos % CHUNK == 0 && pos <= m
    ensures pos <= m / CHUNK * CHUNK <= m
    ensures pos + CHUNK > m ==> m / CHUNK * CHUNK == pos
    ensures pos + CHUNK <= m ==> pos + CHUNK <= m / CHUNK * CHUNK
  {
    assert CHUNK == 3072;
    var q, k := pos / 3072, m / 3072;
    assert pos == 3072 * q && m == 3072 * k + m % 3072;
  }

  lemma ChunksStep(pos: nat, n1: nat)
    requires pos % CHUNK == 0 && 0 < n1 <= CHUNK
    ensures Chunks(pos + n1) == Chunks(pos) + 1
  {
  }

  lemma ReachMore(size: nat, off: nat, n: nat, pos: nat, n1: nat)
    requires pos < n && pos % CHUNK == 0 && n1 == if n - pos > CHUNK then CHUNK else n - pos
    requires pos > 0 ==> off <= size && off + pos <= MAXFILE * BSIZE
    ensures if off <= size && off + pos + n1 <= MAXFILE * BSIZE then pos + n1 <= Reach(size, off, n)
            else pos == Reach(size, off, n) < n
    ensures Chunks(pos + n1) == Chunks(pos) + 1
  {
    ChunksStep(pos, n1);
    hide Chunks;
    if off + pos <= MAXFILE * BSIZE { WholePieces(MAXFILE * BSIZE - off, pos); }
  }

  lemma ReachAll(size: nat, off: nat, n: nat)
    requires n > 0 ==> off <= size && off + n <= MAXFILE * BSIZE
    ensures Reach(size, off, n) == n
  {
  }

  lemma ValidShape(s: Fs)
    requires Valid(s)
    ensures Shape(s)
  {
  }

  /** filewrite has written part at off; from an offset past the end it writes nothing. */
  ghost predicate Advanced(s0: Fs, s: Fs, i: nat, off: nat, part: seq<Byte>) {
    && Valid(s0) && i < |s0.inodes|
    && if off <= s0.inodes[i].size then FileWritten(s0, s, i, off, part) else s == s0 && part == []
  }

  lemma AdvancedNone(s: Fs, i: nat, off: nat)
    requires Valid(s) && i < |s.inodes|
    ensures Advanced(s, s, i, off, [])
  {
    if off <= s.inodes[i].size { WrittenNone(s, i, off); }
  }

  lemma AdvancedFacts(s0: Fs, s: Fs, i: nat, off: nat, part: seq<Byte>)
    requires Advanced(s0, s, i, off, part)
    ensures Valid(s) && i < |s.inodes| && (off <= s0.inodes[i].size <==> off + |part| <= s.inodes[i].size)
  {
    if off <= s0.inodes[i].size { WrittenSize(s0, s, i, off, part); }
  }

  lemma AdvancedMore(s0: Fs, s: Fs, s': Fs, i: nat, off: nat, src: seq<Byte>, pos: nat, n: nat)
    requires pos + n <= |src| && Advanced(s0, s, i, off, src[..pos])
    requires i < |s.inodes| && off + pos <= s.inodes[i].size && Valid(s)
    requires FileWritten(s, s', i, off + pos, src[pos..pos + n])
    ensures Advanced(s0, s', i, off, src[..pos + n])
  {
    AdvancedFacts(s0, s, i, off, src[..pos]);
    hide FileWritten, Valid;
    WrittenTwice(s0, s, s', i, off, src[..pos], src[pos..pos + n]);
    SlicePlus(src, pos, n);
  }

  lemma SliceNext(s: seq<Byte>, a: nat, b: nat, c: nat)
    requires a <= b <= c <= |s|
    ensures s[a..b] + s[b..c] == s[a..c]
  {
  }

  lemma ValidSize(s: Fs, i: nat)
    requires Valid(s) && i < |s.inodes|
    ensures Shape(s) && s.inodes[i].size <= MAXFILE * BSIZE && |Contents(s, i)| == s.inodes[i].size
  {
  }

  lemma SliceSlice(s: seq<Byte>, a: nat, m: nat, q: nat)
    requires a + m <= |s| && q <= m
    ensures s[a..a + m][..q] == s[a..a + q]
  {
  }

  lemma NothingFreed(s: Fs, i: nat)
    requires Inv(s, {}) && i < |s.inodes| && s.inodes[i].addrs[NDIRECT] == 0
    ensures SlotsFreed(s, s, i, NDIRECT, SLOTS)
  {
  }

  lemma WrittenSizes(s0: Fs, s: Fs, i: nat, off: nat, src: seq<Byte>)
    requires Shape(s0) && Shape(s) && i < |s0.inodes| && Written(s0, s, i, off, src, |src|)
    ensures i < |s.inodes| && s.inodes[i].size == s0.inodes[i].size
  {
  }

  lemma SameMapped(s: Fs, s': Fs, i: nat)
    requires Shape(s) && Shape(s') && s'.inodes == s.inodes && i < |s.inodes|
    requires forall k, j :: IsSlot(s', k, j) ==> Ref(s', k, j) == Ref(s, k, j)
    ensures forall c: nat :: Mapped(s', i, c) <==> Mapped(s, i, c)
  {
    forall c: nat ensures Mapped(s', i, c) <==> Mapped(s, i, c) {
      if c < MAXFILE { assert IsSlot(s', i, DataSlot(c)); }
    }
  }

  /** The other files have the blocks they had. */
  ghost predicate OthersSame(s: Fs, s': Fs, i: nat) {
    forall k: nat, c: nat :: k != i ==> (Mapped(s', k, c) <==> Mapped(s, k, c))
  }

  /** From s via a new block in s1 to s', which fills slot j of inode i. */
  lemma OthersMapped(s0: Fs, s1: Fs, s: Fs, i: nat, j: nat, b: nat)
    requires Fresh(s0, s1, b) && Shape(s) && SameSlots(s1, s, i, j)
    ensures OthersSame(s0, s, i)
  {
    forall k: nat, c: nat | k != i ensures Mapped(s, k, c) <==> Mapped(s0, k, c) {
      if k < |s.inodes| && c < MAXFILE { assert IsSlot(s, k, DataSlot(c)) && IsSlot(s1, k, DataSlot(c)); }
    }
  }

  /** From s0 to s1 the zeroed block b was allocated and not linked yet. */
  ghost predicate Fresh(s0: Fs, s1: Fs, b: nat) {
    && Shape(s0) && Inv(s1, {b}) && Extends(s0, s1) && s1.inodes == s0.inodes && b < |s1.data|
    && s1.data[b] == ZeroBlock()
    && (forall i, j :: IsSlot(s1, i, j) ==> Ref(s1, i, j) == Ref(s0, i, j))
    && FreeCount(s1.used) == FreeCount(s0.used) - 1
  }

  /** A new block b as direct address bn. */
  lemma DirectLinked(s0: Fs, s1: Fs, i: nat, bn: nat, b: nat)
    requires Fresh(s0, s1, b) && i < |s0.inodes| && bn < NDIRECT && s0.inodes[i].addrs[bn] == 0
    ensures var s := SetAddr(s1, i, bn, b);
      && Inv(s, {}) && Extends(s0, s) && MapsOne(s0, s, i, bn) && Ref(s, i, bn) == b && b != 0
      && BlockAt(s, i, bn) == ZeroBlock() && OthersSame(s0, s, i)
  {
    var s := SetAddr(s1, i, bn, b);
    assert IsSlot(s1, i, bn);
    LinkDirect(s1, {b}, i, bn, b);
    LinkExtends(s1, s, {b}, i, bn, 0);
    ExtendsTrans(s0, s1, s);
    SlotMapped(s1, s, i, bn);
    SameMapped(s0, s1, i);
    OthersMapped(s0, s1, s, i, bn, b);
    assert {b} - {b} == {};
  }

  /** A new block b as indirect block. */
  lemma IndirectLinked(s0: Fs, s1: Fs, i: nat, b: nat)
    requires Fresh(s0, s1, b) && i < |s0.inodes| && s0.inodes[i].addrs[NDIRECT] == 0
    ensures var s := SetAddr(s1, i, NDIRECT, b);
      && Inv(s, {}) && Extends(s0, s) && 0 < b < |s.data|
      && OthersSame(s0, s, i) && forall c: nat :: Mapped(s, i, c) <==> Mapped(s0, i, c)
  {
    var s := SetAddr(s1, i, NDIRECT, b);
    assert IsSlot(s1, i, NDIRECT);
    LinkIndirect(s1, {b}, i, b);
    LinkExtends(s1, s, {b}, i, NDIRECT, 0);
    ExtendsTrans(s0, s1, s);
    IndirectMapped(s1, s, i);
    SameMapped(s0, s1, i);
    OthersMapped(s0, s1, s, i, NDIRECT, b);
    assert {b} - {b} == {};
  }

  lemma EntryFacts(s: Fs, i: nat, k: nat)
    requires Inv(s, {}) && i < |s.inodes| && k < NINDIRECT && 0 < s.inodes[i].addrs[NDIRECT] < |s.data|
    ensures Shape(s) && Extends(s, s)
    ensures IsSlot(s, i, NDIRECT) && Ref(s, i, NDIRECT) == s.inodes[i].addrs[NDIRECT]
    ensures Ref(s, i, NDIRECT + 1 + k) == GetWord(s.data[s.inodes[i].addrs[NDIRECT]], k)
    ensures Need(s, i, NDIRECT + k) == if Ref(s, i, NDIRECT + 1 + k) == 0 then 1 else 0
    ensures Ref(s, i, NDIRECT + 1 + k) != 0 ==> MapsOne(s, s, i, NDIRECT + k)
  {
  }

  /** A new block b in entry k of the indirect block. */
  lemma EntryLinked(s0: Fs, s1: Fs, i: nat, k: nat, b: nat)
    requires Fresh(s0, s1, b) && i < |s0.inodes| && k < NINDIRECT && s0.inodes[i].addrs[NDIRECT] != 0
    requires Ref(s0, i, NDIRECT + 1 + k) == 0
    ensures 0 < s1.inodes[i].addrs[NDIRECT] < |s1.data| && b < UINT_RANGE
    ensures var a := s1.inodes[i].addrs[NDIRECT];
      var s := SetData(s1, a, PutWord(s1.data[a], k, b));
      && Inv(s, {}) && Extends(s0, s) && MapsOne(s0, s, i, NDIRECT + k) && Ref(s, i, NDIRECT + 1 + k) == b
      && Need(s0, i, NDIRECT + k) == 1 && BlockAt(s, i, NDIRECT + k) == ZeroBlock() && OthersSame(s0, s, i)
  {
    var a := s1.inodes[i].addrs[NDIRECT];
    assert IsSlot(s1, i, NDIRECT + 1 + k) && IsSlot(s1, i, NDIRECT);
    LinkEntry(s1, {b}, i, k, b);
    var s := SetData(s1, a, PutWord(s1.data[a], k, b));
    LinkExtends(s1, s, {b}, i, NDIRECT + 1 + k, a);
    ExtendsTrans(s0, s1, s);
    SlotMapped(s1, s, i, NDIRECT + k);
    SameMapped(s0, s1, i);
    OthersMapped(s0, s1, s, i, NDIRECT + 1 + k, b);
    assert {b} - {b} == {};
    assert b != 0;
  }

  lemma PatchMaps(s: Fs, s1: Fs, i: nat, bn: nat, blk: Block)
    requires Shape(s) && Inv(s1, {}) && i < |s.inodes| && i < |s1.inodes| && MapsOne(s, s1, i, bn)
    ensures var a := Ref(s1, i, DataSlot(bn));
      a < |s1.data| && Shape(SetData(s1, a, blk)) && MapsOne(s, SetData(s1, a, blk), i, bn)
  {
    assert IsSlot(s1, i, DataSlot(bn));
    WriteKeeps(s1, {}, i, bn, blk);
    var s' := SetData(s1, Ref(s1, i, DataSlot(bn)), blk);
    forall k, j | IsSlot(s', k, j) ensures Ref(s', k, j) == Ref(s1, k, j) { assert IsSlot(s1, k, j); }
    SameMapped(s1, s', i);
  }

  lemma InvShape(s: Fs)
    requires Inv(s, {})
    ensures Shape(s)
  {
  }

  /** bmap and the copy of part into the block. */
  lemma ChunkDone(s: Fs, s1: Fs, i: nat, off: nat, part: seq<Byte>)
    requires Shape(s) && Inv(s1, {}) && Extends(s, s1) && i < |s.inodes| && i < |s1.inodes| && off / BSIZE < MAXFILE
    requires MapsOne(s, s1, i, off / BSIZE) && off % BSIZE + |part| <= BSIZE
    ensures |s1.inodes| == |s.inodes|
    ensures var a := Ref(s1, i, DataSlot(off / BSIZE));
      && 0 < a < |s1.data|
      && var s' := SetData(s1, a, Patch(s1.data[a], off % BSIZE, part));
        && Shape(s') && Inv(s', {}) && Chunked(s, s', i, off, part) && MapsOne(s, s', i, off / BSIZE)
        && Ref(s', i, DataSlot(off / BSIZE)) == a
  {
    ChunkedBy(s, s1, i, off, part);
    PatchMaps(s, s1, i, off / BSIZE, Patch(s1.data[Ref(s1, i, DataSlot(off / BSIZE))], off % BSIZE, part));
  }

  lemma IndirectMapped(s: Fs, s': Fs, i: nat)
    requires Shape(s) && Shape(s') && i < |s.inodes| && SameSlots(s, s', i, NDIRECT)
    ensures forall c: nat :: Mapped(s', i, c) <==> Mapped(s, i, c)
  {
    forall c: nat ensures Mapped(s', i, c) <==> Mapped(s, i, c) {
      if c < MAXFILE { assert IsSlot(s', i, DataSlot(c)); }
    }
  }

  /** The blocks under the n bytes at off have been mapped, and no others. */
  ghost predicate Covered(s0: Fs, s: Fs, i: nat, off: nat, n: nat) {
    MapsRange(s0, s, i, off / BSIZE, off / BSIZE + Touched(off, n))
  }

  /** Fewer blocks are free than a write of n bytes at off needs: one for every block touched
      that does not exist, and one for an indirect block that is missing. */
  ghost predicate Lacking(s: Fs, i: nat, off: nat, n: nat)
    requires Shape(s) && i < |s.inodes|
  {
    FreeCount(s.used) < Cost(s, i, off / BSIZE, off / BSIZE + Touched(off, n))
  }

  /** The block that the next byte goes to. */
  lemma NextBlock(off: nat, n: nat, tot: nat)
    requires tot < n && (tot > 0 ==> (off + tot) % BSIZE == 0)
    ensures (off + tot) / BSIZE == off / BSIZE + Touched(off, tot) && Touched(off, tot) < Touched(off, n)
    ensures Touched(off, tot + ChunkLen(off, tot, n)) == Touched(off, tot) + 1
  {
    TouchedStep(off, tot, ChunkLen(off, tot, n));
  }

  lemma CoveredStep(s0: Fs, s: Fs, s': Fs, i: nat, off: nat, n: nat, tot: nat)
    requires Covered(s0, s, i, off, tot) && tot < n && (tot > 0 ==> (off + tot) % BSIZE == 0)
    requires Shape(s) && i < |s.inodes| && Shape(s') && i < |s'.inodes| && MapsOne(s, s', i, (off + tot) / BSIZE)
    ensures Covered(s0, s', i, off, tot + ChunkLen(off, tot, n))
  {
    NextBlock(off, n, tot);
    hide Touched, ChunkLen, MapsRange, MapsOne;
    OneIsRange(s, s', i, (off + tot) / BSIZE);
    var lo, m := off / BSIZE, (off + tot) / BSIZE;
    RangeJoin(s0, s, s', i, lo, m, m, m + 1);
  }

  lemma OutOfBlocks(s0: Fs, s: Fs, i: nat, off: nat, n: nat, tot: nat)
    requires Covered(s0, s, i, off, tot) && tot < n && (tot > 0 ==> (off + tot) % BSIZE == 0)
    requires Shape(s) && i < |s.inodes| && FreeCount(s.used) < Need(s, i, (off + tot) / BSIZE)
    ensures Shape(s0) && i < |s0.inodes| && Lacking(s0, i, off, n)
  {
    NextBlock(off, n, tot);
    hide Touched, ChunkLen, Mapped, Shape;
    var lo, m := off / BSIZE, (off + tot) / BSIZE;
    assert Unmapped(s, i, m + 1, m + 1) == 0;
    assert Cost(s, i, m, m + 1) == Need(s, i, m);
    CostJoin(s0, s, i, lo, m, m, m + 1);
    CostMono(s0, i, lo, m + 1, lo + Touched(off, n));
  }

  lemma CoveredNone(s: Fs, i: nat, off: nat)
    requires Shape(s) && i < |s.inodes|
    ensures Covered(s, s, i, off, 0)
  {
    EmptyRange(s, i, off / BSIZE);
  }

  lemma CoveredFacts(s0: Fs, s: Fs, i: nat, off: nat, n: nat)
    requires Covered(s0, s, i, off, n)
    ensures Shape(s0) && i < |s0.inodes| && !Lacking(s0, i, off, n)
  {
  }

  /** The size alone changes no block. */
  lemma CoveredSize(s0: Fs, s: Fs, i: nat, off: nat, n: nat, size: nat)
    requires Covered(s0, s, i, off, n) && Inv(s, {})
    ensures Covered(s0, s.(inodes := s.inodes[i := s.inodes[i].(size := size)]), i, off, n)
  {
    SizeOnly(s, i, size);
    hide Mapped, Touched, Cost;
  }

  /** How consecutive pieces of a write share blocks: the second starts in the last block of
      the first, or right behind it. */
  lemma TouchedTwice(off: nat, pos: nat, n: nat)
    ensures off / BSIZE <= (off + pos) / BSIZE <= off / BSIZE + Touched(off, pos)
    ensures off / BSIZE + Touched(off, pos) <= off / BSIZE + Touched(off, pos + n)
    ensures n > 0 ==> (off + pos) / BSIZE + Touched(off + pos, n) == off / BSIZE + Touched(off, pos + n)
  {
  }

  lemma CoveredTwice(s0: Fs, s: Fs, s': Fs, i: nat, off: nat, pos: nat, n: nat)
    requires Covered(s0, s, i, off, pos) && Covered(s, s', i, off + pos, n) && n > 0
    ensures Covered(s0, s', i, off, pos + n)
  {
    TouchedTwice(off, pos, n);
    hide Touched, MapsRange;
    RangeJoin(s0, s, s', i, off / BSIZE, (off + pos) / BSIZE, off / BSIZE + Touched(off, pos),
              off / BSIZE + Touched(off, pos + n));
  }

  /** Too few blocks for a later piece are too few for the whole. */
  lemma LackingLater(s0: Fs, s: Fs, i: nat, off: nat, pos: nat, n: nat, total: nat)
    requires Covered(s0, s, i, off, pos) && n > 0 && pos + n <= total
    requires Shape(s) && i < |s.inodes| && Lacking(s, i, off + pos, n)
    ensures Shape(s0) && i < |s0.inodes| && Lacking(s0, i, off, total)
  {
    TouchedTwice(off, pos, n);
    TouchedTwice(off, pos + n, total - pos - n);
    hide Touched, Mapped, Shape;
    var lo, m, hi := off / BSIZE, off / BSIZE + Touched(off, pos), off / BSIZE + Touched(off, pos + n);
    CostJoin(s0, s, i, lo, (off + pos) / BSIZE, m, hi);
    CostMono(s0, i, lo, hi, off / BSIZE + Touched(off, total));
    hide Cost;
  }

  // ---------- bitmap and inodes on the disk ----------

  /** Byte o of the blocks from start on. */
  ghost function RegionByte(d: seq<Block>, start: nat, o: nat): nat
    requires start + o / BSIZE < |d|
  {
    d[start + o / BSIZE][o % BSIZE]
  }

  /** Bit k of a byte, the lowest first. */
  ghost predicate BitOf(x: nat, k: nat) {
    if k == 0 then x % 2 == 1 else BitOf(x / 2, k - 1)
  }

  /** Bit b of the bitmap: bit b % 8 of byte b / 8. */
  ghost predicate BitOnDisk(d: seq<Block>, start: nat, b: nat, set_: bool) {
    start + b / 8 / BSIZE < |d| && (BitOf(RegionByte(d, start, b / 8), b % 8) <==> set_)
  }

  /** Number j of inode i, in a table of 64 bytes for each. */
  ghost predicate WordOnDisk(d: seq<Block>, start: nat, i: nat, j: nat, v: nat) {
    && start + (64 * i + 4 * j + 3) / BSIZE < |d|
    && v == RegionByte(d, start, 64 * i + 4 * j) + 256 * RegionByte(d, start, 64 * i + 4 * j + 1)
            + 65536 * RegionByte(d, start, 64 * i + 4 * j + 2) + 16777216 * RegionByte(d, start, 64 * i + 4 * j + 3)
  }

  /** struct dinode: after four shorts the size and the addresses. */
  ghost predicate InodeOnDisk(d: seq<Block>, start: nat, i: nat, ip: Inode)
    requires |ip.addrs| == NDIRECT + 1
  {
    WordOnDisk(d, start, i, 2, ip.size) && forall j :: 0 <= j <= NDIRECT ==> WordOnDisk(d, start, i, 3 + j, ip.addrs[j])
  }

  /** Block n of d' is that of d. */
  ghost predicate SameBlock(d: seq<Block>, d': seq<Block>, n: nat) {
    |d'| == |d| && (n < |d| ==> d'[n] == d[n])
  }

  lemma BitBlock(d: seq<Block>, d': seq<Block>, start: nat, b: nat, set_: bool)
    requires BitOnDisk(d, start, b, set_) && SameBlock(d, d', b / BPB + start)
    ensures BitOnDisk(d', start, b, set_)
  {
    assert b / 8 / BSIZE == b / BPB;
  }

  lemma WordBlock(d: seq<Block>, d': seq<Block>, start: nat, i: nat, j: nat, v: nat)
    requires WordOnDisk(d, start, i, j, v) && j < 16 && SameBlock(d, d', i / IPB + start)
    ensures WordOnDisk(d', start, i, j, v)
  {
    forall o | 64 * i + 4 * j <= o < 64 * i + 4 * j + 4 ensures o / BSIZE == i / IPB { InodeByte(i, j, o); }
  }

  lemma InodeByte(i: nat, j: nat, o: nat)
    requires j < 16 && 64 * i + 4 * j <= o < 64 * i + 4 * j + 4
    ensures o / BSIZE == i / IPB
  {
    var q, m := i / 16, i % 16;
    assert i == 16 * q + m && 1024 * q <= o < 1024 * q + 1024;
  }

  lemma InodeBlock(d: seq<Block>, d': seq<Block>, start: nat, i: nat, ip: Inode)
    requires |ip.addrs| == NDIRECT + 1 && InodeOnDisk(d, start, i, ip) && SameBlock(d, d', i / IPB + start)
    ensures InodeOnDisk(d', start, i, ip)
  {
    hide WordOnDisk;
    WordBlock(d, d', start, i, 2, ip.size);
    forall j | 0 <= j <= NDIRECT ensures WordOnDisk(d', start, i, 3 + j, ip.addrs[j]) {
      WordBlock(d, d', start, i, 3 + j, ip.addrs[j]);
    }
  }

  class FileSystem {
    const meta: nat
    const bmapstart: nat
    const inodestart: nat
    var used: seq<bool>
    var data: seq<Block>
    var inodes: seq<Inode>
    ghost var logged: set<nat>
    ghost var ops: seq<set<nat>>  // what each finished transaction of filewrite logged

    function S(): Fs
      reads this
    {
      Fs(meta, used, data, inodes)
    }

    /** The file system on a disk, with the places that its superblock names. */
    constructor (s: Fs, bmapstart: nat, inodestart: nat)
      ensures S() == s && this.bmapstart == bmapstart && this.inodestart == inodestart && logged == {} && ops == []
    {
      meta, used, data, inodes := s.meta, s.used, s.data, s.inodes;
      this.bmapstart, this.inodestart := bmapstart, inodestart;
      logged, ops := {}, [];
    }

    function BBlock(b: nat): nat { b / BPB + bmapstart }
    function IBlock(i: nat): nat { i / IPB + inodestart }

    /** Whatever changed from s to s' is in the log: data blocks, bitmap blocks, and no inode but
        i. Blocks in but are excepted. */
    ghost predicate AllLogged(s: Fs, s': Fs, was: set<nat>, now: set<nat>, i: nat, but: set<nat>) {
      && was <= now && |s'.data| == |s.data| && |s'.used| == |s.used| && |s'.inodes| == |s.inodes|
      && (forall b :: 0 <= b < |s.data| && s'.data[b] != s.data[b] ==> b in now || b in but)
      && (forall b :: 0 <= b < |s.used| && s'.used[b] != s.used[b] ==> BBlock(b) in now)
      && (forall k :: 0 <= k < |s.inodes| && k != i ==> s'.inodes[k] == s.inodes[k])
    }

    /** The disk d holds s: data blocks as they are, bitmap and inodes in their regions. */
    ghost predicate OnDisk(d: seq<Block>, s: Fs) {
      && Shape(s) && |d| == |s.data|
      && (forall b :: s.meta <= b < |d| ==> d[b] == s.data[b])
      && (forall b: nat {:trigger s.used[b]} :: b < |s.used| ==> BitOnDisk(d, bmapstart, b, s.used[b]))
      && (forall k: nat {:trigger s.inodes[k]} :: k < |s.inodes| ==> InodeOnDisk(d, inodestart, k, s.inodes[k]))
    }

    /** What is logged is enough: when the blocks in the log are written from the cache c, which
        holds the new state, to the disk d, which holds the old one, the disk holds the new
        state. */
    lemma LogSuffices(d: seq<Block>, c: seq<Block>, d': seq<Block>, s: Fs, s': Fs, was: set<nat>, now: set<nat>, i: nat)
      requires OnDisk(d, s) && OnDisk(c, s') && s'.meta == s.meta && AllLogged(s, s', was, now, i, {})
      requires i < |s.inodes| && (IBlock(i) in now || s'.inodes[i] == s.inodes[i])
      requires |d'| == |d| && forall b: nat :: b < |d| ==> d'[b] == if b in now then c[b] else d[b]
      ensures OnDisk(d', s')
    {
      hide BitOnDisk, InodeOnDisk;
      forall b: nat | b < |s'.used| ensures BitOnDisk(d', bmapstart, b, s'.used[b]) {
        if BBlock(b) in now {
          BitBlock(c, d', bmapstart, b, s'.used[b]);
        } else {
          BitBlock(d, d', bmapstart, b, s.used[b]);
        }
      }
      forall k: nat | k < |s'.inodes| ensures InodeOnDisk(d', inodestart, k, s'.inodes[k]) {
        if IBlock(k) in now {
          InodeBlock(c, d', inodestart, k, s'.inodes[k]);
        } else {
          InodeBlock(d, d', inodestart, k, s.inodes[k]);
        }
      }
    }

    lemma LoggedTwice(s: Fs, s': Fs, s'': Fs, was: set<nat>, mid: set<nat>, now: set<nat>, i: nat, but: set<nat>)
      requires AllLogged(s, s', was, mid, i, {}) && AllLogged(s', s'', mid, now, i, but)
      ensures AllLogged(s, s'', was, now, i, but)
    {
    }

    lemma LoggedMore(s: Fs, s': Fs, s'': Fs, mid: set<nat>, now: set<nat>, i: nat)
      requires AllLogged(s, s', {}, mid, i, {}) && AllLogged(s', s'', {}, now, i, {})
      ensures AllLogged(s, s'', {}, mid + now, i, {})
    {
    }

    lemma LoggedBit(s: Fs, s': Fs, was: set<nat>, now: set<nat>, i: nat, b: nat)
      requires AllLogged(s, s', was, now, i, {}) && b < |s'.used|
      ensures AllLogged(s, s'.(used := s'.used[b := false]), was, now + {BBlock(b)}, i, {})
    {
    }

    lemma LoggedNone(s: Fs, was: set<nat>, i: nat)
      ensures AllLogged(s, s, was, was, i, {})
    {
    }

    lemma LoggedInode(s: Fs, s': Fs, was: set<nat>, now: set<nat>, i: nat, but: set<nat>, ip: Inode)
      requires AllLogged(s, s', was, now, i, but) && i < |s'.inodes|
      ensures AllLogged(s, s'.(inodes := s'.inodes[i := ip]), was, now, i, but)
    {
    }

    lemma LoggedData(s: Fs, s': Fs, was: set<nat>, now: set<nat>, i: nat, a: nat, blk: Block)
      requires AllLogged(s, s', was, now, i, {}) && a < |s'.data|
      ensures AllLogged(s, SetData(s', a, blk), was, now + {a}, i, {})
      ensures AllLogged(s, SetData(s', a, blk), was, now, i, {a})
    {
    }

    /** None is the panic "balloc: out of blocks". */
    method Balloc() returns (r: Option<nat>)
      requires |used| == |data|
      modifies this`used, this`data, this`logged
      ensures r == None <==> Full(old(used))
      ensures r == None ==> used == old(used) && data == old(data) && logged == old(logged)
      ensures r.Some? ==> r.value < |old(used)| && !old(used)[r.value] && forall x :: 0 <= x < r.value ==> old(used)[x]
      ensures r.Some? ==> S() == AllocBlock(old(S()), r.value)
      ensures r.Some? ==> logged == old(logged) + {BBlock(r.value), r.value}
    {
      var b := 0;
      while b < |used|
        invariant 0 <= b && b % BPB == 0 && used == old(used) && data == old(data) && logged == old(logged)
        invariant forall x :: 0 <= x < b && x < |used| ==> used[x]
        decreases |used| - b
      {
        var bi := 0;
        while bi < BPB && b + bi < |used|
          invariant 0 <= bi <= BPB && used == old(used) && data == old(data) && logged == old(logged)
          invariant forall x :: 0 <= x < b + bi && x < |used| ==> used[x]
        {
          if !used[b + bi] {
            used := used[b + bi := true];
            logged := logged + {BBlock(b)};
            assert (b + bi) / BPB == b / BPB;
            // bzero
            data := data[b + bi := ZeroBlock()];
            logged := logged + {b + bi};
            return Some(b + bi);
          }
          bi := bi + 1;
        }
        b := b + BPB;
      }
      return None;
    }

    /** False is the panic "freeing free block". */
    method Bfree(b: nat) returns (ok: bool)
      requires b < |used|
      modifies this`used, this`logged
      ensures ok == old(used)[b]
      ensures ok ==> used == old(used)[b := false] && logged == old(logged) + {BBlock(b)}
      ensures !ok ==> used == old(used) && logged == old(logged)
    {
      if !used[b] {
        return false;
      }
      used := used[b := false];
      logged := logged + {BBlock(b)};
      return true;
    }

    /** balloc inside an operation: a fresh block, not yet linked. */
    method BallocPending(ghost pending: set<nat>) returns (r: Option<nat>)
      requires Inv(S(), pending)
      modifies this`used, this`data, this`logged
      ensures r == None ==> Full(used) && S() == old(S()) && logged == old(logged)
      ensures r.Some? ==> meta <= r.value < |used| && r.value !in pending && Inv(S(), pending + {r.value})
      ensures r.Some? ==> Extends(old(S()), S()) && inodes == old(inodes)
      ensures r.Some? ==> r.value < |data| && data[r.value] == ZeroBlock()
      ensures r.Some? ==> forall i, j :: IsSlot(S(), i, j) ==> Ref(S(), i, j) == Ref(old(S()), i, j)
      ensures r.Some? ==> logged == old(logged) + {BBlock(r.value), r.value}
      ensures r == None <==> FreeCount(old(used)) == 0
      ensures r.Some? ==> FreeCount(used) == FreeCount(old(used)) - 1
      ensures r.Some? ==> forall i :: AllLogged(old(S()), S(), old(logged), logged, i, {})
    {
      ghost var s := S();
      FullCount(used);
      r := Balloc();
      if r.Some? {
        FreeUpdate(s.used, r.value);
        AllocKeeps(s, pending, r.value);
        AllocExtends(s, pending, r.value);
      }
    }

    /** The indirect block and its bitmap block, for blocks of a file that need them. */
    ghost function IndirectLogs(bn: nat, ind: nat): set<nat> {
      if bn < NDIRECT then {} else {ind, BBlock(ind)}
    }

    /** bmap; the caller keeps bn below MAXFILE. None is the panic in balloc. */
    method Bmap(i: nat, bn: nat) returns (r: Option<nat>)
      requires Inv(S(), {}) && i < |inodes| && bn < MAXFILE
      modifies this`used, this`data, this`inodes, this`logged
      ensures r == None <==> FreeCount(old(used)) < old(Need(S(), i, bn))
      ensures r == None ==> Full(used)
      ensures r.Some? ==> Inv(S(), {}) && Extends(old(S()), S()) && i < |inodes| && |inodes[i].addrs| == NDIRECT + 1
      ensures r.Some? ==> MapsOne(old(S()), S(), i, bn)
      ensures r.Some? ==> r.value != 0 && r.value == Ref(S(), i, DataSlot(bn))
      ensures old(Mapped(S(), i, bn)) ==> r.Some? && S() == old(S()) && logged == old(logged)
      ensures r.Some? ==> old(inodes[i].addrs[NDIRECT]) != 0 ==>
        inodes[i].addrs[NDIRECT] == old(inodes[i].addrs[NDIRECT])
      ensures r.Some? ==>
        logged <= old(logged) + {r.value, BBlock(r.value)} + IndirectLogs(bn, inodes[i].addrs[NDIRECT])
      ensures r.Some? ==> AllLogged(old(S()), S(), old(logged), logged, i, {})
    {
      hide AllLogged;
      if bn < NDIRECT {
        r := BmapDirect(i, bn);
      } else {
        r := BmapIndirect(i, bn - NDIRECT);
      }
    }

    method BmapDirect(i: nat, bn: nat) returns (r: Option<nat>)
      requires Inv(S(), {}) && i < |inodes| && bn < NDIRECT
      modifies this`used, this`data, this`inodes, this`logged
      ensures r == None <==> FreeCount(old(used)) < old(Need(S(), i, bn))
      ensures r == None ==> Full(used)
      ensures r.Some? ==> Inv(S(), {}) && Extends(old(S()), S()) && i < |inodes| && |inodes[i].addrs| == NDIRECT + 1
      ensures r.Some? ==> MapsOne(old(S()), S(), i, bn)
      ensures r.Some? ==> r.value != 0 && r.value == Ref(S(), i, bn)
      ensures old(inodes[i].addrs[bn]) != 0 ==> r.Some? && S() == old(S()) && logged == old(logged)
      ensures r.Some? ==> inodes[i].addrs[NDIRECT] == old(inodes[i].addrs[NDIRECT])
      ensures r.Some? ==> logged <= old(logged) + {r.value, BBlock(r.value)}
      ensures r.Some? ==> AllLogged(old(S()), S(), old(logged), logged, i, {})
    {
      hide AllLogged;
      var addr := inodes[i].addrs[bn];
      ghost var s0 := S();
      LoggedNone(s0, logged, i);
      if addr != 0 {
        return Some(addr);
      }
      r := BallocPending({});
      if r == None {
        return;
      }
      assert {} + {r.value} == {r.value};
      DirectLinked(s0, S(), i, bn, r.value);
      LoggedInode(s0, S(), old(logged), logged, i, {}, inodes[i].(addrs := inodes[i].addrs[bn := r.value]));
      inodes := inodes[i := inodes[i].(addrs := inodes[i].addrs[bn := r.value])];
    }

    /** The indirect block of inode i, allocated if necessary. */
    method BmapLoad(i: nat) returns (r: Option<nat>)
      requires Inv(S(), {}) && i < |inodes|
      modifies this`used, this`data, this`inodes, this`logged
      ensures r == None <==> old(inodes[i].addrs[NDIRECT]) == 0 && FreeCount(old(used)) == 0
      ensures r == None ==> Full(used)
      ensures r.Some? ==> Inv(S(), {}) && Extends(old(S()), S()) && i < |inodes| && |inodes[i].addrs| == NDIRECT + 1
      ensures r.Some? ==> FreeCount(used) == FreeCount(old(used)) - if old(inodes[i].addrs[NDIRECT]) == 0 then 1 else 0
      ensures r.Some? ==> forall c: nat :: Mapped(S(), i, c) <==> old(Mapped(S(), i, c))
      ensures r.Some? ==> 0 < r.value < |data| && r.value == inodes[i].addrs[NDIRECT]
      ensures old(inodes[i].addrs[NDIRECT]) != 0 ==>
        r.Some? && r.value == old(inodes[i].addrs[NDIRECT]) && S() == old(S()) && logged == old(logged)
      ensures r.Some? ==> logged <= old(logged) + {r.value, BBlock(r.value)}
      ensures r.Some? ==> AllLogged(old(S()), S(), old(logged), logged, i, {})
    {
      hide AllLogged;
      var addr := inodes[i].addrs[NDIRECT];
      ghost var s0 := S();
      assert IsSlot(s0, i, NDIRECT);
      LoggedNone(s0, logged, i);
      if addr != 0 {
        return Some(addr);
      }
      r := BallocPending({});
      if r == None {
        return;
      }
      assert {} + {r.value} == {r.value};
      IndirectLinked(s0, S(), i, r.value);
      LoggedInode(s0, S(), old(logged), logged, i, {}, inodes[i].(addrs := inodes[i].addrs[NDIRECT := r.value]));
      inodes := inodes[i := inodes[i].(addrs := inodes[i].addrs[NDIRECT := r.value])];
    }

    /** An entry of the indirect block, allocated if necessary. */
    method BmapEntry(i: nat, k: nat, ind: nat) returns (r: Option<nat>)
      requires Inv(S(), {}) && i < |inodes| && k < NINDIRECT
      requires 0 < ind < |data| && ind == inodes[i].addrs[NDIRECT]
      modifies this`used, this`data, this`logged
      ensures r == None <==> FreeCount(old(used)) < old(Need(S(), i, NDIRECT + k))
      ensures r == None ==> Full(used)
      ensures r.Some? ==> Inv(S(), {}) && Extends(old(S()), S()) && MapsOne(old(S()), S(), i, NDIRECT + k)
      ensures r.Some? ==> r.value != 0 && r.value == Ref(S(), i, NDIRECT + 1 + k)
      ensures old(Ref(S(), i, NDIRECT + 1 + k)) != 0 ==> r.Some? && S() == old(S()) && logged == old(logged)
      ensures r.Some? ==> logged <= old(logged) + {r.value, BBlock(r.value), ind}
      ensures r.Some? ==> AllLogged(old(S()), S(), old(logged), logged, i, {})
    {
      hide Inv, Ref, Extends, MapsOne, Need, Mapped, GetWord, PutWord, AllLogged;
      ghost var s0 := S();
      EntryFacts(s0, i, k);
      LoggedNone(s0, logged, i);
      var addr := GetWord(data[ind], k);
      if addr != 0 {
        return Some(addr);
      }
      r := BallocPending({});
      if r == None {
        return;
      }
      ghost var s1 := S();
      assert {} + {r.value} == {r.value};
      EntryLinked(s0, s1, i, k, r.value);
      LoggedData(s0, s1, old(logged), logged, i, ind, PutWord(data[ind], k, r.value));
      data := data[ind := PutWord(data[ind], k, r.value)];
      logged := logged + {ind};
    }

    method BmapIndirect(i: nat, k: nat) returns (r: Option<nat>)
      requires Inv(S(), {}) && i < |inodes| && k < NINDIRECT
      modifies this`used, this`data, this`inodes, this`logged
      ensures r == None <==> FreeCount(old(used)) < old(Need(S(), i, NDIRECT + k))
      ensures r == None ==> Full(used)
      ensures r.Some? ==> Inv(S(), {}) && Extends(old(S()), S()) && i < |inodes| && |inodes[i].addrs| == NDIRECT + 1
      ensures r.Some? ==> MapsOne(old(S()), S(), i, NDIRECT + k)
      ensures r.Some? ==> r.value != 0 && r.value == Ref(S(), i, NDIRECT + 1 + k)
      ensures old(Ref(S(), i, NDIRECT + 1 + k)) != 0 ==> r.Some? && S() == old(S()) && logged == old(logged)
      ensures r.Some? ==> old(inodes[i].addrs[NDIRECT]) != 0 ==>
        inodes[i].addrs[NDIRECT] == old(inodes[i].addrs[NDIRECT])
      ensures r.Some? ==> logged <= old(logged) + {r.value, BBlock(r.value)} +
                                    {inodes[i].addrs[NDIRECT], BBlock(inodes[i].addrs[NDIRECT])}
      ensures r.Some? ==> AllLogged(old(S()), S(), old(logged), logged, i, {})
    {
      hide AllLogged;
      ghost var s0 := S();
      var ind := BmapLoad(i);
      if ind == None {
        return None;
      }
      ghost var s1, l1 := S(), logged;
      r := BmapEntry(i, k, ind.value);
      if r.Some? {
        ExtendsTrans(s0, s1, S());
        LoggedTwice(s0, s1, S(), old(logged), l1, logged, i, {});
      }
    }

    // ---------- readi ----------

    /** readi: the result, and the bytes copied to the caller, who can take the first good
        bytes. After a copy that fails the code still returns the full count. */
    method Readi(i: nat, off: nat, n: nat, good: nat) returns (r: int, dst: seq<Byte>)
      requires Valid(S()) && i < |inodes| && off < UINT_RANGE && n < UINT_RANGE
      modifies this`used, this`data, this`inodes, this`logged
      ensures S() == old(S()) && logged == old(logged)
      ensures off > inodes[i].size || off + n >= UINT_RANGE ==> r == -1 && dst == []
      ensures off <= inodes[i].size && off + n < UINT_RANGE ==>
        var end := if off + n > inodes[i].size then inodes[i].size else off + n;
        r == end - off && dst == Contents(S(), i)[off..if off + good < end then off + good else end]
    {
      dst := [];
      if off > inodes[i].size || (off + n) % UINT_RANGE < off {
        return -1, dst;
      }
      var count := if off + n > inodes[i].size then inodes[i].size - off else n;
      ghost var s := S();
      assert Contents(s, i)[off..off] == [];
      hide Valid, Contents;
      var tot := 0;
      while tot < count
        invariant 0 <= tot <= count && S() == s && logged == old(logged)
        invariant tot <= good && dst == Contents(s, i)[off..off + tot]
        decreases count - tot
      {
        var whole;
        dst, tot, whole := ReadNext(i, off, count, tot, dst, good);
        if !whole {
          break;
        }
      }
      return count, dst;
    }

    /** One round of readi's loop. */
    method ReadNext(i: nat, off: nat, count: nat, tot: nat, dst: seq<Byte>, good: nat)
      returns (dst': seq<Byte>, tot': nat, whole: bool)
      requires Valid(S()) && i < |inodes| && tot < count && off + count <= inodes[i].size
      requires tot <= good && dst == Contents(S(), i)[off..off + tot]
      modifies this`used, this`data, this`inodes, this`logged
      ensures S() == old(S()) && logged == old(logged) && tot < tot' <= count
      ensures dst' == Contents(S(), i)[off..off + if good < tot' then good else tot'] && (whole <==> tot' <= good)
    {
      hide Valid, Contents;
      ValidSize(S(), i);
      ghost var c := Contents(S(), i);
      var o := off + tot;
      var m := if count - tot < BSIZE - o % BSIZE then count - tot else BSIZE - o % BSIZE;
      var part := ReadOne(i, o, m);
      whole := tot + m <= good;
      var got := if whole then m else good - tot;
      SliceSlice(c, o, m, got);
      SliceNext(c, off, o, o + got);
      return dst + part[..got], tot + m, whole;
    }

    /** One round of readi's loop: bmap finds the block, so nothing is allocated. */
    method ReadOne(i: nat, o: nat, m: nat) returns (part: seq<Byte>)
      requires Valid(S()) && i < |inodes| && 0 < m && o + m <= inodes[i].size && o % BSIZE + m <= BSIZE
      modifies this`used, this`data, this`inodes, this`logged
      ensures S() == old(S()) && logged == old(logged) && part == Contents(S(), i)[o..o + m]
    {
      ghost var s := S();
      assert o / BSIZE * BSIZE <= o;
      assert Mapped(s, i, o / BSIZE);
      assert IsSlot(s, i, DataSlot(o / BSIZE));
      ReadPart(s, i, o, m);
      var a := Bmap(i, o / BSIZE);
      part := data[a.value][o % BSIZE..o % BSIZE + m];
    }

    // ---------- writei ----------

    /** The indirect block of inode i and its bitmap block, once it exists. */
    ghost function IndirectNow(ind: nat): set<nat> {
      if ind == 0 then {} else {ind, BBlock(ind)}
    }

    /** The block that a failed copy has changed without logging it. */
    ghost function Stray(copied: bool, i: nat, bn: nat): set<nat>
      requires bn < MAXFILE
      reads this
    {
      if copied || i >= |inodes| || |inodes[i].addrs| != NDIRECT + 1 then {} else {Ref(S(), i, DataSlot(bn))}
    }

    lemma ChunkLogs(s: Fs, s1: Fs, s': Fs, was: set<nat>, now: set<nat>, now': set<nat>, i: nat, bn: nat)
      requires Shape(s) && Shape(s1) && Shape(s') && bn < MAXFILE
      requires i < |s.inodes| && i < |s1.inodes| && i < |s'.inodes|
      requires s'.inodes == s1.inodes && Ref(s', i, DataSlot(bn)) == Ref(s1, i, DataSlot(bn)) && MapsOne(s, s1, i, bn)
      requires s.inodes[i].addrs[NDIRECT] != 0 ==> s1.inodes[i].addrs[NDIRECT] == s.inodes[i].addrs[NDIRECT]
      requires var a := Ref(s1, i, DataSlot(bn));
        && now <= was + {a, BBlock(a)} + IndirectLogs(bn, s1.inodes[i].addrs[NDIRECT])
        && now' <= now + {a} && (Mapped(s, i, bn) ==> now == was)
      ensures LogsChunk(s, s', was, now', i, bn)
    {
      hide Mapped;
    }

    /** One round of writei's loop, with a caller who can give the first got bytes of chunk. A
        copy that fails leaves its bytes in the buffer, which is not logged. False is the
        panic in balloc. */
    method WriteChunk(i: nat, off: nat, chunk: seq<Byte>, got: nat) returns (ok: bool, copied: bool)
      requires Inv(S(), {}) && i < |inodes| && off / BSIZE < MAXFILE && off % BSIZE + |chunk| <= BSIZE
      modifies this`used, this`data, this`inodes, this`logged
      ensures ok <==> FreeCount(old(used)) >= old(Need(S(), i, off / BSIZE))
      ensures !ok ==> Full(used)
      ensures copied <==> |chunk| <= got
      ensures ok ==> Shape(S()) && Inv(S(), {}) && |inodes| == old(|inodes|)
      ensures ok ==> Chunked(old(S()), S(), i, off, if got < |chunk| then chunk[..got] else chunk)
      ensures ok ==> MapsOne(old(S()), S(), i, off / BSIZE)
      ensures ok ==> LogsChunk(old(S()), S(), old(logged), logged, i, off / BSIZE)
      ensures ok ==> AllLogged(old(S()), S(), old(logged), logged, i, Stray(copied, i, off / BSIZE))
      ensures ok && !copied && old(Mapped(S(), i, off / BSIZE)) ==> logged == old(logged)
    {
      hide Inv, Chunked, Extends, Mapped, MapsOne, Need, FreeCount, LogsChunk, IndirectLogs, IndirectNow, Ref;
      hide AllLogged;
      ghost var s := S();
      InvShape(s);
      copied := |chunk| <= got;
      var a := Bmap(i, off / BSIZE);
      if a == None {
        return false, copied;
      }
      var part := if copied then chunk else chunk[..got];
      ChunkDone(s, S(), i, off, part);
      ChunkLogs(s, S(), SetData(S(), a.value, Patch(data[a.value], off % BSIZE, part)), old(logged), logged,
                if copied then logged + {a.value} else logged, i, off / BSIZE);
      LoggedData(s, S(), old(logged), logged, i, a.value, Patch(data[a.value], off % BSIZE, part));
      data := data[a.value := Patch(data[a.value], off % BSIZE, part)];
      if copied {
        logged := logged + {a.value};
      }
      return true, copied;
    }

    /** What holds between the rounds of writei's loop, tot bytes into src. Blocks logged
        are data blocks d, at most one for each block touched; bitmap blocks b, at most one
        for each block touched that did not exist; and the indirect block with its bitmap
        block. */
    ghost predicate Writing(s0: Fs, i: nat, off: nat, src: seq<Byte>, tot: nat, was: set<nat>, d: set<nat>, b: set<nat>)
      reads this
    {
      WritingAt(s0, S(), logged, i, off, src, tot, was, d, b)
    }

    ghost predicate WritingAt(s0: Fs, s: Fs, now: set<nat>, i: nat, off: nat, src: seq<Byte>, tot: nat,
                              was: set<nat>, d: set<nat>, b: set<nat>) {
      && tot <= |src| && Shape(s) && Inv(s, {}) && Shape(s0) && Valid(s0) && i < |s.inodes| && i < |s0.inodes|
      && Written(s0, s, i, off, src, tot)
      && (0 < tot < |src| ==> (off + tot) % BSIZE == 0) && (tot == 0 ==> s == s0)
      && off <= s0.inodes[i].size && off + |src| <= MAXFILE * BSIZE
      && Budgeted(was, now, d, b, IndirectNow(s.inodes[i].addrs[NDIRECT]), off, tot)
    }

    /** What WriteChunk may log besides what was logged. */
    ghost predicate LogsChunk(s: Fs, s': Fs, now: set<nat>, now': set<nat>, i: nat, bn: nat)
      requires Shape(s) && Shape(s') && i < |s.inodes| && i < |s'.inodes| && bn < MAXFILE
    {
      var a, ind := Ref(s', i, DataSlot(bn)), s'.inodes[i].addrs[NDIRECT];
      && IndirectNow(s.inodes[i].addrs[NDIRECT]) <= IndirectNow(ind)
      && (forall x :: x in now' ==> x in now || x == a || x == BBlock(a) || x in IndirectNow(ind))
      && (Mapped(s, i, bn) ==> forall x :: x in now' ==> x in now || x == a)
    }

    lemma RoundBudget(s: Fs, s': Fs, now: set<nat>, now': set<nat>, i: nat, off: nat, tot: nat, m: nat,
                      was: set<nat>, d: set<nat>, b: set<nat>)
      requires Shape(s) && Shape(s') && i < |s.inodes| && i < |s'.inodes| && (off + tot) / BSIZE < MAXFILE
      requires Budgeted(was, now, d, b, IndirectNow(s.inodes[i].addrs[NDIRECT]), off, tot)
      requires LogsChunk(s, s', now, now', i, (off + tot) / BSIZE)
      requires 0 < m <= BSIZE - (off + tot) % BSIZE && (tot > 0 ==> (off + tot) % BSIZE == 0)
      requires tot == 0 && off % BSIZE != 0 ==> Mapped(s, i, off / BSIZE)
      ensures var a := Ref(s', i, DataSlot((off + tot) / BSIZE));
        Budgeted(was, now', d + {a}, if tot == 0 && off % BSIZE != 0 then b else b + {BBlock(a)},
                 IndirectNow(s'.inodes[i].addrs[NDIRECT]), off, tot + m)
    {
      var a, ind := Ref(s', i, DataSlot((off + tot) / BSIZE)), s'.inodes[i].addrs[NDIRECT];
      hide Budgeted, Mapped, IndirectNow, BBlock, Ref, DataSlot;
      BudgetStep(was, now, now', d, b, IndirectNow(s.inodes[i].addrs[NDIRECT]), IndirectNow(ind), off, tot, m, a,
                 BBlock(a), IndirectNow(ind));
    }

    lemma RoundStep(s0: Fs, s: Fs, s': Fs, now: set<nat>, now': set<nat>, i: nat, off: nat, src: seq<Byte>, tot: nat,
                    m: nat, was: set<nat>, d: set<nat>, b: set<nat>)
      requires WritingAt(s0, s, now, i, off, src, tot, was, d, b) && tot < |src| && m == ChunkLen(off, tot, |src|)
      requires Shape(s') && Inv(s', {}) && |s'.inodes| == |s.inodes| && (off + tot) / BSIZE < MAXFILE
      requires Chunked(s, s', i, off + tot, src[tot..tot + m]) && LogsChunk(s, s', now, now', i, (off + tot) / BSIZE)
      ensures var a := Ref(s', i, DataSlot((off + tot) / BSIZE));
        WritingAt(s0, s', now', i, off, src, tot + m, was, d + {a},
                  if tot == 0 && off % BSIZE != 0 then b else b + {BBlock(a)})
    {
      if tot == 0 && off % BSIZE != 0 { StartMapped(s0, i, off); }
      hide Inv, Written, Chunked, Budgeted, ChunkLen, Mapped, Valid;
      hide IndirectNow, BBlock, LogsChunk, Ref, DataSlot, Shape;
      WriteStep(s0, s, s', i, off, src, tot, m);
      RoundBudget(s, s', now, now', i, off, tot, m, was, d, b);
    }

    /** What holds when the loop is over: the first c bytes of src are in the file, and blocks
        were looked up and logged as far as end. */
    ghost predicate Ended(s0: Fs, i: nat, off: nat, src: seq<Byte>, c: nat, end: nat, was: set<nat>,
                          d: set<nat>, b: set<nat>)
      reads this
    {
      EndedAt(s0, S(), logged, i, off, src, c, end, was, d, b)
    }

    ghost predicate EndedAt(s0: Fs, s: Fs, now: set<nat>, i: nat, off: nat, src: seq<Byte>, c: nat, end: nat,
                            was: set<nat>, d: set<nat>, b: set<nat>) {
      && c <= |src| && Shape(s) && Inv(s, {}) && Shape(s0) && Valid(s0) && i < |s.inodes| && i < |s0.inodes|
      && Written(s0, s, i, off, src[..c], c) && off <= s0.inodes[i].size && off + |src| <= MAXFILE * BSIZE
      && Budgeted(was, now, d, b, IndirectNow(s.inodes[i].addrs[NDIRECT]), off, end)
    }

    lemma AllEnded(s0: Fs, s: Fs, now: set<nat>, i: nat, off: nat, src: seq<Byte>, was: set<nat>,
                   d: set<nat>, b: set<nat>)
      requires WritingAt(s0, s, now, i, off, src, |src|, was, d, b)
      ensures EndedAt(s0, s, now, i, off, src, |src|, |src|, was, d, b)
    {
      assert src[..|src|] == src;
    }

    /** The round in which the copy fails after q bytes. */
    lemma FailStep(s0: Fs, s: Fs, s': Fs, now: set<nat>, now': set<nat>, i: nat, off: nat, src: seq<Byte>, tot: nat,
                   m: nat, q: nat, c: nat, was: set<nat>, d: set<nat>, b: set<nat>)
      requires WritingAt(s0, s, now, i, off, src, tot, was, d, b)
      requires tot < |src| && m == ChunkLen(off, tot, |src|) && q < m
      requires Shape(s') && Inv(s', {}) && |s'.inodes| == |s.inodes| && (off + tot) / BSIZE < MAXFILE
      requires Chunked(s, s', i, off + tot, src[tot..tot + m][..q])
      requires LogsChunk(s, s', now, now', i, (off + tot) / BSIZE)
      requires c <= tot + q && (c < tot + q ==> s0.inodes[i].size <= off + c)
      ensures var a := Ref(s', i, DataSlot((off + tot) / BSIZE));
        EndedAt(s0, s', now', i, off, src, c, tot + m, was, d + {a},
                if tot == 0 && off % BSIZE != 0 then b else b + {BBlock(a)})
    {
      hide Inv, Written, Chunked, Budgeted, ChunkLen, Mapped, Valid;
      hide IndirectNow, BBlock, LogsChunk, Ref, DataSlot, Shape;
      SliceSlice(src, tot, m, q);
      if tot == 0 && off % BSIZE != 0 {
        StartMapped(s0, i, off);
        assert Mapped(s, i, off / BSIZE);
      }
      WriteStep(s0, s, s', i, off, src, tot, q);
      WrittenCut(s0, s', i, off, src, tot + q, c);
      RoundBudget(s, s', now, now', i, off, tot, m, was, d, b);
    }

    lemma RoundFacts(s0: Fs, i: nat, off: nat, src: seq<Byte>, tot: nat, was: set<nat>, d: set<nat>, b: set<nat>)
      requires Writing(s0, i, off, src, tot, was, d, b) && tot < |src|
      ensures WritingAt(s0, S(), logged, i, off, src, tot, was, d, b)
      ensures Shape(S()) && Inv(S(), {}) && i < |inodes| && i < |s0.inodes| && (off + tot) / BSIZE < MAXFILE
      ensures tot > 0 ==> (off + tot) % BSIZE == 0
      ensures var m := ChunkLen(off, tot, |src|);
        m > 0 && tot + m <= |src| && |src[tot..tot + m]| == m && (off + tot) % BSIZE + m <= BSIZE
    {
    }

    /** One round of writei's loop. */
    method WriteRound(i: nat, off: nat, src: seq<Byte>, tot: nat, good: nat, ghost s0: Fs, ghost was: set<nat>,
                      ghost d: set<nat>, ghost b: set<nat>)
      returns (ok: bool, m: nat, copied: bool, ghost d': set<nat>, ghost b': set<nat>)
      requires Writing(s0, i, off, src, tot, was, d, b) && tot < |src| && tot <= good
      modifies this`used, this`data, this`inodes, this`logged
      ensures ok ==> i < |inodes| && Shape(S())
      ensures ok <==> FreeCount(old(used)) >= old(Need(S(), i, (off + tot) / BSIZE))
      ensures !ok ==> Full(used)
      ensures m == ChunkLen(off, tot, |src|) && (copied <==> tot + m <= good)
      ensures ok && copied ==> Writing(s0, i, off, src, tot + m, was, d', b')
      ensures ok && !copied ==>
        i < |s0.inodes| && Ended(s0, i, off, src, Cut(off, |src|, good, s0.inodes[i].size), tot + m, was, d', b')
      ensures ok ==> MapsOne(old(S()), S(), i, (off + tot) / BSIZE)
      ensures (off + tot) / BSIZE < MAXFILE
      ensures ok ==> AllLogged(old(S()), S(), old(logged), logged, i, Stray(copied, i, (off + tot) / BSIZE))
    {
      hide AllLogged, Stray;
      hide Inv, Written, Chunked, Budgeted, ChunkLen, Mapped, Valid, IndirectNow, BBlock, MapsOne, Need, Whole, Tried;
      hide WritingAt, EndedAt, LogsChunk, Cut, FreeCount;
      ghost var s, now := S(), logged;
      RoundFacts(s0, i, off, src, tot, was, d, b);
      var o := off + tot;
      m := ChunkLen(off, tot, |src|);
      d', b' := d, b;
      if good < tot + m {
        WholeIs(off, |src|, good, tot);
        CutFacts(off, |src|, good, s0.inodes[i].size);
      }
      ok, copied := WriteChunk(i, o, src[tot..tot + m], good - tot);
      if ok {
        ghost var a := Ref(S(), i, DataSlot(o / BSIZE));
        if copied {
          RoundStep(s0, s, S(), now, logged, i, off, src, tot, m, was, d, b);
        } else {
          FailStep(s0, s, S(), now, logged, i, off, src, tot, m, good - tot,
                   Cut(off, |src|, good, s0.inodes[i].size), was, d, b);
        }
        b' := if tot == 0 && off % BSIZE != 0 then b else b + {BBlock(a)};
        d' := d + {a};
      }
    }

    /** All of writei's loop; tot is how far it came. */
    method WriteAll(i: nat, off: nat, src: seq<Byte>, good: nat)
      returns (ok: bool, tot: nat, ghost d: set<nat>, ghost b: set<nat>)
      requires Valid(S()) && i < |inodes| && off <= inodes[i].size && off + |src| <= MAXFILE * BSIZE
      modifies this`used, this`data, this`inodes, this`logged
      ensures ok <==> !Lacking(old(S()), i, off, Tried(off, |src|, good))
      ensures !ok ==> Full(used)
      ensures ok ==> tot == Whole(off, |src|, good) && Covered(old(S()), S(), i, off, Tried(off, |src|, good))
      ensures ok ==>
        Ended(old(S()), i, off, src, Cut(off, |src|, good, old(inodes[i].size)), Tried(off, |src|, good),
              old(logged), d, b)
      ensures tot == |src| || (off + tot) / BSIZE < MAXFILE
      ensures ok ==> AllLogged(old(S()), S(), old(logged), logged, i, StrayOf(i, off, |src|, tot))
    {
      hide AllLogged, StrayOf;
      hide Writing, Ended, MapsOne, Need, Valid, Covered, Lacking, ChunkLen, FreeCount, Whole, Tried, Cut;
      ghost var s0 := S();
      d, b := {}, {};
      StartWriting(i, off, src);
      LoggedNone(s0, logged, i);
      tot := 0;
      while tot < |src|
        invariant tot <= |src| && tot <= good && Writing(s0, i, off, src, tot, old(logged), d, b)
        invariant Covered(s0, S(), i, off, tot) && AllLogged(s0, S(), old(logged), logged, i, {})
        decreases |src| - tot
      {
        ghost var s, l := S(), logged;
        WritingFacts(s0, i, off, src, tot, old(logged), d, b);
        var m, copied;
        ok, m, copied, d, b := WriteRound(i, off, src, tot, good, s0, old(logged), d, b);
        if good < tot + m { WholeIs(off, |src|, good, tot); }
        if !ok {
          TriedPast(off, |src|, good, tot);
          OutOfBlocks(s0, s, i, off, Tried(off, |src|, good), tot);
          return;
        }
        CoveredStep(s0, s, S(), i, off, |src|, tot);
        StrayIs(copied, i, off, |src|, tot);
        LoggedTwice(s0, s, S(), old(logged), l, logged, i, Stray(copied, i, (off + tot) / BSIZE));
        if !copied {
          CoveredFacts(s0, S(), i, off, tot + m);
          return;
        }
        tot := tot + m;
        WritingFacts(s0, i, off, src, tot, old(logged), d, b);
      }
      WholeAll(off, |src|, good);
      WritingEnds(s0, i, off, src, old(logged), d, b);
      StrayIs(true, i, off, |src|, tot);
      CoveredFacts(s0, S(), i, off, |src|);
      ok := true;
    }

    /** The same at the end of a loop that came to tot of n bytes. */
    ghost function StrayOf(i: nat, off: nat, n: nat, tot: nat): set<nat>
      requires tot == n || (off + tot) / BSIZE < MAXFILE
      reads this
    {
      if tot == n then {} else Stray(false, i, (off + tot) / BSIZE)
    }

    lemma StrayIs(copied: bool, i: nat, off: nat, n: nat, tot: nat)
      requires tot == n || (off + tot) / BSIZE < MAXFILE
      ensures tot == n ==> StrayOf(i, off, n, tot) == {}
      ensures tot < n ==> Stray(copied, i, (off + tot) / BSIZE) == if copied then {} else StrayOf(i, off, n, tot)
    {
    }

    lemma WritingEnds(s0: Fs, i: nat, off: nat, src: seq<Byte>, was: set<nat>, d: set<nat>, b: set<nat>)
      requires Writing(s0, i, off, src, |src|, was, d, b)
      ensures Ended(s0, i, off, src, |src|, |src|, was, d, b)
    {
      AllEnded(s0, S(), logged, i, off, src, was, d, b);
    }

    lemma StartWriting(i: nat, off: nat, src: seq<Byte>)
      requires Valid(S()) && i < |inodes| && off <= inodes[i].size && off + |src| <= MAXFILE * BSIZE
      ensures Writing(S(), i, off, src, 0, logged, {}, {}) && Shape(S()) && Covered(S(), S(), i, off, 0)
    {
      WriteStart(S(), i, off, src);
      CoveredNone(S(), i, off);
    }

    lemma WritingFacts(s0: Fs, i: nat, off: nat, src: seq<Byte>, tot: nat, was: set<nat>, d: set<nat>, b: set<nat>)
      requires Writing(s0, i, off, src, tot, was, d, b)
      ensures tot <= |src| && Shape(S()) && i < |S().inodes| && (0 < tot < |src| ==> (off + tot) % BSIZE == 0)
    {
    }

    /** writei for a caller who can give the first good bytes of src; None is the panic in
        balloc. After a copy that fails the code still returns the full count, and Cut says how
        much of src is in the file. The check off + n < off is for wrap-around of the uint
        sum. */
    method Writei(i: nat, off: nat, src: seq<Byte>, good: nat) returns (r: Option<int>)
      requires Valid(S()) && i < |inodes| && off < UINT_RANGE && |src| < UINT_RANGE
      modifies this`used, this`data, this`inodes, this`logged
      ensures old(off > inodes[i].size) || off + |src| > MAXFILE * BSIZE ==>
        r == Some(-1) && S() == old(S()) && logged == old(logged)
      ensures r == None <==> old(off <= inodes[i].size) && off + |src| <= MAXFILE * BSIZE &&
                             Lacking(old(S()), i, off, Tried(off, |src|, good))
      ensures r == None ==> Full(used)
      ensures old(off <= inodes[i].size) && off + |src| <= MAXFILE * BSIZE && r.Some? ==>
        && r == Some(|src|) && Covered(old(S()), S(), i, off, Tried(off, |src|, good))
        && FileWritten(old(S()), S(), i, off, src[..Cut(off, |src|, good, old(inodes[i].size))])
      ensures old(off <= inodes[i].size) && off + |src| <= MAXFILE * BSIZE && r.Some? ==>
        var w := Whole(off, |src|, good);
        && (|src| > 0 ==> IBlock(i) in logged) && (w < |src| ==> (off + w) / BSIZE < MAXFILE)
        && AllLogged(old(S()), S(), old(logged), logged, i, StrayOf(i, off, |src|, w))
      ensures r.Some? && |src| <= CHUNK ==> |logged - old(logged)| <= MAXOPBLOCKS
    {
      hide AllLogged, StrayOf, Whole;
      assert logged - old(logged) == {};
      if off > inodes[i].size || (off + |src|) % UINT_RANGE < off {
        return Some(-1);
      }
      if off + |src| > MAXFILE * BSIZE {
        return Some(-1);
      }
      hide Valid, FileWritten, Covered, Lacking, Tried, Cut;
      r := WriteAndUpdate(i, off, src, good);
    }

    /** The loop of writei, the new size and iupdate. */
    method WriteAndUpdate(i: nat, off: nat, src: seq<Byte>, good: nat) returns (r: Option<int>)
      requires Valid(S()) && i < |inodes| && off <= inodes[i].size && off + |src| <= MAXFILE * BSIZE
      modifies this`used, this`data, this`inodes, this`logged
      ensures r == None <==> Lacking(old(S()), i, off, Tried(off, |src|, good))
      ensures r == None ==> Full(used)
      ensures r.Some? ==> r == Some(|src|) && Covered(old(S()), S(), i, off, Tried(off, |src|, good))
      ensures r.Some? ==> FileWritten(old(S()), S(), i, off, src[..Cut(off, |src|, good, old(inodes[i].size))])
      ensures r.Some? ==>
        var w := Whole(off, |src|, good);
        && (|src| > 0 ==> IBlock(i) in logged) && (w < |src| ==> (off + w) / BSIZE < MAXFILE)
        && AllLogged(old(S()), S(), old(logged), logged, i, StrayOf(i, off, |src|, w))
      ensures r.Some? && |src| <= CHUNK ==> |logged - old(logged)| <= MAXOPBLOCKS
    {
      hide Lacking, Covered, FileWritten, Valid, Whole, Tried, AllLogged, StrayOf;
      ghost var s0 := S();
      ghost var d, b;
      var ok, tot;
      ok, tot, d, b := WriteAll(i, off, src, good);
      if !ok {
        return None;
      }
      ghost var s, end := S(), Tried(off, |src|, good);
      var size := if off + tot > inodes[i].size then off + tot else inodes[i].size;
      UpdateDone(s0, i, off, src, Cut(off, |src|, good, s0.inodes[i].size), end, size, old(logged), d, b);
      ghost var stray := StrayOf(i, off, |src|, tot);
      UpdateLogged(s0, i, old(logged), size, stray);
      StraySize(s, i, off, |src|, tot, inodes[i].size);
      hide Cut, Ended;
      if |src| > 0 {
        inodes := inodes[i := inodes[i].(size := size)];
        logged := logged + {IBlock(i)};
      }
      assert S() == s.(inodes := s.inodes[i := s.inodes[i].(size := size)]);
      StraySize(s, i, off, |src|, tot, size);
      return Some(|src|);
    }

    lemma UpdateLogs(was: set<nat>, now: set<nat>, d: set<nat>, b: set<nat>, ind: nat, i: nat, off: nat, end: nat)
      requires Budgeted(was, now, d, b, IndirectNow(ind), off, end)
      ensures end <= CHUNK ==> |now - was| <= MAXOPBLOCKS && |now + {IBlock(i)} - was| <= MAXOPBLOCKS
    {
      var rest := IndirectNow(ind);
      assert |rest| <= 2 && |rest + {IBlock(i)}| <= 3;
      hide IndirectNow, Touched;
      LogBound(was, now, d, b, rest, off, end);
      LogBound(was, now + {IBlock(i)}, d, b, rest + {IBlock(i)}, off, end);
    }

    lemma UpdateLogged(s0: Fs, i: nat, was: set<nat>, size: nat, but: set<nat>)
      requires AllLogged(s0, S(), was, logged, i, but) && i < |inodes|
      ensures var s' := S().(inodes := inodes[i := inodes[i].(size := size)]);
        AllLogged(s0, s', was, logged, i, but) && AllLogged(s0, s', was, logged + {IBlock(i)}, i, but)
    {
    }

    /** The size does not move the block. */
    lemma StraySize(s: Fs, i: nat, off: nat, n: nat, tot: nat, size: nat)
      requires i < |s.inodes| && Shape(s) && S() == s.(inodes := s.inodes[i := s.inodes[i].(size := size)])
      requires tot == n || (off + tot) / BSIZE < MAXFILE
      ensures StrayOf(i, off, n, tot) == if tot == n then {} else {Ref(s, i, DataSlot((off + tot) / BSIZE))}
    {
    }

    /** What the new size and iupdate make of it. */
    lemma UpdateDone(s0: Fs, i: nat, off: nat, src: seq<Byte>, c: nat, end: nat, size: nat, was: set<nat>,
                     d: set<nat>, b: set<nat>)
      requires Ended(s0, i, off, src, c, end, was, d, b) && Covered(s0, S(), i, off, end) && end <= |src|
      requires i < |s0.inodes| && size == if off + c > s0.inodes[i].size then off + c else s0.inodes[i].size
      ensures i < |inodes| && inodes[i].size == s0.inodes[i].size
      ensures var s' := S().(inodes := inodes[i := inodes[i].(size := size)]);
        FileWritten(s0, s', i, off, src[..c]) && Covered(s0, s', i, off, end)
      ensures |src| <= CHUNK ==> |logged - was| <= MAXOPBLOCKS && |logged + {IBlock(i)} - was| <= MAXOPBLOCKS
    {
      hide Budgeted, Valid, Inv, NoHoles, Contents, FileWritten, Written, Covered, IndirectNow;
      UpdateLogs(was, logged, d, b, inodes[i].addrs[NDIRECT], i, off, end);
      WrittenSizes(s0, S(), i, off, src[..c]);
      CoveredSize(s0, S(), i, off, end, size);
      WriteDone(s0, S(), i, off, src[..c]);
    }

    // ---------- itrunc ----------

    /** The loop over the direct addresses. False is the panic in bfree. */
    method TruncDirect(i: nat) returns (ok: bool)
      requires Inv(S(), {}) && i < |inodes|
      modifies this`used, this`inodes, this`logged
      ensures ok && i < |inodes| && |inodes| == old(|inodes|)
      ensures SlotsFreed(old(S()), S(), i, 0, NDIRECT)
      ensures inodes == old(inodes)[i := inodes[i]] && |inodes[i].addrs| == NDIRECT + 1
      ensures inodes[i].size == old(inodes[i].size) && inodes[i].addrs[NDIRECT] == old(inodes[i].addrs[NDIRECT])
      ensures forall j :: 0 <= j < NDIRECT ==> inodes[i].addrs[j] == 0
      ensures AllLogged(old(S()), S(), old(logged), logged, i, {})
    {
      hide AllLogged;
      ghost var s := S();
      LoggedNone(s, logged, i);
      var j := 0;
      while j < NDIRECT
        invariant 0 <= j <= NDIRECT && |used| == |s.used| && SlotsFreed(s, s.(used := used), i, 0, j)
        invariant i < |inodes| && inodes == s.inodes[i := inodes[i]] && |inodes[i].addrs| == NDIRECT + 1
        invariant inodes[i].size == s.inodes[i].size
        invariant forall q :: 0 <= q < j ==> inodes[i].addrs[q] == 0
        invariant forall q :: j <= q <= NDIRECT ==> inodes[i].addrs[q] == s.inodes[i].addrs[q]
        invariant AllLogged(s, S(), old(logged), logged, i, {})
      {
        FreedNext(s, used, i, 0, j);
        if inodes[i].addrs[j] != 0 {
          LoggedBit(s, S(), old(logged), logged, i, inodes[i].addrs[j]);
          ok := Bfree(inodes[i].addrs[j]);
          assert ok;
          LoggedInode(s, S(), old(logged), logged, i, {}, inodes[i].(addrs := inodes[i].addrs[j := 0]));
          inodes := inodes[i := inodes[i].(addrs := inodes[i].addrs[j := 0])];
        }
        j := j + 1;
      }
      ok := true;
    }

    /** The indirect block and its entries. */
    method TruncIndirect(i: nat) returns (ok: bool)
      requires Inv(S(), {}) && i < |inodes| && inodes[i].addrs[NDIRECT] != 0
      modifies this`used, this`inodes, this`logged
      ensures ok && |inodes| == old(|inodes|) && SlotsFreed(old(S()), S(), i, NDIRECT, SLOTS)
      ensures inodes == old(inodes)[i := old(inodes[i]).(addrs := old(inodes[i].addrs)[NDIRECT := 0])]
      ensures AllLogged(old(S()), S(), old(logged), logged, i, {})
    {
      hide AllLogged;
      ghost var s := S();
      LoggedNone(s, logged, i);
      var ind := inodes[i].addrs[NDIRECT];
      assert IsSlot(s, i, NDIRECT);
      var a := data[ind];
      var j := 0;
      while j < NINDIRECT
        invariant 0 <= j <= NINDIRECT && |used| == |s.used| && inodes == s.inodes
        invariant SlotsFreed(s, s.(used := used), i, NDIRECT + 1, NDIRECT + 1 + j)
        invariant AllLogged(s, S(), old(logged), logged, i, {})
      {
        FreedNext(s, used, i, NDIRECT + 1, NDIRECT + 1 + j);
        if GetWord(a, j) != 0 {
          LoggedBit(s, S(), old(logged), logged, i, GetWord(a, j));
          ok := Bfree(GetWord(a, j));
          assert ok;
        }
        j := j + 1;
      }
      FreedIndirect(s, used, i);
      LoggedBit(s, S(), old(logged), logged, i, ind);
      ok := Bfree(ind);
      LoggedInode(s, S(), old(logged), logged, i, {}, inodes[i].(addrs := inodes[i].addrs[NDIRECT := 0]));
      inodes := inodes[i := inodes[i].(addrs := inodes[i].addrs[NDIRECT := 0])];
    }

    /** itrunc: never panics, frees exactly the blocks of inode i and empties it. */
    method Itrunc(i: nat) returns (ok: bool)
      requires Valid(S()) && i < |inodes|
      modifies this`used, this`inodes, this`logged
      ensures ok && Valid(S()) && |inodes| == old(|inodes|) && Contents(S(), i) == []
      ensures forall k :: 0 <= k < |inodes| && k != i ==> Contents(S(), k) == Contents(old(S()), k)
      ensures SlotsFreed(old(S()), S(), i, 0, SLOTS)
      ensures AllLogged(old(S()), S(), old(logged), logged, i, {}) && IBlock(i) in logged
    {
      hide AllLogged;
      ghost var s := S();
      ok := TruncDirect(i);
      ghost var s1, l1 := S(), logged;
      LoggedNone(s1, l1, i);
      UnlinkKeeps(s, s1, i, 0, NDIRECT);
      if inodes[i].addrs[NDIRECT] != 0 {
        ok := TruncIndirect(i);
      } else {
        NothingFreed(s1, i);
      }
      FreedTwice(s, s1, S(), i);
      LoggedTwice(s, s1, S(), old(logged), l1, logged, i, {});
      UpdateLogged(s, i, old(logged), 0, {});
      inodes := inodes[i := inodes[i].(size := 0)];
      logged := logged + {IBlock(i)};
      assert inodes[i].addrs == seq(NDIRECT + 1, _ => 0);
      TruncDone(s, S(), i);
    }

    // ---------- filewrite ----------

    /** filewrite on a file of inode i at offset off0: chunks that fit in one transaction
        each, added to ops. None is the panic in balloc; otherwise pos bytes were written. */
    method Filewrite(i: nat, off0: nat, src: seq<Byte>) returns (r: Option<int>, pos: nat)
      requires Valid(S()) && i < |inodes| && off0 + |src| < UINT_RANGE
      modifies this`used, this`data, this`inodes, this`logged, this`ops
      ensures var m := Reach(old(inodes[i].size), off0, |src|);
        && (r == None <==> Lacking(old(S()), i, off0, m)) && (r == None ==> Full(used))
        && (r.Some? ==> pos == m && r.value == if m == |src| then |src| else -1)
      ensures pos <= |src| && (r.Some? ==> Advanced(old(S()), S(), i, off0, src[..pos]))
      ensures |ops| == |old(ops)| + Chunks(pos) + (if r == Some(-1) then 1 else 0) && old(ops) <= ops
      ensures forall k :: |old(ops)| <= k < |ops| ==> |ops[k]| <= MAXOPBLOCKS
      ensures r.Some? ==> AllLogged(old(S()), S(), {}, Joined(ops[|old(ops)|..]), i, {})
      ensures r.Some? && pos > 0 ==> IBlock(i) in Joined(ops[|old(ops)|..])
    {
      hide Valid, Inv, Full, Advanced, Covered, Lacking, Reach, AllLogged, Joined;
      ghost var s0, total := S(), Reach(inodes[i].size, off0, |src|);
      var off := off0;
      pos := 0;
      AdvancedNone(s0, i, off0);
      ValidShape(s0);
      CoveredNone(s0, i, off0);
      LoggedNone(s0, {}, i);
      JoinedNone(ops);
      assert src[..0] == [];
      while pos < |src|
        invariant 0 <= pos <= |src| && off == off0 + pos && (pos < |src| ==> pos % CHUNK == 0)
        invariant Advanced(s0, S(), i, off0, src[..pos]) && Covered(s0, S(), i, off0, pos)
        invariant pos > 0 ==> off0 <= s0.inodes[i].size && off0 + pos <= MAXFILE * BSIZE
        invariant old(ops) <= ops && |ops| == |old(ops)| + Chunks(pos)
        invariant forall k :: |old(ops)| <= k < |ops| ==> |ops[k]| <= MAXOPBLOCKS
        invariant AllLogged(s0, S(), {}, Joined(ops[|old(ops)|..]), i, {})
        invariant pos > 0 ==> IBlock(i) in Joined(ops[|old(ops)|..])
        decreases |src| - pos
      {
        ghost var s, o := S(), ops;
        var n1 := if |src| - pos > CHUNK then CHUNK else |src| - pos;
        var w := WriteOneOp(i, off0, src, pos, n1, s0);
        ReachMore(s0.inodes[i].size, off0, |src|, pos, n1);
        if w == None {
          return None, pos;
        }
        JoinedNext(o, |old(ops)|, logged);
        LoggedMore(s0, s, S(), Joined(o[|old(ops)|..]), logged, i);
        if w.value < 0 {
          CoveredFacts(s0, S(), i, off0, pos);
          return Some(-1), pos;
        }
        off := off + n1;
        pos := pos + n1;
      }
      ReachAll(s0.inodes[i].size, off0, |src|);
      CoveredFacts(s0, S(), i, off0, pos);
      r := Some(|src|);
    }

    /** One transaction of filewrite. */
    method WriteOneOp(i: nat, off0: nat, src: seq<Byte>, pos: nat, n1: nat, ghost s0: Fs) returns (w: Option<int>)
      requires pos + n1 <= |src| && 0 < n1 <= CHUNK && off0 + |src| < UINT_RANGE
      requires Valid(s0) && i < |s0.inodes| && Shape(s0) && Advanced(s0, S(), i, off0, src[..pos])
      requires Covered(s0, S(), i, off0, pos)
      modifies this`used, this`data, this`inodes, this`logged, this`ops
      ensures w == None ==> Full(used) && ops == old(ops)
      ensures w == None ==> off0 <= s0.inodes[i].size && off0 + pos + n1 <= MAXFILE * BSIZE
      ensures w == None ==> forall total :: pos + n1 <= total ==> Lacking(s0, i, off0, total)
      ensures w.Some? ==> ops == old(ops) + [logged] && |logged| <= MAXOPBLOCKS
      ensures w.Some? ==> AllLogged(old(S()), S(), {}, logged, i, {}) && (w.value > 0 ==> IBlock(i) in logged)
      ensures w.Some? ==>
        w.value == if off0 <= s0.inodes[i].size && off0 + pos + n1 <= MAXFILE * BSIZE then n1 else -1
      ensures w.Some? ==>
        var p := pos + if w.value < 0 then 0 else n1;
        Advanced(s0, S(), i, off0, src[..p]) && Covered(s0, S(), i, off0, p)
    {
      hide Valid, Full, Advanced, Covered, Lacking, AllLogged;
      ghost var s := S();
      AdvancedFacts(s0, s, i, off0, src[..pos]);
      ValidShape(s);
      w := Transaction(i, off0 + pos, src[pos..pos + n1]);
      if w == None {
        forall total | pos + n1 <= total ensures Lacking(s0, i, off0, total) {
          LackingLater(s0, s, i, off0, pos, n1, total);
        }
      } else if w.value >= 0 {
        AdvancedMore(s0, s, S(), i, off0, src, pos, n1);
        CoveredTwice(s0, s, S(), i, off0, pos, n1);
      }
    }

    /** begin_op, writei and end_op; ops receives the blocks logged. */
    method Transaction(i: nat, off: nat, chunk: seq<Byte>) returns (w: Option<int>)
      requires Valid(S()) && i < |inodes| && off + |chunk| < UINT_RANGE && |chunk| <= CHUNK
      modifies this`used, this`data, this`inodes, this`logged, this`ops
      ensures w == None <==>
        old(off <= inodes[i].size) && off + |chunk| <= MAXFILE * BSIZE && Lacking(old(S()), i, off, |chunk|)
      ensures w == None ==> Full(used) && ops == old(ops)
      ensures w.Some? ==> ops == old(ops) + [logged] && |logged| <= MAXOPBLOCKS
      ensures old(off > inodes[i].size) || off + |chunk| > MAXFILE * BSIZE ==> w == Some(-1) && S() == old(S())
      ensures w.Some? ==> AllLogged(old(S()), S(), {}, logged, i, {})
      ensures w.Some? && w.value > 0 ==> IBlock(i) in logged
      ensures old(off <= inodes[i].size) && off + |chunk| <= MAXFILE * BSIZE && w.Some? ==>
        w == Some(|chunk|) && FileWritten(old(S()), S(), i, off, chunk) && Covered(old(S()), S(), i, off, |chunk|)
    {
      hide Valid, FileWritten, Covered, Lacking, AllLogged, StrayOf;
      ghost var s := S();
      logged := {};
      LoggedNone(s, {}, i);
      WholeAll(off, |chunk|, |chunk|);
      assert chunk[..|chunk|] == chunk;
      w := Writei(i, off, chunk, |chunk|);
      if w.Some? {
        assert logged - {} == logged;
        StrayIs(true, i, off, |chunk|, |chunk|);
        ops := ops + [logged];
      }
    }
  }
}
