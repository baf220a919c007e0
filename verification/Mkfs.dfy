/** mkfs/mkfs.c: how the first image is built, block after block and inode after inode, and
    when the kernel finds it without holes. Blocks and inodes are handed out by counting up;
    the bitmap is written last. */
module Mkfs {
  import opened Options
  import opened Params
  import opened FsModel
  import opened FsCode
  import opened Dir

  const ROOTINO := 1

  function Prefix(n: nat, used: nat): seq<bool> { seq(n, b => b < used) }

  function NoInode(): Inode { Inode(0, seq(NDIRECT + 1, _ => 0)) }

  // ---------- nothing beyond the end of a file ----------

  /** The size of a file, while iappend has already written file i up to end. */
  function SizeWith(s: Fs, i: nat, end: nat, k: nat): nat
    requires k < |s.inodes|
  {
    if k == i then end else s.inodes[k].size
  }

  /** Blocks exist only up to the end of a file, and the last one is zero behind it; an
      indirect block exists only for a file that needs it. */
  ghost predicate Tidy(s: Fs, i: nat, end: nat)
    requires Shape(s)
  {
    && (forall k: nat, bn: nat :: Mapped(s, k, bn) ==> bn * BSIZE < SizeWith(s, i, end, k))
    && (forall k: nat, o: nat {:trigger ByteAt(s, k, o)} ::
          k < |s.inodes| && SizeWith(s, i, end, k) <= o < MAXFILE * BSIZE && Mapped(s, k, o / BSIZE) ==>
            ByteAt(s, k, o) == 0)
    && (forall k :: 0 <= k < |s.inodes| && s.inodes[k].addrs[NDIRECT] != 0 ==>
          NDIRECT * BSIZE < SizeWith(s, i, end, k))
  }

  /** One round of iappend's loop at offset off, the end of file i so far. */
  lemma TidyStep(s: Fs, s1: Fs, i: nat, off: nat, chunk: seq<Byte>)
    requires Inv(s, {}) && Inv(s1, {}) && i < |s.inodes| && Tidy(s, i, off) && Extends(s, s1) && |chunk| > 0
    requires off / BSIZE < MAXFILE && off % BSIZE + |chunk| <= BSIZE && MapsOne(s, s1, i, off / BSIZE)
    requires OthersSame(s, s1, i) && |s1.inodes| == |s.inodes| && s1.inodes == s.inodes[i := s1.inodes[i]]
    requires !Mapped(s, i, off / BSIZE) ==> BlockAt(s1, i, off / BSIZE) == ZeroBlock()
    ensures var a := Ref(s1, i, DataSlot(off / BSIZE));
      a < |s1.data| &&
      var s' := SetData(s1, a, Patch(s1.data[a], off % BSIZE, chunk)); Shape(s') && Tidy(s', i, off + |chunk|)
  {
    var bn := off / BSIZE;
    var a := Ref(s1, i, DataSlot(bn));
    assert IsSlot(s1, i, DataSlot(bn));
    var blk := Patch(s1.data[a], off % BSIZE, chunk);
    var s' := SetData(s1, a, blk);
    WriteKeeps(s1, {}, i, bn, blk);
    forall k: nat, c: nat | Mapped(s', k, c) ensures Mapped(s1, k, c) && c * BSIZE < SizeWith(s', i, off + |chunk|, k) {
      assert IsSlot(s1, k, DataSlot(c));
      MappedBelow(s, s1, i, off, k, c);
    }
    forall k: nat, o: nat
      | k < |s'.inodes| && SizeWith(s', i, off + |chunk|, k) <= o < MAXFILE * BSIZE && Mapped(s', k, o / BSIZE)
      ensures ByteAt(s', k, o) == 0
    {
      assert Mapped(s1, k, o / BSIZE);
      ChunkBytes(s1, i, off, chunk, k, o);
      ZeroBehind(s, s1, i, off, k, o);
    }
  }

  lemma MappedBelow(s: Fs, s1: Fs, i: nat, off: nat, k: nat, c: nat)
    requires Shape(s) && Shape(s1) && i < |s.inodes| && Tidy(s, i, off) && Extends(s, s1) && off / BSIZE < MAXFILE
    requires i < |s1.inodes| && MapsOne(s, s1, i, off / BSIZE) && Mapped(s1, k, c)
    requires OthersSame(s, s1, i)
    ensures k < |s.inodes| && c * BSIZE <= if k == i then off else s.inodes[k].size - 1
  {
    if k == i && c == off / BSIZE {
      assert off / BSIZE * BSIZE <= off;
    } else {
      assert Mapped(s, k, c);
    }
  }

  lemma ZeroBehind(s: Fs, s1: Fs, i: nat, off: nat, k: nat, o: nat)
    requires Shape(s) && Shape(s1) && i < |s.inodes| && Tidy(s, i, off) && Extends(s, s1) && off / BSIZE < MAXFILE
    requires i < |s1.inodes| && MapsOne(s, s1, i, off / BSIZE)
    requires OthersSame(s, s1, i)
    requires !Mapped(s, i, off / BSIZE) ==> BlockAt(s1, i, off / BSIZE) == ZeroBlock()
    requires k < |s.inodes| && SizeWith(s, i, off, k) <= o < MAXFILE * BSIZE && Mapped(s1, k, o / BSIZE)
    ensures ByteAt(s1, k, o) == 0
  {
    if Mapped(s, k, o / BSIZE) {
      assert ByteAt(s, k, o) == 0;
      assert BlockAt(s1, k, o / BSIZE) == BlockAt(s, k, o / BSIZE);
    } else {
      assert k == i && o / BSIZE == off / BSIZE;
    }
  }

  // ---------- the image ----------

  lemma {:induction false} PrefixCount(n: nat, used: nat)
    requires used <= n
    ensures FreeCount(Prefix(n, used)) == n - used
    decreases n - used
  {
    if used < n {
      PrefixCount(n, used + 1);
      FreeUpdate(Prefix(n, used), used);
      assert Prefix(n, used)[used := true] == Prefix(n, used + 1);
    } else {
      FullCount(Prefix(n, n));
    }
  }

  /** What handing out block fbn of file i does to the image. */
  ghost predicate MapResult(s: Fs, s': Fs, i: nat, fbn: nat, x: nat) {
    && Shape(s) && Inv(s', {}) && i < |s.inodes| && i < |s'.inodes| && fbn < MAXFILE
    && Extends(s, s') && MapsOne(s, s', i, fbn) && OthersSame(s, s', i)
    && |s'.inodes| == |s.inodes| && s'.inodes == s.inodes[i := s'.inodes[i]]
    && x == Ref(s', i, DataSlot(fbn)) && x != 0 && (!Mapped(s, i, fbn) ==> BlockAt(s', i, fbn) == ZeroBlock())
  }

  /** A block of an inode has been handed out. */
  lemma LinkedBelow(s: Fs, i: nat, j: nat, used: nat)
    requires Inv(s, {}) && s.used == Prefix(|s.data|, used) && IsSlot(s, i, j) && Ref(s, i, j) != 0
    ensures Ref(s, i, j) < used
  {
  }

  /** Without an indirect block two blocks are needed. */
  lemma MissingIndirect(s: Fs, s1: Fs, i: nat, k: nat, b: nat)
    requires Shape(s) && i < |s.inodes| && k < NINDIRECT && s.inodes[i].addrs[NDIRECT] == 0
    requires Shape(s1) && i < |s1.inodes| && s1.inodes[i].addrs[NDIRECT] == b != 0
    requires forall c: nat :: Mapped(s1, i, c) <==> Mapped(s, i, c)
    ensures Need(s, i, NDIRECT + k) == 2 && Need(s1, i, NDIRECT + k) == 1
  {
  }

  /** The indirect block and then its entry. */
  lemma TwoMaps(s: Fs, s1: Fs, s2: Fs, i: nat, k: nat, x: nat)
    requires Shape(s) && Shape(s1) && i < |s.inodes| && k < NINDIRECT && Extends(s, s1) && OthersSame(s, s1, i)
    requires FreeCount(s1.used) == FreeCount(s.used) - 1 && s.inodes[i].addrs[NDIRECT] == 0
    requires forall c: nat :: Mapped(s1, i, c) <==> Mapped(s, i, c)
    requires MapResult(s1, s2, i, NDIRECT + k, x) && s1.inodes[i].addrs[NDIRECT] != 0
    requires |s1.inodes| == |s.inodes| && s1.inodes == s.inodes[i := s1.inodes[i]]
    ensures MapResult(s, s2, i, NDIRECT + k, x)
  {
    ExtendsTrans(s, s1, s2);
  }

  lemma ChunkFits(o: nat, m: nat)
    requires m <= BSIZE - o % BSIZE
    ensures o / BSIZE < MAXFILE ==> o + m <= MAXFILE * BSIZE
    ensures o / BSIZE >= MAXFILE ==> o >= MAXFILE * BSIZE
  {
  }

  // ---------- how many blocks a file takes ----------

  /** The blocks of a file of n bytes, with its indirect block. */
  function Blocks(n: nat): nat {
    var b := (n + BSIZE - 1) / BSIZE;
    b + if b > NDIRECT then 1 else 0
  }

  lemma BlocksMono(m: nat, n: nat)
    requires m <= n
    ensures Blocks(m) <= Blocks(n)
  {
  }

  lemma {:induction false} AllUnmapped(s: Fs, i: nat, lo: nat, hi: nat)
    requires lo <= hi && forall c: nat :: lo <= c < hi ==> !Mapped(s, i, c)
    ensures Unmapped(s, i, lo, hi) == hi - lo
    decreases hi - lo
  {
    if lo < hi { AllUnmapped(s, i, lo + 1, hi); }
  }

  /** A tidy file without holes has an indirect block exactly when it is long enough. */
  lemma HasIndirect(s: Fs, i: nat)
    requires Valid(s) && Tidy(s, |s.inodes|, 0) && i < |s.inodes|
    ensures s.inodes[i].addrs[NDIRECT] != 0 <==> NDIRECT * BSIZE < s.inodes[i].size
  {
    if NDIRECT * BSIZE < s.inodes[i].size { assert Mapped(s, i, NDIRECT); }
  }

  /** The blocks that its last, partly filled block leaves to be mapped. */
  lemma NewBlocks(s: Fs, i: nat, hi: nat)
    requires Valid(s) && Tidy(s, |s.inodes|, 0) && i < |s.inodes|
    requires s.inodes[i].size / BSIZE < hi
    ensures Unmapped(s, i, s.inodes[i].size / BSIZE, hi) == hi - (s.inodes[i].size + BSIZE - 1) / BSIZE
  {
    var size := s.inodes[i].size;
    var lo := size / BSIZE;
    assert size == SizeWith(s, |s.inodes|, 0, i);
    assert forall c: nat :: Mapped(s, i, c) ==> c * BSIZE < size;
    if size % BSIZE == 0 {
      AllUnmapped(s, i, lo, hi);
    } else {
      assert lo * BSIZE < size;
      assert Mapped(s, i, lo);
      AllUnmapped(s, i, lo + 1, hi);
    }
  }

  /** What appending costs depends on the two sizes only. */
  lemma AppendCost(s: Fs, i: nat, n: nat)
    requires Valid(s) && Tidy(s, |s.inodes|, 0) && i < |s.inodes|
    ensures Shape(s)
    ensures var size := s.inodes[i].size;
      Cost(s, i, size / BSIZE, size / BSIZE + Touched(size, n)) == Blocks(size + n) - Blocks(size)
  {
    var size := s.inodes[i].size;
    var lo := size / BSIZE;
    HasIndirect(s, i);
    if n > 0 { NewBlocks(s, i, lo + Touched(size, n)); }
    hide Valid, Tidy, Mapped;
    assert n > 0 ==> lo + Touched(size, n) == (size + n + BSIZE - 1) / BSIZE;
  }

  // ---------- files and the root directory ----------

  datatype File = File(name: seq<Byte>, bytes: seq<Byte>)

  function Zeros(n: nat): seq<Byte> { seq(n, _ => 0) }

  /** The root directory: ".", "..", and the files from inode 2 on. */
  function Entries(files: seq<File>, n: nat): (r: seq<Byte>)
    requires n <= |files| && n + 2 <= 65536
    ensures |r| == (2 + n) * DIRENT_BYTES
  {
    if n == 0 then Dirent(ROOTINO, [46]) + Dirent(ROOTINO, [46, 46])
    else Entries(files, n - 1) + Dirent(ROOTINO + n, files[n - 1].name)
  }

  /** The blocks taken with file n: what its entry adds to the root directory, and its own. */
  function Added(files: seq<File>, n: nat): int
    requires n < |files|
  {
    Blocks((3 + n) * DIRENT_BYTES) - Blocks((2 + n) * DIRENT_BYTES) + Blocks(|files[n].bytes|)
  }

  /** The blocks of the root directory with n files, and of these files. */
  function Total(files: seq<File>, n: nat): nat
    requires n <= |files|
  {
    Blocks((2 + n) * DIRENT_BYTES) + Bodies(files, n)
  }

  function Bodies(files: seq<File>, n: nat): nat
    requires n <= |files|
  {
    if n == 0 then 0 else Bodies(files, n - 1) + Blocks(|files[n - 1].bytes|)
  }

  lemma TotalStep(files: seq<File>, n: nat)
    requires n < |files|
    ensures Total(files, n + 1) == Total(files, n) + Added(files, n)
  {
  }

  lemma {:induction false} TotalMono(files: seq<File>, n: nat, m: nat)
    requires n <= m <= |files|
    ensures Total(files, n) <= Total(files, m)
    decreases m - n
  {
    if n < m {
      TotalMono(files, n + 1, m);
      BlocksMono((2 + n) * DIRENT_BYTES, (3 + n) * DIRENT_BYTES);
      hide Blocks;
    }
  }

  /** mkfs gets through: enough inodes, no file and no directory too large, enough blocks on
      the disk and in the first bitmap block. */
  ghost predicate Fits(meta: nat, blocks: nat, ninodes: nat, files: seq<File>) {
    && ROOTINO + |files| < ninodes && (2 + |files|) * DIRENT_BYTES <= MAXFILE * BSIZE
    && (forall k :: 0 <= k < |files| ==> |files[k].bytes| <= MAXFILE * BSIZE)
    && meta + Total(files, |files|) <= blocks && meta + Total(files, |files|) < BSIZE * 8
  }

  /** iappend's effect on one file's bytes. */
  lemma AppendIsConcat(s0: Fs, s: Fs, i: nat, xp: seq<Byte>)
    requires Valid(s0) && i < |s0.inodes| && FileWritten(s0, s, i, s0.inodes[i].size, xp)
    ensures Valid(s) && Shape(s) && |s.inodes| == |s0.inodes| && Contents(s, i) == Contents(s0, i) + xp
    ensures s.inodes[i].size == s0.inodes[i].size + |xp|
    ensures forall k :: 0 <= k < |s0.inodes| && k != i ==> Contents(s, k) == Contents(s0, k)
    ensures forall k :: 0 <= k < |s0.inodes| && k != i ==> s.inodes[k].size == s0.inodes[k].size
  {
    var c := Contents(s0, i);
    assert Splice(c, |c|, xp) == c + xp;
    assert |Contents(s, i)| == s.inodes[i].size;
    forall k | 0 <= k < |s0.inodes| && k != i ensures s.inodes[k].size == s0.inodes[k].size {
      assert |Contents(s, k)| == |Contents(s0, k)|;
    }
  }

  /** From s0 to s the bytes part were appended to the empty file i. */
  ghost predicate Copied(s0: Fs, s: Fs, i: nat, part: seq<Byte>) {
    && Valid(s0) && Valid(s) && |s.inodes| == |s0.inodes| && i < |s.inodes|
    && Contents(s, i) == part && s.inodes[i].size == |part|
    && forall k :: 0 <= k < |s.inodes| && k != i ==> Contents(s, k) == Contents(s0, k)
  }

  lemma CopiedMore(s0: Fs, s: Fs, s': Fs, i: nat, bytes: seq<Byte>, pos: nat, cc: nat)
    requires pos + cc <= |bytes| && Copied(s0, s, i, bytes[..pos])
    requires FileWritten(s, s', i, s.inodes[i].size, bytes[pos..pos + cc])
    ensures Copied(s0, s', i, bytes[..pos + cc])
  {
    AppendIsConcat(s, s', i, bytes[pos..pos + cc]);
    assert bytes[..pos] + bytes[pos..pos + cc] == bytes[..pos + cc];
  }

  lemma CopiedAll(s0: Fs, s: Fs, i: nat, bytes: seq<Byte>)
    requires Copied(s0, s, i, bytes)
    ensures Shape(s0) && Shape(s) && Contents(s, i) == bytes
    ensures forall k :: 0 <= k < |s.inodes| && k != i ==> Contents(s, k) == Contents(s0, k)
  {
  }

  /** The image after n files. */
  ghost predicate Built(s: Fs, freeinode: nat, files: seq<File>, n: nat) {
    && Valid(s) && n <= |files| && freeinode == ROOTINO + 1 + n <= |s.inodes| <= 65536
    && Contents(s, ROOTINO) == Entries(files, n)
    && (forall k :: 0 <= k < n ==> Contents(s, ROOTINO + 1 + k) == files[k].bytes)
    && (forall k :: freeinode <= k < |s.inodes| ==> s.inodes[k].size == 0)
  }

  lemma BuiltFacts(s: Fs, freeinode: nat, files: seq<File>, n: nat)
    requires Built(s, freeinode, files, n)
    ensures Valid(s) && Shape(s) && ROOTINO < freeinode <= |s.inodes|
    ensures s.inodes[ROOTINO].size == (2 + n) * DIRENT_BYTES
  {
    assert |Contents(s, ROOTINO)| == s.inodes[ROOTINO].size;
  }

  lemma StartShape(s: Fs, files: seq<File>)
    requires Valid(s) && ROOTINO < |s.inodes|
    ensures Shape(s) && (s.inodes[ROOTINO].size == 0 ==> Contents(s, ROOTINO) == [])
  {
  }

  /** The new entry in the root directory. */
  lemma EntryAdded(s0: Fs, s1: Fs, inum: nat, files: seq<File>, n: nat)
    requires Built(s0, inum, files, n) && n < |files| && inum < |s0.inodes|
    requires FileWritten(s0, s1, ROOTINO, s0.inodes[ROOTINO].size, Dirent(inum, files[n].name))
    ensures Valid(s1) && Shape(s1) && |s1.inodes| == |s0.inodes| && s1.inodes[inum].size == 0
    ensures Contents(s1, ROOTINO) == Entries(files, n + 1)
    ensures forall k :: 0 <= k < |s0.inodes| && k != ROOTINO ==> Contents(s1, k) == Contents(s0, k)
  {
    hide Dirent, Valid;
    AppendIsConcat(s0, s1, ROOTINO, Dirent(inum, files[n].name));
    hide Contents;
  }

  lemma FileAdded(s0: Fs, s1: Fs, s: Fs, inum: nat, files: seq<File>, n: nat)
    requires Built(s0, inum, files, n) && n < |files| && inum < |s0.inodes|
    requires Valid(s1) && Valid(s) && |s.inodes| == |s1.inodes| == |s0.inodes|
    requires Contents(s1, ROOTINO) == Entries(files, n + 1)
    requires forall k :: 0 <= k < |s0.inodes| && k != ROOTINO ==> Contents(s1, k) == Contents(s0, k)
    requires Contents(s, inum) == files[n].bytes
    requires forall k :: 0 <= k < |s.inodes| && k != inum ==> Contents(s, k) == Contents(s1, k)
    ensures Built(s, inum + 1, files, n + 1)
  {
    hide Contents, Entries;
    forall k | inum + 1 <= k < |s.inodes| ensures s.inodes[k].size == 0 {
      assert Contents(s, k) == Contents(s1, k) == Contents(s0, k);
      ContentsSize(s, k);
      ContentsSize(s0, k);
    }
    forall k | 0 <= k < n + 1 ensures Contents(s, ROOTINO + 1 + k) == files[k].bytes {
      if k < n { assert Contents(s1, ROOTINO + 1 + k) == Contents(s0, ROOTINO + 1 + k); }
    }
  }

  lemma ContentsSize(s: Fs, k: nat)
    requires Valid(s) && k < |s.inodes|
    ensures s.inodes[k].size <= MAXFILE * BSIZE && |Contents(s, k)| == s.inodes[k].size
  {
  }

  // ---------- the rounded size ----------

  function Rounded(s: Fs): Fs
    requires ROOTINO < |s.inodes|
  {
    var size := (s.inodes[ROOTINO].size / BSIZE + 1) * BSIZE;
    s.(inodes := s.inodes[ROOTINO := s.inodes[ROOTINO].(size := size)])
  }

  /** Rounding the root directory's size leaves no hole exactly when it was not a multiple
      of the block size; then it adds empty entries. */
  lemma RootRounded(s: Fs)
    requires Valid(s) && Tidy(s, |s.inodes|, 0) && ROOTINO < |s.inodes|
    ensures Shape(Rounded(s)) && |Rounded(s).inodes| == |s.inodes| && Inv(Rounded(s), {})
    ensures Valid(Rounded(s)) <==> s.inodes[ROOTINO].size % BSIZE != 0
    ensures Valid(Rounded(s)) ==>
      Contents(Rounded(s), ROOTINO) ==
      Contents(s, ROOTINO) + Zeros(Rounded(s).inodes[ROOTINO].size - s.inodes[ROOTINO].size)
  {
    var size := s.inodes[ROOTINO].size;
    var s' := Rounded(s);
    SizeOnly(s, ROOTINO, s'.inodes[ROOTINO].size);
    if size % BSIZE == 0 {
      assert size / BSIZE * BSIZE == size < s'.inodes[ROOTINO].size;
      assert !Mapped(s, ROOTINO, size / BSIZE);
    } else {
      RootMapped(s, s');
      RootBytes(s, s');
    }
  }

  lemma RootMapped(s: Fs, s': Fs)
    requires Valid(s) && ROOTINO < |s.inodes| && s' == Rounded(s) && s.inodes[ROOTINO].size % BSIZE != 0
    requires forall k: nat, bn: nat :: Mapped(s', k, bn) <==> Mapped(s, k, bn)
    ensures NoHoles(s')
  {
    forall k: nat, bn: nat | k < |s'.inodes| && bn * BSIZE < s'.inodes[k].size ensures Mapped(s', k, bn) {
      assert bn * BSIZE < s.inodes[k].size;
      assert Mapped(s, k, bn);
    }
  }

  lemma RootBytes(s: Fs, s': Fs)
    requires Valid(s) && Tidy(s, |s.inodes|, 0) && ROOTINO < |s.inodes| && s' == Rounded(s) && Valid(s')
    requires forall k: nat, bn: nat :: Mapped(s', k, bn) <==> Mapped(s, k, bn)
    requires forall k: nat, o: nat {:trigger ByteAt(s', k, o)} ::
      k < |s.inodes| && o < MAXFILE * BSIZE ==> ByteAt(s', k, o) == ByteAt(s, k, o)
    ensures Contents(s', ROOTINO) ==
      Contents(s, ROOTINO) + Zeros(s'.inodes[ROOTINO].size - s.inodes[ROOTINO].size)
  {
    var size, size' := s.inodes[ROOTINO].size, s'.inodes[ROOTINO].size;
    var c := Contents(s, ROOTINO) + Zeros(size' - size);
    forall o: nat | o < size' ensures Contents(s', ROOTINO)[o] == c[o] {
      assert ByteAt(s', ROOTINO, o) == ByteAt(s, ROOTINO, o);
      if o >= size {
        assert o / BSIZE * BSIZE < size';
        assert Mapped(s', ROOTINO, o / BSIZE);
        assert SizeWith(s, |s.inodes|, 0, ROOTINO) <= o;
      }
    }
  }

  /** The root directory has its entries and empty ones up to the end of the last block. */
  ghost predicate RootHolds(s: Fs, files: seq<File>)
    requires Shape(s)
  {
    && ROOTINO < |s.inodes| && |files| + 2 <= 65536
    && |Entries(files, |files|)| <= s.inodes[ROOTINO].size <= MAXFILE * BSIZE && s.inodes[ROOTINO].size % BSIZE == 0
    && Contents(s, ROOTINO) == Entries(files, |files|) + Zeros(s.inodes[ROOTINO].size - |Entries(files, |files|)|)
  }

  // ---------- looking up a file ----------

  /** The name of the k-th entry of the root directory. */
  function EntryName(files: seq<File>, k: nat): seq<Byte>
    requires k < 2 + |files|
  {
    if k == 0 then [46] else if k == 1 then [46, 46] else files[k - 2].name
  }

  lemma {:induction false} EntryAt(files: seq<File>, n: nat, k: nat)
    requires n <= |files| && n + 2 <= 65536 && k < 2 + n
    ensures Entries(files, n)[k * DIRENT_BYTES..(k + 1) * DIRENT_BYTES] ==
            Dirent(if k == 0 then ROOTINO else k, EntryName(files, k))
  {
    hide Dirent;
    if n == 0 {
      var a, b := Dirent(ROOTINO, [46]), Dirent(ROOTINO, [46, 46]);
      assert (a + b)[..DIRENT_BYTES] == a && (a + b)[DIRENT_BYTES..2 * DIRENT_BYTES] == b;
    } else {
      var e, d := Entries(files, n - 1), Dirent(ROOTINO + n, files[n - 1].name);
      if k < 1 + n {
        EntryAt(files, n - 1, k);
        assert (e + d)[k * DIRENT_BYTES..(k + 1) * DIRENT_BYTES] == e[k * DIRENT_BYTES..(k + 1) * DIRENT_BYTES];
      } else {
        assert (e + d)[k * DIRENT_BYTES..(k + 1) * DIRENT_BYTES] == d;
      }
    }
  }

  /** Entry k is the first one with that name; entries 0 and 1 are "." and "..". */
  ghost predicate FirstNamed(files: seq<File>, name: seq<Byte>, k: nat) {
    && k < 2 + |files| && SameName(name, EntryName(files, k))
    && forall j: nat {:trigger EntryName(files, j)} :: j < k ==> !SameName(name, EntryName(files, j))
  }

  /** What entry j of a root directory c leads to for that name. */
  ghost predicate EntryOk(c: seq<Byte>, files: seq<File>, name: seq<Byte>, j: nat)
    requires (j + 1) * DIRENT_BYTES <= |c|
  {
    if j < 2 + |files| then
      Inum(c, j) == (if j == 0 then ROOTINO else j) && (Matches(c, j, name) <==> SameName(name, EntryName(files, j)))
    else !Matches(c, j, name)
  }

  lemma RootEntry(files: seq<File>, z: nat, k: nat, name: seq<Byte>)
    requires |files| + 2 <= 65536
    requires (k + 1) * DIRENT_BYTES <= (2 + |files|) * DIRENT_BYTES + z
    ensures EntryOk(Entries(files, |files|) + Zeros(z), files, name, k)
  {
    hide SameUpTo, Dirent, Entries;
    var e := Entries(files, |files|);
    if k < 2 + |files| {
      EntryAt(files, |files|, k);
      Prefixed(e, Zeros(z), k);
      DirentFields(e + Zeros(z), k, if k == 0 then ROOTINO else k, EntryName(files, k));
    } else {
      ZeroEntry(e, z, k);
    }
  }

  lemma Prefixed(e: seq<Byte>, z: seq<Byte>, k: nat)
    requires (k + 1) * DIRENT_BYTES <= |e|
    ensures (e + z)[k * DIRENT_BYTES..(k + 1) * DIRENT_BYTES] == e[k * DIRENT_BYTES..(k + 1) * DIRENT_BYTES]
  {
  }

  lemma ZeroEntry(e: seq<Byte>, z: nat, k: nat)
    requires |e| <= k * DIRENT_BYTES && (k + 1) * DIRENT_BYTES <= |e| + z
    ensures Inum(e + Zeros(z), k) == 0
  {
  }

  /** A lookup in the root directory finds the first file with that name, as far as names are
      told apart by their first DIRSIZ bytes, and no other name. */
  lemma RootLookup(files: seq<File>, z: nat, k: nat, name: seq<Byte>)
    requires |files| + 2 <= 65536
    ensures var c := Entries(files, |files|) + Zeros(z);
      && (FoundAt(c, k, name) <==> FirstNamed(files, name, k))
      && (FoundAt(c, k, name) ==> Inum(c, k) == if k == 0 then ROOTINO else k)
      && (NotFound(c, name) <==> forall j: nat :: !FirstNamed(files, name, j))
  {
    hide SameUpTo, Dirent, Entries, Matches, Inum, EntryOk;
    var c := Entries(files, |files|) + Zeros(z);
    forall j: nat | (j + 1) * DIRENT_BYTES <= |c| ensures EntryOk(c, files, name, j) { RootEntry(files, z, j, name); }
    LookupTable(c, files, name, k);
    if NotFound(c, name) {
      forall j: nat ensures !FirstNamed(files, name, j) {
        LookupTable(c, files, name, j);
        NoneFound(c, name);
      }
    } else {
      var j := FirstMatch(c, |c| / DIRENT_BYTES, name);
      LookupTable(c, files, name, j);
    }
  }

  lemma LookupTable(c: seq<Byte>, files: seq<File>, name: seq<Byte>, k: nat)
    requires |c| >= (2 + |files|) * DIRENT_BYTES
    requires forall j: nat {:trigger EntryOk(c, files, name, j)} :: (j + 1) * DIRENT_BYTES <= |c| ==>
      EntryOk(c, files, name, j)
    ensures FoundAt(c, k, name) <==> FirstNamed(files, name, k)
    ensures FoundAt(c, k, name) ==> Inum(c, k) == if k == 0 then ROOTINO else k
  {
    hide SameUpTo, Matches, Inum;
    if (k + 1) * DIRENT_BYTES <= |c| { assert EntryOk(c, files, name, k); }
    if FoundAt(c, k, name) {
      forall j: nat | j < k ensures !SameName(name, EntryName(files, j)) {
        assert EntryOk(c, files, name, j) && !Matches(c, j, name);
      }
    }
    if FirstNamed(files, name, k) {
      forall j: nat | j < k ensures !Matches(c, j, name) {
        assert EntryOk(c, files, name, j) && !SameName(name, EntryName(files, j));
      }
    }
  }

  /** The least index that matches. */
  lemma {:induction false} FirstMatch(c: seq<Byte>, n: nat, name: seq<Byte>) returns (k: nat)
    requires n * DIRENT_BYTES <= |c| && !NoneBefore(c, n, name)
    ensures k < n && FoundAt(c, k, name)
  {
    hide Matches;
    if NoneBefore(c, n - 1, name) {
      k := n - 1;
    } else {
      k := FirstMatch(c, n - 1, name);
    }
  }

  lemma RootKept(s: Fs, freeinode: nat, files: seq<File>)
    requires Built(s, freeinode, files, |files|) && Tidy(s, |s.inodes|, 0) && Valid(Rounded(s))
    ensures RootHolds(Rounded(s), files)
  {
    RootRounded(s);
    BuiltFacts(s, freeinode, files, |files|);
  }

  /** Every file has its bytes. */
  ghost predicate FilesHold(s: Fs, files: seq<File>)
    requires Shape(s) && ROOTINO + |files| < |s.inodes|
  {
    forall k {:trigger files[k]} :: 0 <= k < |files| ==>
      s.inodes[ROOTINO + 1 + k].size <= MAXFILE * BSIZE && Contents(s, ROOTINO + 1 + k) == files[k].bytes
  }

  lemma FilesKept(s: Fs, freeinode: nat, files: seq<File>)
    requires Built(s, freeinode, files, |files|)
    ensures Shape(Rounded(s)) && FilesHold(Rounded(s), files)
  {
    var s' := Rounded(s);
    SizeOnly(s, ROOTINO, s'.inodes[ROOTINO].size);
    forall k | 0 <= k < |files| ensures Contents(s', ROOTINO + 1 + k) == files[k].bytes {
      var i := ROOTINO + 1 + k;
      var c, c' := Contents(s, i), Contents(s', i);
      forall o: nat | o < |c| ensures c'[o] == c[o] {
        assert ByteAt(s', i, o) == ByteAt(s, i, o);
      }
      assert c' == c;
    }
  }

  class Image {
    const meta: nat
    var freeblock: nat
    var freeinode: nat
    var data: seq<Block>
    var inodes: seq<Inode>

    /** What the kernel would find if the bitmap were written now. */
    ghost function S(): Fs
      reads this
    {
      Fs(meta, Prefix(|data|, freeblock), data, inodes)
    }

    /** Blocks not handed out are zero, and so are inodes. */
    ghost predicate Unwritten()
      reads this
    {
      && meta <= freeblock <= |data| && freeinode <= |inodes| <= 65536
      && (forall b :: freeblock <= b < |data| ==> data[b] == ZeroBlock())
      && (forall i :: freeinode <= i < |inodes| ==> inodes[i] == NoInode())
    }

    ghost predicate Growing()
      reads this
    {
      Valid(S()) && Unwritten() && Tidy(S(), |inodes|, 0)
    }

    /** An image of zeroes; inode 0 is not used. */
    constructor (meta: nat, blocks: nat, ninodes: nat)
      requires 0 < meta <= blocks <= UINT_RANGE && 0 < ninodes <= 65536
      ensures Growing() && this.meta == meta && |data| == blocks && |inodes| == ninodes && freeinode == ROOTINO
      ensures freeblock == meta
    {
      this.meta, freeblock, freeinode := meta, meta, ROOTINO;
      data := seq(blocks, _ => ZeroBlock());
      inodes := seq(ninodes, _ => NoInode());
      new;
      EmptyImage(S());
    }

    static lemma EmptyImage(s: Fs)
      requires Shape(s) && s.used == Prefix(|s.data|, s.meta) && forall i :: 0 <= i < |s.inodes| ==>
        s.inodes[i] == NoInode()
      ensures Valid(s) && Tidy(s, |s.inodes|, 0)
    {
    }

    /** ialloc. None stands for running past the inode blocks, which mkfs does not notice. */
    method Ialloc() returns (inum: Option<nat>)
      requires Growing()
      modifies this`freeinode
      ensures Growing() && (inum == None <==> old(freeinode) == |inodes|)
      ensures inum == None ==> freeinode == old(freeinode)
      ensures inum.Some? ==> inum.value == old(freeinode) == freeinode - 1 && inodes[inum.value] == NoInode()
    {
      if freeinode == |inodes| {
        return None;
      }
      inum := Some(freeinode);
      freeinode := freeinode + 1;
    }

    /** The next free block; None stands for running past the disk, which mkfs does not
        notice. */
    method TakeBlock() returns (b: Option<nat>)
      requires Inv(S(), {}) && Unwritten()
      modifies this`freeblock
      ensures Unwritten() && (b == None <==> old(freeblock) == |data|)
      ensures b == None ==> freeblock == old(freeblock)
      ensures b.Some? ==> freeblock == old(freeblock) + 1
      ensures b.Some? ==> b.value == old(freeblock) && Fresh(old(S()), S(), b.value)
    {
      if freeblock == |data| {
        return None;
      }
      ghost var s := S();
      b := Some(freeblock);
      freeblock := freeblock + 1;
      Taken(s, S(), b.value);
    }

    static lemma Taken(s: Fs, s': Fs, b: nat)
      requires Inv(s, {}) && s.meta <= b < |s.data| && s.data[b] == ZeroBlock() && s.used == Prefix(|s.data|, b)
      requires s' == s.(used := Prefix(|s.data|, b + 1))
      ensures Fresh(s, s', b)
    {
      assert s.used[b := true] == s'.used && s.data[b := ZeroBlock()] == s.data;
      assert AllocBlock(s, b) == s';
      AllocKeeps(s, {}, b);
      AllocExtends(s, {}, b);
      FreeUpdate(s.used, b);
      assert {} + {b} == {b};
    }

    /** Block fbn of file i, handed out if it does not exist. */
    method MapBlock(i: nat, fbn: nat) returns (x: Option<nat>)
      requires Inv(S(), {}) && Unwritten() && i < freeinode && fbn < MAXFILE
      modifies this`freeblock, this`data, this`inodes
      ensures |data| == old(|data|) && (x == None <==> old(|data| - freeblock < Need(S(), i, fbn)))
      ensures x.Some? ==> MapResult(old(S()), S(), i, fbn, x.value) && Unwritten()
    {
      if fbn < NDIRECT {
        x := MapDirect(i, fbn);
      } else {
        x := MapIndirect(i, fbn - NDIRECT);
      }
    }

    method MapDirect(i: nat, fbn: nat) returns (x: Option<nat>)
      requires Inv(S(), {}) && Unwritten() && i < freeinode && fbn < NDIRECT
      modifies this`freeblock, this`data, this`inodes
      ensures |data| == old(|data|) && (x == None <==> old(|data| - freeblock < Need(S(), i, fbn)))
      ensures x.Some? ==> MapResult(old(S()), S(), i, fbn, x.value) && Unwritten()
    {
      ghost var s := S();
      if inodes[i].addrs[fbn] != 0 {
        Unchanged(s, i, fbn);
        return Some(inodes[i].addrs[fbn]);
      }
      x := TakeBlock();
      if x.Some? {
        DirectLinked(s, S(), i, fbn, x.value);
        inodes := inodes[i := inodes[i].(addrs := inodes[i].addrs[fbn := x.value])];
      }
    }

    static lemma Unchanged(s: Fs, i: nat, bn: nat)
      requires Inv(s, {}) && Mapped(s, i, bn)
      ensures MapResult(s, s, i, bn, Ref(s, i, DataSlot(bn)))
    {
    }

    method MapIndirect(i: nat, k: nat) returns (x: Option<nat>)
      requires Inv(S(), {}) && Unwritten() && i < freeinode && k < NINDIRECT
      modifies this`freeblock, this`data, this`inodes
      ensures |data| == old(|data|) && (x == None <==> old(|data| - freeblock < Need(S(), i, NDIRECT + k)))
      ensures x.Some? ==> MapResult(old(S()), S(), i, NDIRECT + k, x.value) && Unwritten()
    {
      ghost var s := S();
      assert IsSlot(s, i, NDIRECT);
      if inodes[i].addrs[NDIRECT] != 0 {
        x := MapEntry(i, k);
        return;
      }
      var a := TakeIndirect(i);
      if a == None {
        assert Need(s, i, NDIRECT + k) == 2;
        return None;
      }
      ghost var s1 := S();
      MissingIndirect(s, s1, i, k, a.value);
      hide Extends, Mapped, MapsOne, Inv, Need;
      x := MapEntry(i, k);
      if x.Some? {
        TwoMaps(s, s1, S(), i, k, x.value);
      }
    }

    method TakeIndirect(i: nat) returns (a: Option<nat>)
      requires Inv(S(), {}) && Unwritten() && i < freeinode && inodes[i].addrs[NDIRECT] == 0
      modifies this`freeblock, this`inodes
      ensures Unwritten() && (a == None <==> old(freeblock) == |data|)
      ensures a == None ==> freeblock == old(freeblock)
      ensures a.Some? ==> freeblock == old(freeblock) + 1 && i < |inodes| && Inv(S(), {}) && Extends(old(S()), S())
      ensures a.Some? ==> 0 < a.value < |data| && inodes[i].addrs[NDIRECT] == a.value && OthersSame(old(S()), S(), i)
      ensures a.Some? ==> FreeCount(S().used) == FreeCount(old(S()).used) - 1 && inodes == old(inodes)[i := inodes[i]]
      ensures a.Some? ==> forall c: nat :: Mapped(S(), i, c) <==> Mapped(old(S()), i, c)
    {
      ghost var s := S();
      a := TakeBlock();
      if a.Some? {
        IndirectLinked(s, S(), i, a.value);
        inodes := inodes[i := inodes[i].(addrs := inodes[i].addrs[NDIRECT := a.value])];
      }
    }

    method MapEntry(i: nat, k: nat) returns (x: Option<nat>)
      requires Inv(S(), {}) && Unwritten() && i < freeinode && k < NINDIRECT && 0 < inodes[i].addrs[NDIRECT] < |data|
      modifies this`freeblock, this`data
      ensures |data| == old(|data|) && (x == None <==> old(|data| - freeblock < Need(S(), i, NDIRECT + k)))
      ensures x.Some? ==> MapResult(old(S()), S(), i, NDIRECT + k, x.value) && Unwritten()
    {
      hide Inv, Ref, Extends, MapsOne, Need, Mapped, GetWord, PutWord;
      ghost var s := S();
      EntryFacts(s, i, k);
      var ind := inodes[i].addrs[NDIRECT];
      var indirect := data[ind];
      if GetWord(indirect, k) != 0 {
        return Some(GetWord(indirect, k));
      }
      x := TakeBlock();
      if x.Some? {
        EntryLinked(s, S(), i, k, x.value);
        LinkedBelow(s, i, NDIRECT, freeblock - 1);
        data := data[ind := PutWord(indirect, k, x.value)];
      }
    }

    /** One round of iappend's loop. */
    method AppendChunk(i: nat, off: nat, chunk: seq<Byte>) returns (ok: bool)
      requires Inv(S(), {}) && Unwritten() && i < freeinode && Tidy(S(), i, off)
      requires off / BSIZE < MAXFILE && off % BSIZE + |chunk| <= BSIZE && |chunk| > 0
      modifies this`freeblock, this`data, this`inodes
      ensures |data| == old(|data|) && (ok <==> old(|data| - freeblock >= Need(S(), i, off / BSIZE)))
      ensures ok ==> Inv(S(), {}) && Unwritten() && |inodes| == old(|inodes|)
      ensures ok ==> Shape(old(S())) && Shape(S()) && MapsOne(old(S()), S(), i, off / BSIZE)
      ensures ok ==> Chunked(old(S()), S(), i, off, chunk) && Tidy(S(), i, off + |chunk|)
    {
      ghost var s := S();
      var x := MapBlock(i, off / BSIZE);
      if x == None {
        return false;
      }
      ghost var s1 := S();
      ChunkedBy(s, s1, i, off, chunk);
      TidyStep(s, s1, i, off, chunk);
      PatchMaps(s, s1, i, off / BSIZE, Patch(s1.data[x.value], off % BSIZE, chunk));
      assert IsSlot(s1, i, DataSlot(off / BSIZE));
      LinkedBelow(s1, i, DataSlot(off / BSIZE), freeblock);
      hide Inv, Chunked, Tidy, MapsOne, Extends, Mapped;
      data := data[x.value := Patch(data[x.value], off % BSIZE, chunk)];
      return true;
    }

    /** What holds between the rounds, tot bytes into xp. */
    ghost predicate Appending(s0: Fs, i: nat, off: nat, xp: seq<Byte>, tot: nat)
      reads this
    {
      && Valid(s0) && i < |s0.inodes| && off == s0.inodes[i].size && tot <= |xp|
      && Inv(S(), {}) && Unwritten() && i < freeinode && |inodes| == |s0.inodes| && |data| == |s0.data|
      && Tidy(S(), i, off + tot)
      && (tot > 0 ==> off + tot <= MAXFILE * BSIZE) && (0 < tot < |xp| ==> (off + tot) % BSIZE == 0)
      && Covered(s0, S(), i, off, tot) && (off + |xp| <= MAXFILE * BSIZE ==> Written(s0, S(), i, off, xp, tot))
    }

    lemma AppendShapes(s0: Fs, i: nat, off: nat, xp: seq<Byte>, tot: nat)
      requires Appending(s0, i, off, xp, tot)
      ensures Shape(s0) && Shape(S()) && freeblock <= |data| && FreeCount(S().used) == |data| - freeblock
    {
      PrefixCount(|data|, freeblock);
    }

    method AppendRound(i: nat, off: nat, xp: seq<Byte>, tot: nat, ghost s0: Fs) returns (ok: bool, m: nat)
      requires Appending(s0, i, off, xp, tot) && tot < |xp|
      modifies this`freeblock, this`data, this`inodes
      ensures m == ChunkLen(off, tot, |xp|)
      ensures ok ==> Appending(s0, i, off, xp, tot + m)
      ensures !ok ==> off + |xp| > MAXFILE * BSIZE || Lacking(s0, i, off, |xp|)
    {
      hide Tidy, Chunked, MapsOne, Written, Covered, Need, Valid, FreeCount, Lacking;
      hide ChunkLen, Inv, Unwritten, Shape;
      AppendShapes(s0, i, off, xp, tot);
      m := ChunkLen(off, tot, |xp|);
      var fbn := (off + tot) / BSIZE;
      ChunkFits(off + tot, m);
      if fbn >= MAXFILE {
        return false, m;
      }
      ghost var s := S();
      ok := AppendChunk(i, off + tot, xp[tot..tot + m]);
      if ok {
        CoveredStep(s0, s, S(), i, off, |xp|, tot);
        if off + |xp| <= MAXFILE * BSIZE { WriteStep(s0, s, S(), i, off, xp, tot, m); }
      } else {
        OutOfBlocks(s0, s, i, off, |xp|, tot);
      }
    }

    /** iappend. False is the failed assertion on the file size, or running past the disk. */
    method Iappend(i: nat, xp: seq<Byte>) returns (ok: bool)
      requires Growing() && i < freeinode
      modifies this`freeblock, this`data, this`inodes
      ensures ok <==> old(inodes[i].size) + |xp| <= MAXFILE * BSIZE &&
                      old(freeblock) + Blocks(old(inodes[i].size) + |xp|) - Blocks(old(inodes[i].size)) <= old(|data|)
      ensures ok ==> Growing() && |inodes| == old(|inodes|) && |data| == old(|data|)
      ensures ok ==> freeblock == old(freeblock) + Blocks(old(inodes[i].size) + |xp|) - Blocks(old(inodes[i].size))
      ensures ok ==> FileWritten(old(S()), S(), i, old(inodes[i].size), xp)
    {
      hide Appending, ChunkLen, Valid, FileWritten, Tidy, Lacking, Inv;
      ghost var s0 := S();
      var off := inodes[i].size;
      var tot := 0;
      AppendStart(i, xp);
      AppendNeeds(i, |xp|);
      while tot < |xp|
        invariant 0 <= tot <= |xp| && Appending(s0, i, off, xp, tot)
        decreases |xp| - tot
      {
        var m;
        ok, m := AppendRound(i, off, xp, tot, s0);
        if !ok {
          return;
        }
        tot := tot + m;
        AppendFacts(s0, i, off, xp, tot);
      }
      AppendDone(s0, i, off, xp);
      AppendFacts(s0, i, off, xp, tot);
      AppendTook(s0, i, off, xp);
      inodes := inodes[i := inodes[i].(size := off + |xp|)];
      ok := true;
    }

    lemma AppendStart(i: nat, xp: seq<Byte>)
      requires Growing() && i < freeinode
      ensures Shape(S()) && Appending(S(), i, inodes[i].size, xp, 0)
    {
      WriteStart(S(), i, inodes[i].size, xp);
      CoveredNone(S(), i, inodes[i].size);
      forall k: nat | k < |inodes| ensures SizeWith(S(), i, inodes[i].size, k) == SizeWith(S(), |inodes|, 0, k) { }
    }

    /** Lacking in terms of the two sizes. */
    lemma AppendNeeds(i: nat, n: nat)
      requires Growing() && i < freeinode
      ensures i < |inodes| && Shape(S()) && FreeCount(S().used) == |data| - freeblock
      ensures Cost(S(), i, inodes[i].size / BSIZE, inodes[i].size / BSIZE + Touched(inodes[i].size, n)) ==
              Blocks(inodes[i].size + n) - Blocks(inodes[i].size)
      ensures Lacking(S(), i, inodes[i].size, n) <==>
        freeblock + Blocks(inodes[i].size + n) - Blocks(inodes[i].size) > |data|
    {
      PrefixCount(|data|, freeblock);
      AppendCost(S(), i, n);
      hide Cost, Blocks, FreeCount;
    }

    /** The blocks taken are the ones needed. */
    lemma AppendTook(s0: Fs, i: nat, off: nat, xp: seq<Byte>)
      requires Appending(s0, i, off, xp, |xp|)
      ensures Shape(s0) && |data| - freeblock + Cost(s0, i, off / BSIZE, off / BSIZE + Touched(off, |xp|)) ==
                           FreeCount(s0.used)
    {
      PrefixCount(|data|, freeblock);
      hide Cost, Touched, FreeCount, Tidy, Inv, Valid;
    }

    lemma AppendFacts(s0: Fs, i: nat, off: nat, xp: seq<Byte>, tot: nat)
      requires Appending(s0, i, off, xp, tot)
      ensures tot <= |xp| && i < freeinode && Unwritten() && |inodes| == |s0.inodes| && |data| == |s0.data|
    {
    }

    lemma AppendDone(s0: Fs, i: nat, off: nat, xp: seq<Byte>)
      requires Appending(s0, i, off, xp, |xp|)
      ensures i < |inodes| && off + |xp| <= MAXFILE * BSIZE && !Lacking(s0, i, off, |xp|)
      ensures var s := S().(inodes := inodes[i := inodes[i].(size := off + |xp|)]);
        Shape(s) && FileWritten(s0, s, i, off, xp) && Valid(s) && Tidy(s, |inodes|, 0)
    {
      hide Inv, Tidy, Written, Covered, Unwritten, Lacking, Valid, Shape, NoHoles, Contents;
      EndedFacts(s0, i, off, xp);
      CoveredFacts(s0, S(), i, off, |xp|);
      WrittenSizes(s0, S(), i, off, xp);
      WriteDone(s0, S(), i, off, xp);
      ValidShape(S().(inodes := inodes[i := inodes[i].(size := off + |xp|)]));
      SizeOnly(S(), i, off + |xp|);
      TidySize(S(), i, off + |xp|);
    }

    lemma EndedFacts(s0: Fs, i: nat, off: nat, xp: seq<Byte>)
      requires Appending(s0, i, off, xp, |xp|)
      ensures off + |xp| <= MAXFILE * BSIZE && Shape(s0) && Shape(S()) && Valid(s0)
      ensures i < |s0.inodes| && i < |inodes| && off == s0.inodes[i].size
    {
    }

    static lemma TidySize(s: Fs, i: nat, end: nat)
      requires Inv(s, {}) && i < |s.inodes| && Tidy(s, i, end)
      ensures var s' := s.(inodes := s.inodes[i := s.inodes[i].(size := end)]); Shape(s') && Tidy(s', |s.inodes|, 0)
    {
      SizeOnly(s, i, end);
      var s' := s.(inodes := s.inodes[i := s.inodes[i].(size := end)]);
      forall k: nat | k < |s.inodes| ensures SizeWith(s', |s.inodes|, 0, k) == SizeWith(s, i, end, k) { }
      forall k: nat, o: nat
        | k < |s'.inodes| && SizeWith(s', |s.inodes|, 0, k) <= o < MAXFILE * BSIZE && Mapped(s', k, o / BSIZE)
        ensures ByteAt(s', k, o) == 0
      {
        assert ByteAt(s', k, o) == ByteAt(s, k, o) && Mapped(s, k, o / BSIZE);
      }
    }

    /** The loop of main that copies one file, read in blocks. */
    method AppendFile(i: nat, bytes: seq<Byte>) returns (ok: bool)
      requires Growing() && i < freeinode && inodes[i].size == 0
      modifies this`freeblock, this`data, this`inodes
      ensures ok <==> |bytes| <= MAXFILE * BSIZE && old(freeblock) + Blocks(|bytes|) <= old(|data|)
      ensures ok ==> Growing() && |inodes| == old(|inodes|) && Contents(S(), i) == bytes
      ensures ok ==> |data| == old(|data|) && freeblock == old(freeblock) + Blocks(|bytes|)
      ensures ok ==> forall k :: 0 <= k < |inodes| && k != i ==> Contents(S(), k) == old(Contents(S(), k))
    {
      hide Valid, Tidy, FileWritten, Unwritten, Inv, Contents, Blocks;
      ghost var s0 := S();
      AppendReady(i);
      var pos := 0;
      while pos < |bytes|
        invariant 0 <= pos <= |bytes| && Growing() && |inodes| == |s0.inodes| && i < freeinode
        invariant Copied(s0, S(), i, bytes[..pos]) && pos <= MAXFILE * BSIZE
        invariant |data| == |s0.data| && freeblock == old(freeblock) + Blocks(pos) <= |data|
        decreases |bytes| - pos
      {
        var cc := if |bytes| - pos < BSIZE then |bytes| - pos else BSIZE;
        ghost var s := S();
        AppendShape(s);
        BlocksMono(pos + cc, |bytes|);
        ok := Iappend(i, bytes[pos..pos + cc]);
        if !ok {
          return;
        }
        CopiedMore(s0, s, S(), i, bytes, pos, cc);
        pos := pos + cc;
      }
      assert bytes[..pos] == bytes;
      CopiedAll(s0, S(), i, bytes);
      ok := true;
    }

    lemma AppendReady(i: nat)
      requires Growing() && i < freeinode && inodes[i].size == 0
      ensures i < |inodes| && Copied(S(), S(), i, []) && Blocks(0) == 0 && freeblock <= |data|
    {
    }

    static lemma AppendShape(s: Fs)
      requires Valid(s)
      ensures Shape(s)
    {
    }

    /** One trip round main's loop: a new inode, its entry in the root directory, its bytes. */
    method AddFile(files: seq<File>, n: nat) returns (ok: bool)
      requires Growing() && Built(S(), freeinode, files, n) && n < |files|
      modifies this`freeblock, this`freeinode, this`data, this`inodes
      ensures ok <==> old(freeinode < |inodes|) && (3 + n) * DIRENT_BYTES <= MAXFILE * BSIZE &&
                      |files[n].bytes| <= MAXFILE * BSIZE && old(freeblock) + Added(files, n) <= old(|data|)
      ensures ok ==> Growing() && Built(S(), freeinode, files, n + 1)
      ensures ok ==> |data| == old(|data|) && |inodes| == old(|inodes|) && freeblock == old(freeblock) + Added(files, n)
    {
      hide Valid, Tidy, Unwritten, Inv, Contents, FileWritten, Entries, Blocks;
      ghost var s0 := S();
      BlocksMono((2 + n) * DIRENT_BYTES, (3 + n) * DIRENT_BYTES);
      BuiltFacts(s0, freeinode, files, n);
      var inum := Ialloc();
      if inum == None {
        return false;
      }
      InodesFit();
      ok := Iappend(ROOTINO, Dirent(inum.value, files[n].name));
      if !ok {
        return;
      }
      ghost var s1 := S();
      EntryAdded(s0, s1, freeinode - 1, files, n);
      ok := AppendFile(inum.value, files[n].bytes);
      if ok {
        FileAdded(s0, s1, S(), inum.value, files, n);
      }
    }

    lemma InodesFit()
      requires Growing()
      ensures freeinode <= |inodes| <= 65536
    {
    }

    /** "fix size of root inode dir": up to the next multiple of the block size, and one
        block more if the size is a multiple already. */
    method FixRootSize()
      requires ROOTINO < |inodes|
      modifies this`inodes
      ensures |inodes| == old(|inodes|) && S() == Rounded(old(S()))
    {
      var off := inodes[ROOTINO].size;
      off := (off / BSIZE + 1) * BSIZE;
      inodes := inodes[ROOTINO := inodes[ROOTINO].(size := off)];
    }
  }

  /** mkfs with the given files. False is a failed assertion, or running past the disk or
      the inodes. */
  method Make(meta: nat, blocks: nat, ninodes: nat, files: seq<File>) returns (img: Image, ok: bool)
    requires 0 < meta <= blocks <= UINT_RANGE && 0 < ninodes <= 65536
    ensures fresh(img) && (ok <==> Fits(meta, blocks, ninodes, files))
    ensures ok ==> Shape(img.S()) && ROOTINO + |files| < |img.inodes| && FilesHold(img.S(), files)
    ensures ok ==> (Valid(img.S()) <==> (2 + |files|) * DIRENT_BYTES % BSIZE != 0)
    ensures ok && Valid(img.S()) ==> RootHolds(img.S(), files)
  {
    hide Valid, Tidy, Inv, Contents, FileWritten, Entries, Rounded, Blocks, Total, Added;
    img := new Image(meta, blocks, ninodes);
    TotalMono(files, 0, |files|);
    ok := Start(img, files);
    if !ok {
      return;
    }
    var n := 0;
    while n < |files|
      invariant 0 <= n <= |files| && img.Growing() && Built(img.S(), img.freeinode, files, n)
      invariant fresh(img) && |img.data| == blocks && |img.inodes| == ninodes
      invariant img.freeblock == meta + Total(files, n) && (2 + n) * DIRENT_BYTES <= MAXFILE * BSIZE
      invariant forall k :: 0 <= k < n ==> |files[k].bytes| <= MAXFILE * BSIZE
    {
      BuiltFacts(img.S(), img.freeinode, files, n);
      TotalStep(files, n);
      TotalMono(files, n + 1, |files|);
      ok := img.AddFile(files, n);
      if !ok {
        return;
      }
      n := n + 1;
    }
    ghost var s := img.S();
    BuiltFacts(s, img.freeinode, files, n);
    RootRounded(s);
    FilesKept(s, img.freeinode, files);
    if Valid(Rounded(s)) { RootKept(s, img.freeinode, files); }
    img.FixRootSize();
    ok := img.freeblock < BSIZE * 8;
  }

  /** The root directory with its two first entries. */
  method Start(img: Image, files: seq<File>) returns (ok: bool)
    requires img.Growing() && img.freeinode == ROOTINO && |img.inodes| > 0
    modifies img`freeblock, img`freeinode, img`data, img`inodes
    ensures ok <==> old(ROOTINO < |img.inodes|) && old(img.freeblock) + Total(files, 0) <= old(|img.data|)
    ensures ok ==> img.Growing() && Built(img.S(), img.freeinode, files, 0)
    ensures ok ==> |img.data| == old(|img.data|) && |img.inodes| == old(|img.inodes|)
    ensures ok ==> img.freeblock == old(img.freeblock) + Total(files, 0)
  {
    hide Valid, Tidy, Inv, FileWritten;
    assert Blocks(0) == 0 && Blocks(DIRENT_BYTES) == 1 && Blocks(2 * DIRENT_BYTES) == 1;
    hide Blocks;
    var root := img.Ialloc();
    if root == None {
      return false;
    }
    ghost var s0 := img.S();
    StartShape(s0, files);
    ok := img.Iappend(ROOTINO, Dirent(ROOTINO, [46]));
    if !ok {
      return;
    }
    ghost var s1 := img.S();
    AppendIsConcat(s0, s1, ROOTINO, Dirent(ROOTINO, [46]));
    ok := img.Iappend(ROOTINO, Dirent(ROOTINO, [46, 46]));
    if ok {
      AppendIsConcat(s1, img.S(), ROOTINO, Dirent(ROOTINO, [46, 46]));
    }
  }

  /** The kernel starts on an image: superblock and bitmap as mkfs wrote them. */
  method Mount(img: Image, bmapstart: nat, inodestart: nat) returns (fs: FileSystem)
    ensures fresh(fs) && fs.S() == img.S()
  {
    fs := new FileSystem(Fs(img.meta, Prefix(|img.data|, img.freeblock), img.data, img.inodes), bmapstart, inodestart);
  }

  /** What mkfs was given, the kernel reads: bytes off up to off + n of file k, as far as the
      file goes. */
  method ReadBack(meta: nat, blocks: nat, ninodes: nat, files: seq<File>, k: nat, off: nat, n: nat)
    returns (r: Option<int>, dst: seq<Byte>)
    requires 0 < meta <= blocks <= UINT_RANGE && 0 < ninodes <= 65536 && k < |files|
    requires (2 + |files|) * DIRENT_BYTES % BSIZE != 0 && off + n < UINT_RANGE
    ensures r.Some? <==> Fits(meta, blocks, ninodes, files)
    ensures r.Some? ==>
      var bytes := files[k].bytes;
      if off > |bytes| then r == Some(-1)
      else var end := if off + n > |bytes| then |bytes| else off + n; r == Some(end - off) && dst == bytes[off..end]
  {
    var img, ok := Make(meta, blocks, ninodes, files);
    if !ok {
      return None, [];
    }
    var fs := Mount(img, 2 + LOGSIZE + ninodes / IPB + 1, 2 + LOGSIZE);
    ContentsSize(fs.S(), ROOTINO + 1 + k);
    hide Valid, Contents, Fits;
    var c;
    c, dst := fs.Readi(ROOTINO + 1 + k, off, n, n);
    r := Some(c);
  }

  /** The file that a name leads to in a fresh image: dirlookup in the root directory, and readi
      of all of it. Both names and bytes are those given to mkfs, and no other name is found. */
  method ReadNamed(meta: nat, blocks: nat, ninodes: nat, files: seq<File>, name: seq<Byte>)
    returns (ok: bool, found: Lookup, dst: seq<Byte>)
    requires 0 < meta <= blocks <= UINT_RANGE && 0 < ninodes <= 65536
    requires (2 + |files|) * DIRENT_BYTES % BSIZE != 0
    ensures ok <==> Fits(meta, blocks, ninodes, files)
    ensures ok ==>
      match found
      case At(inum, off) =>
        var k := off / DIRENT_BYTES;
        FirstNamed(files, name, k) && inum == (if k == 0 then ROOTINO else k) && (k >= 2 ==> dst == files[k - 2].bytes)
      case Absent => forall k: nat :: !FirstNamed(files, name, k)
      case Panic => false
  {
    hide Valid, Fits, Entries, Contents, FirstNamed, FoundAt, NotFound, SameUpTo, Inum;
    var img;
    img, ok := Make(meta, blocks, ninodes, files);
    found, dst := Absent, [];
    if !ok {
      return;
    }
    var fs := Mount(img, 2 + LOGSIZE + ninodes / IPB + 1, 2 + LOGSIZE);
    ghost var s := fs.S();
    RootWhole(s, files);
    found := Dirlookup(fs, ROOTINO, name);
    RootLookup(files, s.inodes[ROOTINO].size - (2 + |files|) * DIRENT_BYTES,
               if found.At? then found.off / DIRENT_BYTES else 0, name);
    if found.At? {
      NamedInode(files, name, found.off / DIRENT_BYTES);
      ValidSize(s, found.inum);
      var n;
      n, dst := fs.Readi(found.inum, 0, MAXFILE * BSIZE, MAXFILE * BSIZE);
      WholeSlice(Contents(s, found.inum));
    }
  }

  lemma WholeSlice(c: seq<Byte>)
    ensures c[0..|c|] == c
  {
  }

  lemma NamedInode(files: seq<File>, name: seq<Byte>, k: nat)
    requires FirstNamed(files, name, k)
    ensures k < 2 + |files|
  {
  }

  lemma RootWhole(s: Fs, files: seq<File>)
    requires Valid(s) && Shape(s) && RootHolds(s, files)
    ensures |Contents(s, ROOTINO)| == s.inodes[ROOTINO].size && |Contents(s, ROOTINO)| % DIRENT_BYTES == 0
    ensures s.inodes[ROOTINO].size >= (2 + |files|) * DIRENT_BYTES
  {
    assert BSIZE == 64 * DIRENT_BYTES;
  }
}
