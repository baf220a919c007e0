/** Directories (kernel/fs.c): a directory is a file of entries, each a little-endian ushort
    and a name of up to DIRSIZ bytes, filled up with NULs. Names are C strings: bytes up to
    the end of the sequence or a NUL. */
module Dir {
  import opened Options
  import opened Params
  import opened FsModel
  import opened FsCode

  const DIRSIZ := 14
  const DIRENT_BYTES := 16

  /** The character at index j of a C string. */
  function CharAt(s: seq<Byte>, j: nat): nat { if j < |s| then s[j] else 0 }

  /** Equal as C strings, as far as the first n characters go. */
  ghost predicate SameUpTo(p: seq<Byte>, q: seq<Byte>, n: nat) {
    forall j: nat :: j < n && (forall i: nat :: i < j ==> CharAt(p, i) != 0) ==> CharAt(p, j) == CharAt(q, j)
  }

  ghost predicate SameName(p: seq<Byte>, q: seq<Byte>) { SameUpTo(p, q, DIRSIZ) }

  /** strncmp of kernel/string.c. */
  method Strncmp(p: seq<Byte>, q: seq<Byte>, n: nat) returns (r: int)
    ensures r == 0 <==> SameUpTo(p, q, n)
  {
    var j := 0;
    while j < n && CharAt(p, j) != 0 && CharAt(p, j) == CharAt(q, j)
      invariant j <= n && forall i: nat :: i < j ==> CharAt(p, i) != 0 && CharAt(p, i) == CharAt(q, i)
    {
      j := j + 1;
    }
    if j == n {
      return 0;
    }
    r := CharAt(p, j) - CharAt(q, j);
  }

  /** A new entry: strncpy cuts the name or fills it up. */
  function Dirent(inum: nat, name: seq<Byte>): (r: seq<Byte>)
    requires inum < 65536
    ensures |r| == DIRENT_BYTES
  {
    [inum % 256, inum / 256] + seq(DIRSIZ, j requires 0 <= j < DIRSIZ => CharAt(name, j))
  }

  function Ushort(lo: nat, hi: nat): nat { lo + 256 * hi }

  function Inum(c: seq<Byte>, k: nat): nat
    requires (k + 1) * DIRENT_BYTES <= |c|
  {
    Ushort(c[k * DIRENT_BYTES], c[k * DIRENT_BYTES + 1])
  }

  function Name(c: seq<Byte>, k: nat): seq<Byte>
    requires (k + 1) * DIRENT_BYTES <= |c|
  {
    c[k * DIRENT_BYTES + 2..(k + 1) * DIRENT_BYTES]
  }

  ghost predicate Matches(c: seq<Byte>, k: nat, name: seq<Byte>)
    requires (k + 1) * DIRENT_BYTES <= |c|
  {
    Inum(c, k) != 0 && SameName(name, Name(c, k))
  }

  /** No entry before the k-th has that name. */
  ghost predicate NoneBefore(c: seq<Byte>, k: nat, name: seq<Byte>)
    requires k * DIRENT_BYTES <= |c|
  {
    forall j: nat {:trigger Matches(c, j, name)} :: j < k ==> !Matches(c, j, name)
  }

  /** Entry k is the one that a lookup finds. */
  ghost predicate FoundAt(c: seq<Byte>, k: nat, name: seq<Byte>) {
    (k + 1) * DIRENT_BYTES <= |c| && NoneBefore(c, k, name) && Matches(c, k, name)
  }

  ghost predicate NotFound(c: seq<Byte>, name: seq<Byte>) {
    NoneBefore(c, |c| / DIRENT_BYTES, name)
  }

  lemma FoundOnce(c: seq<Byte>, j: nat, k: nat, name: seq<Byte>)
    requires FoundAt(c, j, name) && FoundAt(c, k, name)
    ensures j == k
  {
  }

  /** An entry has the number and the name that were put into it. */
  lemma DirentFields(c: seq<Byte>, k: nat, inum: nat, name: seq<Byte>)
    requires (k + 1) * DIRENT_BYTES <= |c| && inum < 65536
    requires c[k * DIRENT_BYTES..(k + 1) * DIRENT_BYTES] == Dirent(inum, name)
    ensures Inum(c, k) == inum && forall x :: SameName(x, Name(c, k)) <==> SameName(x, name)
  {
    var e := c[k * DIRENT_BYTES..(k + 1) * DIRENT_BYTES];
    assert e[0] == c[k * DIRENT_BYTES] && e[1] == c[k * DIRENT_BYTES + 1];
    forall j: nat | j < DIRSIZ ensures CharAt(Name(c, k), j) == CharAt(name, j) {
      assert Name(c, k)[j] == e[2 + j];
    }
    forall x ensures SameName(x, Name(c, k)) <==> SameName(x, name) {}
  }

  datatype Lookup = At(inum: nat, off: nat) | Absent | Panic

  /** dirlookup of inode dp. The panic is that of a directory whose size is not a multiple of
      an entry, and that has no such name before its end. */
  method Dirlookup(fs: FileSystem, dp: nat, name: seq<Byte>) returns (r: Lookup)
    requires Valid(fs.S()) && dp < |fs.inodes|
    modifies fs`used, fs`data, fs`inodes, fs`logged
    ensures fs.S() == old(fs.S()) && fs.logged == old(fs.logged)
    ensures var c := Contents(fs.S(), dp);
      match r
      case At(inum, off) =>
        off % DIRENT_BYTES == 0 && FoundAt(c, off / DIRENT_BYTES, name) && inum == Inum(c, off / DIRENT_BYTES)
      case Absent => |c| % DIRENT_BYTES == 0 && NotFound(c, name)
      case Panic => |c| % DIRENT_BYTES != 0 && NotFound(c, name)
  {
    hide Valid, Contents, SameUpTo, Name, Ushort;
    ghost var s := fs.S();
    ValidSize(s, dp);
    ghost var c := Contents(s, dp);
    var off := 0;
    while off < fs.inodes[dp].size
      invariant off % DIRENT_BYTES == 0 && fs.S() == s && fs.logged == old(fs.logged)
      invariant off <= |c| && NoneBefore(c, off / DIRENT_BYTES, name)
    {
      var n, de := fs.Readi(dp, off, DIRENT_BYTES, DIRENT_BYTES);
      if n != DIRENT_BYTES {
        assert off / DIRENT_BYTES == |c| / DIRENT_BYTES;
        return Panic;
      }
      ghost var k := off / DIRENT_BYTES;
      EntryRead(c, k, de);
      var inum := Ushort(de[0], de[1]);
      if inum != 0 {
        var cmp := Strncmp(name, de[2..], DIRSIZ);
        if cmp == 0 {
          return At(inum, off);
        }
      }
      NextEntry(c, k, name);
      off := off + DIRENT_BYTES;
    }
    r := Absent;
  }

  lemma EntryRead(c: seq<Byte>, k: nat, de: seq<Byte>)
    requires (k + 1) * DIRENT_BYTES <= |c| && de == c[k * DIRENT_BYTES..k * DIRENT_BYTES + DIRENT_BYTES]
    ensures |de| == DIRENT_BYTES && Ushort(de[0], de[1]) == Inum(c, k) && de[2..] == Name(c, k)
  {
  }

  lemma NextEntry(c: seq<Byte>, k: nat, name: seq<Byte>)
    requires (k + 1) * DIRENT_BYTES <= |c| && NoneBefore(c, k, name) && !Matches(c, k, name)
    ensures NoneBefore(c, k + 1, name)
  {
  }

  // ---------- dirlink ----------

  /** The first entry that is not in use, or the end. */
  ghost predicate FreeEntry(c: seq<Byte>, k: nat) {
    && k * DIRENT_BYTES <= |c| && (forall j: nat {:trigger Inum(c, j)} :: j < k ==> Inum(c, j) != 0)
    && ((k + 1) * DIRENT_BYTES <= |c| ==> Inum(c, k) == 0) && (|c| < (k + 1) * DIRENT_BYTES ==> k * DIRENT_BYTES == |c|)
  }

  datatype Link = Linked(off: nat) | Exists | LinkPanic

  /** dirlink. The panics: a directory whose size is not a multiple of an entry, one of the
      largest size without a free entry, and balloc. */
  method Dirlink(fs: FileSystem, dp: nat, name: seq<Byte>, inum: nat) returns (r: Link)
    requires Valid(fs.S()) && dp < |fs.inodes| && inum < 65536
    modifies fs`used, fs`data, fs`inodes, fs`logged
    ensures r == Exists <==> exists k: nat :: FoundAt(old(Contents(fs.S(), dp)), k, name)
    ensures r == Exists ==> fs.S() == old(fs.S()) && fs.logged == old(fs.logged)
    ensures var c := old(Contents(fs.S(), dp));
      r.Linked? ==>
        && r.off % DIRENT_BYTES == 0 == |c| % DIRENT_BYTES && FreeEntry(c, r.off / DIRENT_BYTES) && r.off <= |c|
        && FileWritten(old(fs.S()), fs.S(), dp, r.off, Dirent(inum, name))
    ensures var c := old(Contents(fs.S(), dp));
      r == LinkPanic <==>
        && NotFound(c, name)
        && (|c| % DIRENT_BYTES != 0 || exists k: nat :: FreeEntry(c, k) && NoRoom(old(fs.S()), dp, k * DIRENT_BYTES))
  {
    hide Valid, Contents, SameUpTo, FileWritten, NoRoom, FreeEntry, Dirent, Matches, Whole, Tried, Cut;
    ghost var s := fs.S();
    ValidSize(s, dp);
    ghost var c := Contents(s, dp);
    var found := Dirlookup(fs, dp, name);
    if found.At? {
      assert FoundAt(c, found.off / DIRENT_BYTES, name);
      FoundIsFound(c, found.off / DIRENT_BYTES, name);
      return Exists;
    }
    NoneFound(c, name);
    if found.Panic? {
      return LinkPanic;
    }
    var off := FindFree(fs, dp);
    FreeUnique(c, off / DIRENT_BYTES);
    WholeAll(off, DIRENT_BYTES, DIRENT_BYTES);
    assert Dirent(inum, name)[..DIRENT_BYTES] == Dirent(inum, name);
    var n := fs.Writei(dp, off, Dirent(inum, name), DIRENT_BYTES);
    RoomIs(s, dp, off);
    if n != Some(DIRENT_BYTES) {
      return LinkPanic;
    }
    r := Linked(off);
  }

  /** An entry at off can not be written. */
  ghost predicate NoRoom(s: Fs, dp: nat, off: nat) {
    Shape(s) && dp < |s.inodes| && (off + DIRENT_BYTES > MAXFILE * BSIZE || Lacking(s, dp, off, DIRENT_BYTES))
  }

  lemma RoomIs(s: Fs, dp: nat, off: nat)
    requires Valid(s) && dp < |s.inodes|
    ensures Shape(s)
    ensures NoRoom(s, dp, off) <==> off + DIRENT_BYTES > MAXFILE * BSIZE || Lacking(s, dp, off, DIRENT_BYTES)
  {
  }

  lemma FoundIsFound(c: seq<Byte>, k: nat, name: seq<Byte>)
    requires FoundAt(c, k, name)
    ensures !NotFound(c, name)
  {
    assert k < |c| / DIRENT_BYTES;
  }

  lemma NoneFound(c: seq<Byte>, name: seq<Byte>)
    requires NotFound(c, name)
    ensures forall k: nat :: !FoundAt(c, k, name)
  {
    forall k: nat ensures !FoundAt(c, k, name) {
      if FoundAt(c, k, name) { FoundIsFound(c, k, name); }
    }
  }

  /** The loop that looks for an empty dirent. */
  method FindFree(fs: FileSystem, dp: nat) returns (off: nat)
    requires Valid(fs.S()) && dp < |fs.inodes| && |Contents(fs.S(), dp)| % DIRENT_BYTES == 0
    modifies fs`used, fs`data, fs`inodes, fs`logged
    ensures fs.S() == old(fs.S()) && fs.logged == old(fs.logged)
    ensures off % DIRENT_BYTES == 0 && off <= |Contents(fs.S(), dp)|
    ensures FreeEntry(Contents(fs.S(), dp), off / DIRENT_BYTES)
  {
    hide Valid, Contents, Ushort;
    ghost var s := fs.S();
    ValidSize(s, dp);
    ghost var c := Contents(s, dp);
    off := 0;
    while off < fs.inodes[dp].size
      invariant off % DIRENT_BYTES == 0 && off <= |c| && fs.S() == s && fs.logged == old(fs.logged)
      invariant forall j: nat {:trigger Inum(c, j)} :: j < off / DIRENT_BYTES ==> Inum(c, j) != 0
    {
      var n, de := fs.Readi(dp, off, DIRENT_BYTES, DIRENT_BYTES);
      EntryRead(c, off / DIRENT_BYTES, de);
      if Ushort(de[0], de[1]) == 0 {
        break;
      }
      off := off + DIRENT_BYTES;
    }
  }

  lemma FreeUnique(c: seq<Byte>, k: nat)
    requires FreeEntry(c, k)
    ensures forall j: nat :: FreeEntry(c, j) ==> j == k
  {
    forall j: nat | FreeEntry(c, j) ensures j == k {
      if j < k { NotFree(c, k, j); }
      if k < j { NotFree(c, j, k); }
    }
  }

  lemma NotFree(c: seq<Byte>, k: nat, j: nat)
    requires FreeEntry(c, k) && j < k
    ensures !FreeEntry(c, j)
  {
    assert Inum(c, j) != 0;
  }

  /** Names that are the same as a third are the same. */
  lemma SameBoth(x: seq<Byte>, y: seq<Byte>, z: seq<Byte>)
    requires SameName(x, y) && SameName(x, z)
    ensures SameName(y, z)
  {
    forall j: nat | j < DIRSIZ && (forall i: nat :: i < j ==> CharAt(y, i) != 0) ensures CharAt(y, j) == CharAt(z, j) {
      NonzeroBoth(x, y, j, DIRSIZ);
    }
  }

  lemma {:induction false} NonzeroBoth(x: seq<Byte>, y: seq<Byte>, j: nat, n: nat)
    requires SameUpTo(x, y, n) && j < n && forall i: nat :: i < j ==> CharAt(y, i) != 0
    ensures forall i: nat :: i < j ==> CharAt(x, i) != 0
  {
    if j > 0 {
      NonzeroBoth(x, y, j - 1, n);
      assert CharAt(x, j - 1) == CharAt(y, j - 1);
    }
  }

  /** After dirlink the new name leads to inum and every other name to where it led before. */
  lemma LinkLookup(c: seq<Byte>, k: nat, inum: nat, name: seq<Byte>, x: seq<Byte>, j: nat)
    requires |c| % DIRENT_BYTES == 0 && FreeEntry(c, k) && NotFound(c, name) && 0 < inum < 65536
    ensures var c' := Splice(c, k * DIRENT_BYTES, Dirent(inum, name));
      if SameName(x, name) then FoundAt(c', j, x) <==> j == k && Inum(c', k) == inum
      else (FoundAt(c', j, x) <==> FoundAt(c, j, x)) && (FoundAt(c, j, x) ==> Inum(c', j) == Inum(c, j))
  {
    var c' := Splice(c, k * DIRENT_BYTES, Dirent(inum, name));
    assert c'[k * DIRENT_BYTES..(k + 1) * DIRENT_BYTES] == Dirent(inum, name);
    DirentFields(c', k, inum, name);
    forall i: nat | i != k && (i + 1) * DIRENT_BYTES <= |c|
      ensures (i + 1) * DIRENT_BYTES <= |c'| && Inum(c', i) == Inum(c, i) && Name(c', i) == Name(c, i)
    {
      OtherEntry(c, c', k, i);
    }
    hide Splice, SameUpTo, Dirent;
    if SameName(x, name) {
      forall i: nat | i < k ensures !Matches(c', i, x) {
        assert !Matches(c, i, name);
        NotSame(c, i, x, name);
      }
      assert FoundAt(c', k, x);
      if FoundAt(c', j, x) { FoundOnce(c', j, k, x); }
    } else {
      OthersFound(c, c', k, x, j);
    }
  }

  lemma NotSame(c: seq<Byte>, i: nat, x: seq<Byte>, name: seq<Byte>)
    requires (i + 1) * DIRENT_BYTES <= |c| && SameName(x, name) && !Matches(c, i, name)
    ensures !Matches(c, i, x)
  {
    if SameName(x, Name(c, i)) { SameBoth(x, name, Name(c, i)); }
  }

  lemma OtherEntry(c: seq<Byte>, c': seq<Byte>, k: nat, i: nat)
    requires k * DIRENT_BYTES <= |c| && (i + 1) * DIRENT_BYTES <= |c| && i != k
    requires |c'| >= |c|
    requires forall o :: 0 <= o < |c| && !(k * DIRENT_BYTES <= o < (k + 1) * DIRENT_BYTES) ==> c'[o] == c[o]
    ensures Inum(c', i) == Inum(c, i) && Name(c', i) == Name(c, i)
  {
  }

  lemma OthersFound(c: seq<Byte>, c': seq<Byte>, k: nat, x: seq<Byte>, j: nat)
    requires |c| % DIRENT_BYTES == 0 && FreeEntry(c, k) && (k + 1) * DIRENT_BYTES <= |c'|
    requires |c'| == if (k + 1) * DIRENT_BYTES > |c| then |c| + DIRENT_BYTES else |c|
    requires forall i: nat {:trigger Inum(c, i)} {:trigger Inum(c', i)} :: i != k && (i + 1) * DIRENT_BYTES <= |c| ==>
      Inum(c', i) == Inum(c, i) && Name(c', i) == Name(c, i)
    requires !Matches(c', k, x)
    ensures FoundAt(c', j, x) <==> FoundAt(c, j, x)
    ensures FoundAt(c, j, x) ==> Inum(c', j) == Inum(c, j)
  {
    hide SameUpTo;
    forall i: nat | (i + 1) * DIRENT_BYTES <= |c| ensures Matches(c, i, x) <==> Matches(c', i, x) {}
    assert (j + 1) * DIRENT_BYTES <= |c'| ==> j == k || (j + 1) * DIRENT_BYTES <= |c|;
  }
}
