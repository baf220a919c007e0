/** Addresses and block indices of kernel/buddy.c: firstk, blk_index, blk_index_next and addr
    by division and multiplication, as the shifts of module Buddy. Addresses are leaves from
    bd_base. */
module BuddyAddr {
  import opened Buddy
  import opened BuddyInit

  lemma {:induction false} UpIsDiv(p: nat, k: nat)
    ensures Up(p, k) == p / Pow2(k)
  {
    if k > 0 {
      UpIsDiv(p / 2, k - 1);
      HalfDiv(p, Pow2(k - 1));
    }
  }

  lemma HalfDiv(p: nat, b: nat)
    requires b > 0
    ensures p / 2 / b == p / (2 * b)
  {
    var s, t := p / 2 / b, (p / 2) % b;
    assert p / 2 == b * s + t;
    assert 2 * b * s == 2 * (b * s);
    DivUnique(p, 2 * b, s, 2 * t + p % 2);
  }

  lemma MulMono(a: nat, x: nat, y: nat)
    requires x <= y
    ensures a * x <= a * y
  {
  }

  lemma DivUnique(p: nat, n: nat, q: nat, r: nat)
    requires n > 0 && p == n * q + r && r < n
    ensures p / n == q
  {
    var d := p / n;
    assert p == n * d + p % n;
    if d > q { MulMono(n, q + 1, d); }
    if d < q { MulMono(n, d + 1, q); }
  }

  lemma {:induction false} DownIsMul(b: nat, k: nat)
    ensures Down(b, k) == b * Pow2(k)
    decreases k
  {
    if k > 0 {
      DownIsMul(2 * b, k - 1);
      assert 2 * b * Pow2(k - 1) == b * (2 * Pow2(k - 1));
    }
  }

  /** firstk: the smallest size whose blocks hold n bytes. */
  function FirstSize(n: nat, k: nat): (r: nat)
    ensures r >= k && LEAF_SIZE * Pow2(r) >= n
    ensures forall j :: k <= j < r ==> LEAF_SIZE * Pow2(j) < n
    decreases n - LEAF_SIZE * Pow2(k)
  {
    if LEAF_SIZE * Pow2(k) >= n then k else FirstSize(n, k + 1)
  }

  lemma {:induction false} PowMono(a: nat, b: nat)
    requires a <= b
    ensures Pow2(a) <= Pow2(b)
    decreases b
  {
    if a < b { PowMono(a, b - 1); }
  }

  /** While size < n <= 2^63, doubling the uint64 size does not wrap. */
  lemma FirstkStep(n: nat, k: nat)
    requires k <= 59 && LEAF_SIZE * Pow2(k) < n <= LEAF_SIZE * Pow2(59)
    ensures k < 59 && LEAF_SIZE * Pow2(k) * 2 % (LEAF_SIZE * Pow2(60)) == LEAF_SIZE * Pow2(k + 1)
    ensures FirstSize(n, k + 1) == FirstSize(n, k)
  {
    if k < 59 { PowMono(k + 1, 59); }
    assert Pow2(k + 1) == 2 * Pow2(k) && Pow2(60) == 2 * Pow2(59);
    hide Pow2;
    SmallMod(LEAF_SIZE * Pow2(k) * 2, LEAF_SIZE * Pow2(60));
  }

  lemma SmallMod(x: nat, m: nat)
    requires x < m
    ensures x % m == x
  {
  }

  predicate InRange(n: nat) { n <= LEAF_SIZE * Pow2(59) }

  /** firstk. Past 2^63 bytes (LEAF_SIZE * 2^59), half of the range of the uint64
      variable size, doubling it wraps to 0 and the loop never ends. */
  method Firstk(n: nat) returns (k: nat)
    requires InRange(n)
    ensures k == FirstSize(n, 0)
  {
    k := 0;
    var size := LEAF_SIZE;
    var range := LEAF_SIZE * Pow2(60);
    assert size == LEAF_SIZE * Pow2(0);
    hide Pow2, FirstSize;
    while size < n
      invariant k <= 59 && size == LEAF_SIZE * Pow2(k)
      invariant FirstSize(n, k) == FirstSize(n, 0)
      decreases 59 - k
    {
      FirstkStep(n, k);
      k := k + 1;
      size := size * 2 % range;
    }
    FirstkDone(n, k);
  }

  lemma FirstkDone(n: nat, k: nat)
    requires LEAF_SIZE * Pow2(k) >= n
    ensures FirstSize(n, k) == k
  {
  }

  lemma DivNat(p: nat, s: nat)
    requires s > 0
    ensures p / s >= 0
  {
  }

  lemma DownNone(b: nat)
    ensures Down(b, 0) == b
  {
  }

  function BlkIndex(k: nat, p: nat): nat {
    DivNat(p, Pow2(k));
    p / Pow2(k)
  }
  function Addr(k: nat, b: nat): nat { b * Pow2(k) }

  const INT_RANGE := 0x8000_0000

  /** The int in which blk_index and addr keep the bytes from bd_base. */
  function IntOffset(p: nat): int {
    var x := p * LEAF_SIZE % (2 * INT_RANGE);
    if x < INT_RANGE then x else x - 2 * INT_RANGE
  }

  /** blk_index with this int; C divides toward zero. */
  function IntIndex(k: nat, p: nat): int {
    var x, s := IntOffset(p), LEAF_SIZE * Pow2(k);
    if x >= 0 then x / s else -(-x / s)
  }

  lemma LeafDiv(p: nat, s: nat)
    requires s > 0
    ensures p * LEAF_SIZE / (LEAF_SIZE * s) == p / s
  {
    var q, m := p / s, p % s;
    assert p == s * q + m;
    assert p * LEAF_SIZE == LEAF_SIZE * s * q + LEAF_SIZE * m;
    DivUnique(p * LEAF_SIZE, LEAF_SIZE * s, q, LEAF_SIZE * m);
  }

  /** The int holds the index at every size exactly below 2^31 bytes. */
  lemma IntIndexExact(p: nat)
    ensures (forall k: nat :: IntIndex(k, p) == BlkIndex(k, p)) <==> p * LEAF_SIZE < INT_RANGE
  {
    if p * LEAF_SIZE < INT_RANGE {
      forall k: nat ensures IntIndex(k, p) == BlkIndex(k, p) { LeafDiv(p, Pow2(k)); }
    } else {
      assert IntIndex(0, p) < p == BlkIndex(0, p);
    }
  }

  lemma IndexOfAddr(k: nat, b: nat, j: nat)
    ensures Addr(k, b) == Down(b, k)
    ensures BlkIndex(j, Addr(k, b)) == if j <= k then Down(b, k - j) else Up(b, j - k)
  {
    DownIsMul(b, k);
    UpIsDiv(Addr(k, b), j);
    UpOfDown(b, k, j);
  }

  /** The leaf that a byte, counted from bd_base, lies in. */
  function ByteLeaf(x: nat): nat { x / LEAF_SIZE }

  /** The nbytes bytes from address p on lie in one block in use, which is as small as it can
      be, and in no other block, free or in use. */
  ghost predicate OwnBytes(h: Heap, p: nat, nbytes: nat) {
    exists k: nat, b: nat :: Live(h, k, b) && OwnBlock(h, p, nbytes, k, b)
  }

  ghost predicate OwnBlock(h: Heap, p: nat, nbytes: nat, k: nat, b: nat) {
    && nbytes <= LEAF_SIZE * Pow2(k) && (k > 0 ==> nbytes > LEAF_SIZE * Pow2(k - 1))
    && forall x: nat {:trigger ByteLeaf(x)} :: LEAF_SIZE * p <= x < LEAF_SIZE * p + nbytes ==>
         && Up(ByteLeaf(x), k) == b
         && forall j: nat, c: nat {:trigger Piece(h, j, c)} ::
              Piece(h, j, c) && Up(ByteLeaf(x), j) == c ==> j == k && c == b
  }

  lemma MallocOwns(h: Heap, nbytes: nat)
    requires Inv(h) && Malloc(h, FirstSize(nbytes, 0)).Some?
    ensures var (b, h') := Malloc(h, FirstSize(nbytes, 0)).value; OwnBytes(h', Addr(FirstSize(nbytes, 0), b), nbytes)
  {
    var k := FirstSize(nbytes, 0);
    var (b, h') := Malloc(h, k).value;
    MallocKeeps(h, k);
    hide Malloc, FirstSize, Inv, Live, Up, Pow2, Addr, IsFree, ByteLeaf;
    forall x: nat | LEAF_SIZE * Addr(k, b) <= x < LEAF_SIZE * Addr(k, b) + nbytes
      ensures Up(ByteLeaf(x), k) == b
      ensures forall j: nat, c: nat {:trigger Piece(h', j, c)} ::
        Piece(h', j, c) && Up(ByteLeaf(x), j) == c ==> j == k && c == b
    {
      LeafInBlock(k, b, x);
      forall j: nat, c: nat | Piece(h', j, c) && Up(ByteLeaf(x), j) == c ensures j == k && c == b {
        PiecesDisjoint(h', j, c, k, b, ByteLeaf(x));
      }
    }
    assert Live(h', k, b) && OwnBlock(h', Addr(k, b), nbytes, k, b);
  }

  lemma LeafInBlock(k: nat, b: nat, x: nat)
    requires LEAF_SIZE * Addr(k, b) <= x < LEAF_SIZE * (Addr(k, b) + Pow2(k))
    ensures Up(ByteLeaf(x), k) == b
  {
    UpIsDiv(ByteLeaf(x), k);
    DivUnique(ByteLeaf(x), Pow2(k), b, ByteLeaf(x) - Addr(k, b));
  }

  /** The two halves of block b of size k + 1. */
  lemma HalfAddr(k: nat, b: nat)
    ensures Addr(k, 2 * b) == Addr(k + 1, b) && Addr(k, 2 * b + 1) == Addr(k + 1, b) + Pow2(k)
  {
    assert (2 * b + 1) * Pow2(k) == 2 * b * Pow2(k) + Pow2(k);
    assert b * (2 * Pow2(k)) == 2 * b * Pow2(k);
  }

  lemma SplitAddr(k: nat, b: nat)
    requires k > 0
    ensures BlkIndex(k, Addr(k, b)) == b && BlkIndex(k - 1, Addr(k, b)) == 2 * b
    ensures BlkIndex(k - 1, Addr(k, b) + Pow2(k - 1)) == 2 * b + 1 && Addr(k - 1, 2 * b) == Addr(k, b)
  {
    HalfAddr(k - 1, b);
    IndexOfAddr(k, b, k);
    IndexOfAddr(k - 1, 2 * b, k - 1);
    IndexOfAddr(k - 1, 2 * b + 1, k - 1);
  }

  lemma MergeAddr(k: nat, b: nat)
    ensures BlkIndex(k, Addr(k, b)) == b && BlkIndex(k, Addr(k, BuddyOf(b))) == BuddyOf(b)
    ensures Addr(k + 1, b / 2) == Addr(k, if BuddyOf(b) % 2 == 0 then BuddyOf(b) else b)
    ensures BlkIndex(k + 1, Addr(k + 1, b / 2)) == b / 2
  {
    HalfAddr(k, b / 2);
    IndexOfAddr(k, b, k);
    IndexOfAddr(k, BuddyOf(b), k);
    IndexOfAddr(k + 1, b / 2, k + 1);
  }

  /** blk_index_next. */
  function BlkIndexNext(k: nat, p: nat): nat {
    p / Pow2(k) + if p % Pow2(k) != 0 then 1 else 0
  }

  lemma {:induction false} OverBounds(x: nat, k: nat)
    ensures Over(x, k) * Pow2(k) >= x && Over(x, k) * Pow2(k) - Pow2(k) < x
  {
    if k > 0 {
      OverBounds(x, k - 1);
      OverStep(x, Over(x, k - 1), Over(x, k), Pow2(k - 1));
    }
  }

  lemma OverStep(x: nat, n: nat, m: nat, p: nat)
    requires n * p >= x && n * p - p < x && (2 * m == n || 2 * m == n + 1)
    ensures m * (2 * p) >= x && m * (2 * p) - 2 * p < x
  {
    assert m * (2 * p) == 2 * m * p;
    assert (n + 1) * p == n * p + p;
  }

  lemma NextIsOver(x: nat, k: nat)
    ensures BlkIndexNext(k, x) == Over(x, k)
  {
    OverBounds(x, k);
    NextUnique(x, Pow2(k), Over(x, k));
  }

  lemma CeilUnique(x: nat, p: nat, m: nat, n: nat)
    requires p > 0 && n * p >= x && n * p - p < x && m * p >= x && m * p - p < x
    ensures m == n
  {
    if n > m { MulMono(p, m + 1, n); }
    if n < m { MulMono(p, n + 1, m); }
  }

  lemma NextUnique(x: nat, p: nat, n: nat)
    requires p > 0 && n * p >= x && n * p - p < x
    ensures n == x / p + if x % p != 0 then 1 else 0
  {
    var q, r := x / p, x % p;
    assert x == q * p + r;
    if r == 0 {
      CeilUnique(x, p, q, n);
    } else {
      assert (q + 1) * p == q * p + p;
      CeilUnique(x, p, q + 1, n);
    }
  }
}
