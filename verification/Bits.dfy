/** The bitmaps of kernel/buddy.c: a char array holds one bit per block, eight to a
    byte. Setting or clearing one bit changes the set of one bits by that index only. */
module Bits {

  function Mask(r: nat): bv8
    requires r < 8
  {
    match r
    case 0 => 0x01
    case 1 => 0x02
    case 2 => 0x04
    case 3 => 0x08
    case 4 => 0x10
    case 5 => 0x20
    case 6 => 0x40
    case 7 => 0x80
  }

  predicate IsOne(b: bv8, r: nat)
    requires r < 8
  {
    b & Mask(r) == Mask(r)
  }

  lemma OrMask(b: bv8, r: nat, q: nat)
    requires r < 8 && q < 8
    ensures IsOne(b | Mask(r), q) <==> q == r || IsOne(b, q)
  {
  }

  lemma AndNotMask(b: bv8, r: nat, q: nat)
    requires r < 8 && q < 8
    ensures IsOne(b & !Mask(r), q) <==> q != r && IsOne(b, q)
  {
  }

  predicate IsSet(a: seq<bv8>, i: nat)
    requires i < 8 * |a|
  {
    IsOne(a[i / 8], i % 8)
  }

  method BitIsSet(a: array<bv8>, i: nat) returns (r: bool)
    requires i < 8 * a.Length
    ensures r == IsSet(a[..], i)
  {
    var b := a[i / 8];
    var m := Mask(i % 8);
    r := b & m == m;
  }

  method BitSet(a: array<bv8>, i: nat)
    requires i < 8 * a.Length
    modifies a
    ensures forall j: nat :: j < 8 * a.Length ==> (IsSet(a[..], j) <==> j == i || old(IsSet(a[..], j)))
  {
    ghost var s := a[..];
    var b := a[i / 8];
    var m := Mask(i % 8);
    a[i / 8] := b | m;
    forall j: nat | j < 8 * a.Length ensures IsSet(a[..], j) <==> j == i || IsSet(s, j) {
      OrMask(b, i % 8, j % 8);
    }
  }

  method BitClear(a: array<bv8>, i: nat)
    requires i < 8 * a.Length
    modifies a
    ensures forall j: nat :: j < 8 * a.Length ==> (IsSet(a[..], j) <==> j != i && old(IsSet(a[..], j)))
  {
    ghost var s := a[..];
    var b := a[i / 8];
    var m := Mask(i % 8);
    a[i / 8] := b & !m;
    forall j: nat | j < 8 * a.Length ensures IsSet(a[..], j) <==> j != i && IsSet(s, j) {
      AndNotMask(b, i % 8, j % 8);
    }
  }
}
