/** kernel/list.c: circular doubly linked lists whose nodes lie inside the memory they
    link. A list head and the nodes on it form a ring; the operations change that ring
    as sequence operations would, and no other node. */
module List {
  import opened Options

  datatype Links = Links(next: map<nat, nat>, prev: map<nat, nat>)

  function After(i: nat, n: nat): nat { if i + 1 == n then 0 else i + 1 }

  function Before(i: nat, n: nat): nat
    requires i < n
  {
    if i == 0 then n - 1 else i - 1
  }

  ghost predicate Linked(m: Links, nodes: seq<nat>, i: nat)
    requires i < |nodes|
  {
    && nodes[i] in m.next && m.next[nodes[i]] == nodes[After(i, |nodes|)]
    && nodes[i] in m.prev && m.prev[nodes[i]] == nodes[Before(i, |nodes|)]
  }

  ghost predicate Distinct(nodes: seq<nat>) {
    forall i, j :: 0 <= i < j < |nodes| ==> nodes[i] != nodes[j]
  }

  /** nodes[0] is the list head, the rest the elements from head->next on. */
  ghost predicate Ring(m: Links, nodes: seq<nat>) {
    && |nodes| > 0 && Distinct(nodes)
    && forall i {:trigger Linked(m, nodes, i)} :: 0 <= i < |nodes| ==> Linked(m, nodes, i)
  }

  /** Pointers of nodes outside the ring are as they were. */
  ghost predicate Untouched(m: Links, m': Links, nodes: seq<nat>) {
    forall x :: x !in nodes ==>
      && (x in m.next <==> x in m'.next) && (x in m.next ==> m'.next[x] == m.next[x])
      && (x in m.prev <==> x in m'.prev) && (x in m.prev ==> m'.prev[x] == m.prev[x])
  }

  /** So any ring that shares no node is still there. */
  lemma OtherRing(m: Links, m': Links, nodes: seq<nat>, other: seq<nat>)
    requires Untouched(m, m', nodes) && Ring(m, other)
    requires forall i :: 0 <= i < |other| ==> other[i] !in nodes
    ensures Ring(m', other)
  {
    forall i | 0 <= i < |other| ensures Linked(m', other, i) { assert Linked(m, other, i); }
  }

  /** The two stores of lst_remove. */
  function Unlink(m: Links, e: nat): Links
    requires e in m.next && e in m.prev
  {
    var next := m.next[m.prev[e] := m.next[e]];
    Links(next, m.prev[next[e] := m.prev[e]])
  }

  lemma UnlinkAt(m: Links, nodes: seq<nat>, i: nat, j: nat)
    requires Ring(m, nodes) && 0 < i < |nodes| && j < |nodes| - 1
    ensures nodes[i] in m.next && nodes[i] in m.prev
    ensures Linked(Unlink(m, nodes[i]), nodes[..i] + nodes[i + 1..], j)
  {
    var n, r := |nodes|, nodes[..i] + nodes[i + 1..];
    var q := if j < i then j else j + 1;
    assert Linked(m, nodes, i) && Linked(m, nodes, q);
    assert r[j] == nodes[q];
    assert r[After(j, n - 1)] == if q == i - 1 then nodes[After(i, n)] else nodes[After(q, n)];
    assert r[Before(j, n - 1)] == if q == After(i, n) then nodes[i - 1] else nodes[Before(q, n)];
    assert nodes[q] != nodes[i] by { assert q < i || i < q; }
    assert q != i - 1 ==> nodes[q] != nodes[i - 1] by { assert q < i - 1 || i - 1 <= q; }
    assert q != After(i, n) ==> nodes[q] != nodes[After(i, n)] by { assert q < After(i, n) || After(i, n) <= q; }
  }

  /** lst_remove takes one element out of the middle of whatever list it is on. */
  lemma UnlinkRing(m: Links, nodes: seq<nat>, i: nat)
    requires Ring(m, nodes) && 0 < i < |nodes|
    ensures nodes[i] in m.next && nodes[i] in m.prev
    ensures Ring(Unlink(m, nodes[i]), nodes[..i] + nodes[i + 1..])
    ensures Untouched(m, Unlink(m, nodes[i]), nodes)
  {
    assert Linked(m, nodes, i);
    var r := nodes[..i] + nodes[i + 1..];
    forall j | 0 <= j < |r| ensures Linked(Unlink(m, nodes[i]), r, j) {
      UnlinkAt(m, nodes, i, j);
    }
    assert nodes[i - 1] in nodes && nodes[After(i, |nodes|)] in nodes;
  }

  /** The four stores of lst_push. */
  function Link(m: Links, lst: nat, p: nat): Links
    requires lst in m.next
  {
    var next := m.next[p := m.next[lst]];
    var prev := m.prev[p := lst];
    Links(next[lst := p], prev[next[lst] := p])
  }

  lemma LinkAt(m: Links, nodes: seq<nat>, p: nat, j: nat)
    requires Ring(m, nodes) && p !in nodes && j < |nodes| + 1
    ensures nodes[0] in m.next && Linked(Link(m, nodes[0], p), [nodes[0], p] + nodes[1..], j)
  {
    var n, r := |nodes|, [nodes[0], p] + nodes[1..];
    assert Linked(m, nodes, 0);
    if j != 1 {
      var q := if j == 0 then 0 else j - 1;
      assert Linked(m, nodes, q);
      assert r[j] == nodes[q];
      assert q != 0 ==> nodes[q] != nodes[0];
      assert q != After(0, n) ==> nodes[q] != nodes[After(0, n)] by { assert q < After(0, n) || After(0, n) <= q; }
    }
  }

  /** lst_push puts a new node first. Whatever the node, no pointer outside the ring and
      the node changes. */
  lemma LinkRing(m: Links, nodes: seq<nat>, p: nat)
    requires Ring(m, nodes)
    ensures nodes[0] in m.next
    ensures p !in nodes ==> Ring(Link(m, nodes[0], p), [nodes[0], p] + nodes[1..])
    ensures Untouched(m, Link(m, nodes[0], p), [nodes[0], p] + nodes[1..])
  {
    var r := [nodes[0], p] + nodes[1..];
    assert Linked(m, nodes, 0);
    if p !in nodes {
      forall j | 0 <= j < |nodes| + 1 ensures Linked(Link(m, nodes[0], p), r, j) {
        LinkAt(m, nodes, p, j);
      }
    }
    assert forall j :: 2 <= j < |r| ==> r[j] == nodes[j - 1];
    assert r[0] == nodes[0] && r[1] == p;
    if |nodes| > 1 { assert r[2] == nodes[1]; }
  }

  class Memory {
    var next: map<nat, nat>
    var prev: map<nat, nat>

    constructor ()
      ensures next == map[] && prev == map[]
    {
      next, prev := map[], map[];
    }

    ghost function M(): Links
      reads this
    {
      Links(next, prev)
    }

    method Init(lst: nat)
      modifies this
      ensures Ring(M(), [lst]) && Untouched(old(M()), M(), [lst])
    {
      next := next[lst := lst];
      prev := prev[lst := lst];
      assert Linked(M(), [lst], 0);
    }

    method Empty(lst: nat, ghost elems: seq<nat>) returns (r: bool)
      requires Ring(M(), [lst] + elems)
      ensures r <==> elems == []
    {
      ghost var nodes := [lst] + elems;
      assert Linked(M(), nodes, 0) && nodes[0] == lst;
      r := next[lst] == lst;
      assert elems != [] ==> nodes[0] != nodes[1];
    }

    /** Needs no list head: e is at position i of its ring. */
    method Remove(e: nat, ghost nodes: seq<nat>, ghost i: nat)
      requires Ring(M(), nodes) && 0 < i < |nodes| && nodes[i] == e
      modifies this
      ensures Ring(M(), nodes[..i] + nodes[i + 1..]) && Untouched(old(M()), M(), nodes)
    {
      UnlinkRing(M(), nodes, i);
      assert Linked(M(), nodes, i);
      next := next[prev[e] := next[e]];
      prev := prev[next[e] := prev[e]];
    }

    /** Pushing a node that is on the list already loses the ring, but touches no other. */
    method Push(lst: nat, p: nat, ghost elems: seq<nat>)
      requires lst in next
      modifies this
      ensures M() == Link(old(M()), lst, p)
      ensures old(Ring(M(), [lst] + elems)) && p != lst && p !in elems ==> Ring(M(), [lst, p] + elems)
      ensures old(Ring(M(), [lst] + elems)) ==> Untouched(old(M()), M(), [lst, p] + elems)
    {
      ghost var nodes := [lst] + elems;
      assert nodes[1..] == elems && nodes[0] == lst;
      if Ring(M(), nodes) { LinkRing(M(), nodes, p); }
      next := next[p := next[lst]];
      prev := prev[p := lst];
      prev := prev[next[lst] := p];
      next := next[lst := p];
    }

    /** None is the panic on an empty list. */
    method Pop(lst: nat, ghost elems: seq<nat>) returns (r: Option<nat>)
      requires Ring(M(), [lst] + elems)
      modifies this
      ensures r == None <==> elems == []
      ensures r == None ==> M() == old(M())
      ensures r.Some? ==> r.value == elems[0]
      ensures r.Some? ==> Ring(M(), [lst] + elems[1..]) && Untouched(old(M()), M(), [lst] + elems)
    {
      ghost var nodes := [lst] + elems;
      assert Linked(M(), nodes, 0) && nodes[0] == lst;
      assert elems != [] ==> nodes[0] != nodes[1];
      if next[lst] == lst {
        return None;
      }
      assert nodes[1] == elems[0] && nodes[..1] + nodes[2..] == [lst] + elems[1..];
      var p := next[lst];
      Remove(p, nodes, 1);
      return Some(p);
    }
  }
}
