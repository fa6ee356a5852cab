/** Loops over a ring on the heap. */
module RingLoops {
  import opened Basics
  import opened LinkGraph
  import opened Rings
  import opened RingOps
  import opened RingLaws
  import opened RingMacros

  /** "While `h2` is not empty, REMOVE its first element and INSERT_TAIL it into `h1`" leaves
      every link of the heap exactly as one CONCAT does. */
  method DrainInto(h1: Link, h2: Link, ghost s1: seq<Link>, ghost s2: seq<Link>,
                   ghost nodes: set<Link>)
    requires IsRing(Snap(nodes), h1, s1) && IsRing(Snap(nodes), h2, s2)
    requires Disjoint([h1] + s1, [h2] + s2)
    modifies nodes
    ensures ConcatOk(old(Snap(nodes)), h1, h2)
    ensures Snap(nodes) == Concat(old(Snap(nodes)), h1, h2)
  {
    hide Cycle, Disjoint;
    ghost var t1, t2 := s1, s2;
    ConcatRings(Snap(nodes), h1, t1, h2, t2);
    HeadEnds(Snap(nodes), h2, t2);
    while h2.next != h2
      invariant h2 in nodes
      invariant IsRing(Snap(nodes), h1, t1) && IsRing(Snap(nodes), h2, t2)
      invariant Disjoint([h1] + t1, [h2] + t2)
      invariant ConcatOk(old(Snap(nodes)), h1, h2) && ConcatOk(Snap(nodes), h1, h2)
      invariant Concat(Snap(nodes), h1, h2) == Concat(old(Snap(nodes)), h1, h2)
      decreases |t2|
    {
      ghost var g := Snap(nodes);
      HeadEnds(g, h2, t2);
      MoveFirstRings(g, h1, t1, h2, t2);
      ConcatAfterMove(g, h1, t1, h2, t2);
      var e := h2.next;
      RingUnsplice(e, e, nodes);
      SpliceTail(h1, e, e, nodes);
      t1, t2 := t1 + [t2[0]], t2[1..];
      HeadEnds(Snap(nodes), h2, t2);
    }
  }

  /** FOREACH over a ring that its body does not change. */
  method Foreach(head: Link, ghost s: seq<Link>, ghost nodes: set<Link>)
    returns (visited: seq<Link>)
    requires IsRing(Snap(nodes), head, s)
    ensures visited == s
  {
    ghost var g, c := Snap(nodes), [head] + s;
    visited := [];
    assert c[0] in c && head in nodes;
    HeadEnds(g, head, s);
    var ep := head.next;
    while ep != head
      invariant |visited| <= |s| && visited == s[..|visited|]
      invariant ep == if |visited| < |s| then s[|visited|] else head
      decreases |s| - |visited|
    {
      ghost var k := |visited| + 1;
      assert c[k] == ep && ep in c;
      visited := visited + [ep];
      if k < |s| { assert g.Joined(c[k], c[k + 1]); } else { assert g.Joined(Last(c), head); }
      ep := ep.next;
    }
  }
}
