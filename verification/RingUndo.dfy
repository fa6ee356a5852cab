/** Removals taken back.  A removed element keeps pointing at the place it came from, so links
    can be put back without searching, as long as it is done in the reverse order. */
module RingUndo {
  import opened Basics
  import opened LinkGraph
  import opened Rings
  import opened RingOps
  import opened RingLaws

  /** REMOVE every element of `xs`, first to last. */
  function TakeOut(g: Graph, xs: seq<Link>): Option<Graph>
    decreases |xs|
  {
    if xs == [] then Some(g)
    else if UnspliceOk(g, xs[0], xs[0]) then TakeOut(Unsplice(g, xs[0], xs[0]), xs[1..])
    else None
  }

  /** INSERT_AFTER its own remembered predecessor every element of `xs`, last to first. */
  function PutBack(g: Graph, xs: seq<Link>): Option<Graph>
  {
    if xs == [] then Some(g) else
      match PutBack(g, xs[1..])
      case None => None
      case Some(g1) =>
        if g1.Has(xs[0]) && SpliceAfterOk(g1, g1.prev[xs[0]], xs[0], xs[0])
        then Some(SpliceAfter(g1, g1.prev[xs[0]], xs[0], xs[0]))
        else None
  }

  function WithoutAll<T(==)>(s: seq<T>, xs: seq<T>): (r: seq<T>)
    ensures forall y :: y in r ==> y in s && y !in xs
    ensures forall y :: y in s && y !in xs ==> y in r
    decreases |xs|
  {
    if xs == [] then s else WithoutAll(Without(s, xs[0]), xs[1..])
  }

  lemma TakeOutOne(g: Graph, h: Link, s: seq<Link>, x: Link)
    requires IsRing(g, h, s) && x in s
    ensures UnspliceOk(g, x, x) && IsRing(Unsplice(g, x, x), h, Without(s, x))
    ensures SpliceAfterOk(Unsplice(g, x, x), Unsplice(g, x, x).prev[x], x, x)
    ensures SpliceAfter(Unsplice(g, x, x), Unsplice(g, x, x).prev[x], x, x) == g
  {
    HeadEnds(g, h, s);
    var i := IndexOf(s, x);
    RemoveRing(g, h, s, i);
    WithoutAt(s, i);
    assert x == ([h] + s)[i + 1];
    CycleNeighbours(g, [h] + s, x);
    SpliceUndoesUnsplice(g, x, x);
  }

  /** Any number of elements may be removed from a ring and put back in reverse order: the ring
      without them is a ring in between, and every link of the graph is restored. */
  lemma {:induction false} PutBackRestores(g: Graph, h: Link, s: seq<Link>, xs: seq<Link>)
    requires IsRing(g, h, s) && Distinct(xs) && forall x :: x in xs ==> x in s
    ensures TakeOut(g, xs).Some?
    ensures IsRing(TakeOut(g, xs).value, h, WithoutAll(s, xs))
    ensures PutBack(TakeOut(g, xs).value, xs) == Some(g)
    decreases |xs|
  {
    if xs != [] {
      TakeOutOne(g, h, s, xs[0]);
      forall x | x in xs[1..] ensures x in Without(s, xs[0]) {
        assert x != xs[0];
      }
      PutBackRestores(Unsplice(g, xs[0], xs[0]), h, Without(s, xs[0]), xs[1..]);
    }
  }
}
