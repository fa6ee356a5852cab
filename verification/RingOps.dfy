/** What the ring macros do to a graph, each as one simultaneous update of the links as they
    were before it, and the laws those updates obey.  The macros themselves, which write one
    field at a time and re-read fields in between, are in `RingMacros`. */
module RingOps {
  import opened Basics
  import opened LinkGraph
  import opened Rings

  // ----- the updates; each `...Ok` predicate lists exactly the links that are dereferenced -----

  function Init(g: Graph, n: Link): Graph
  {
    Graph(g.next[n := n], g.prev[n := n])
  }

  predicate Empty(g: Graph, h: Link)
    requires g.Has(h)
  {
    g.next[h] == h
  }

  predicate SpliceAfterOk(g: Graph, lep: Link, ep1: Link, epN: Link) {
    g.Has(lep) && g.Has(ep1) && g.Has(epN) && g.Has(g.next[lep])
  }

  function SpliceAfter(g: Graph, lep: Link, ep1: Link, epN: Link): Graph
    requires SpliceAfterOk(g, lep, ep1, epN)
  {
    var after := g.next[lep];
    Graph(g.next[epN := after][lep := ep1], g.prev[ep1 := lep][after := epN])
  }

  predicate SpliceBeforeOk(g: Graph, lep: Link, ep1: Link, epN: Link) {
    g.Has(lep) && g.Has(ep1) && g.Has(epN) && g.Has(g.prev[lep])
  }

  function SpliceBefore(g: Graph, lep: Link, ep1: Link, epN: Link): Graph
    requires SpliceBeforeOk(g, lep, ep1, epN)
  {
    var before := g.prev[lep];
    Graph(g.next[epN := lep][before := ep1], g.prev[ep1 := before][lep := epN])
  }

  predicate UnspliceOk(g: Graph, ep1: Link, epN: Link) {
    g.Has(ep1) && g.Has(epN) && g.Has(g.prev[ep1]) && g.Has(g.next[epN])
  }

  function Unsplice(g: Graph, ep1: Link, epN: Link): Graph
    requires UnspliceOk(g, ep1, epN)
  {
    var before, after := g.prev[ep1], g.next[epN];
    Graph(g.next[before := after], g.prev[after := before])
  }

  predicate ConcatOk(g: Graph, h1: Link, h2: Link) {
    g.Has(h2) && (Empty(g, h2) || SpliceBeforeOk(g, h1, g.next[h2], g.prev[h2]))
  }

  function Concat(g: Graph, h1: Link, h2: Link): Graph
    requires ConcatOk(g, h1, h2)
  {
    if Empty(g, h2) then g else Init(SpliceBefore(g, h1, g.next[h2], g.prev[h2]), h2)
  }

  predicate PrependOk(g: Graph, h1: Link, h2: Link) {
    g.Has(h2) && (Empty(g, h2) || SpliceAfterOk(g, h1, g.next[h2], g.prev[h2]))
  }

  function Prepend(g: Graph, h1: Link, h2: Link): Graph
    requires PrependOk(g, h1, h2)
  {
    if Empty(g, h2) then g else Init(SpliceAfter(g, h1, g.next[h2], g.prev[h2]), h2)
  }

  // ----- splicing -----

  lemma DisjointRotate<T>(e: seq<T>, a: seq<T>, b: seq<T>)
    requires Disjoint(e, a + b)
    ensures Disjoint(e, b + a)
  {
  }

  lemma SpliceAfterCycle(g: Graph, lep: Link, rest: seq<Link>, e: seq<Link>)
    requires Cycle(g, [lep] + rest)
    requires e != [] && Distinct(e) && Chain(g, e) && Disjoint(e, [lep] + rest)
    ensures SpliceAfterOk(g, lep, e[0], Last(e))
    ensures Cycle(SpliceAfter(g, lep, e[0], Last(e)), [lep] + (e + rest))
  {
    CycleNeighbours(g, [lep] + rest, lep);
    assert Last(e) in e && e[0] in e && g.Has(e[0]) && g.Has(Last(e));
    var g' := SpliceAfter(g, lep, e[0], Last(e));
    assert lep in [lep] + rest;
    DistinctConcat([lep], rest);
    DistinctConcat(e, rest);
    DistinctConcat([lep], e + rest);
    ChainConcat(g, [lep], rest);
    assert g.next[lep] == if rest == [] then lep else rest[0];
    ChainFrame(g, g', e);
    ChainFrame(g, g', rest);
    ChainConcat(g', e, rest);
    ChainConcat(g', [lep], e + rest);
    if rest != [] {
      assert g.Joined(Last([lep] + rest), lep);
      assert Last([lep] + rest) == Last(rest) == Last([lep] + (e + rest));
      assert Last(rest) in rest && rest[0] in rest;
    } else {
      assert [lep] + (e + rest) == [lep] + e;
    }
  }

  /** BEFORE `lep` is AFTER the predecessor of `lep`. */
  lemma BeforeIsAfterPredecessor(g: Graph, lep: Link, ep1: Link, epN: Link)
    requires SpliceBeforeOk(g, lep, ep1, epN) && g.Joined(g.prev[lep], lep)
    ensures SpliceAfterOk(g, g.prev[lep], ep1, epN)
    ensures SpliceBefore(g, lep, ep1, epN) == SpliceAfter(g, g.prev[lep], ep1, epN)
  {
  }

  /** Splicing `e` after the link at index `i` of a ring (index 0 is the sentinel) puts `e`
      there in one piece and keeps every other element in order. */
  lemma SpliceAfterRing(g: Graph, h: Link, s: seq<Link>, i: nat, e: seq<Link>)
    requires IsRing(g, h, s) && i <= |s|
    requires e != [] && Distinct(e) && Chain(g, e) && Disjoint(e, [h] + s)
    ensures SpliceAfterOk(g, ([h] + s)[i], e[0], Last(e))
    ensures IsRing(SpliceAfter(g, ([h] + s)[i], e[0], Last(e)), h, s[..i] + e + s[i..])
  {
    hide Cycle, Chain, Distinct, Disjoint;
    var c := [h] + s;
    var lep, rest := c[i], c[i + 1..] + c[..i];
    assert c == c[..i] + c[i..] && c[i..] + c[..i] == [lep] + rest;
    Rotate(g, c[..i], c[i..]);
    DisjointRotate(e, c[..i], c[i..]);
    SpliceAfterCycle(g, lep, rest, e);
    SpliceShape(h, s, i, e);
    Rotate(SpliceAfter(g, lep, e[0], Last(e)), [lep] + e + c[i + 1..], c[..i]);
  }

  lemma SpliceShape<T>(h: T, s: seq<T>, i: nat, e: seq<T>)
    requires i <= |s|
    ensures var c := [h] + s;
      && [c[i]] + (e + (c[i + 1..] + c[..i])) == ([c[i]] + e + c[i + 1..]) + c[..i]
      && c[..i] + ([c[i]] + e + c[i + 1..]) == [h] + (s[..i] + e + s[i..])
  {
  }

  /** The same before the link at index `i`, where index `|s|` is the sentinel; `i == 0` and
      the empty ring are included. */
  lemma SpliceBeforeRing(g: Graph, h: Link, s: seq<Link>, i: nat, e: seq<Link>)
    requires IsRing(g, h, s) && i <= |s|
    requires e != [] && Distinct(e) && Chain(g, e) && Disjoint(e, [h] + s)
    ensures SpliceBeforeOk(g, (s + [h])[i], e[0], Last(e))
    ensures IsRing(SpliceBefore(g, (s + [h])[i], e[0], Last(e)), h, s[..i] + e + s[i..])
  {
    var c := [h] + s;
    var lep := (s + [h])[i];
    assert lep == if i < |s| then c[i + 1] else c[0];
    assert g.Joined(c[i], lep) by {
      if i < |s| { assert g.Joined(c[i], c[i + 1]); }
    }
    SpliceAfterRing(g, h, s, i, e);
    assert lep in c;
    CycleNeighbours(g, c, lep);
    BeforeIsAfterPredecessor(g, lep, e[0], Last(e));
  }

  /** Splicing a piece of a cycle in where it already is closes it into a loop of its own, while its
      old neighbours go on pointing at it; whether it goes before or after its neighbour or itself
      makes no difference. */
  lemma SpliceBesideItself(g: Graph, e: seq<Link>, rest: seq<Link>)
    requires Cycle(g, e + rest) && e != [] && rest != []
    ensures var closed := Graph(g.next[Last(e) := e[0]], g.prev[e[0] := Last(e)]);
      && Cycle(closed, e)
      && SpliceBeforeOk(g, rest[0], e[0], Last(e)) && SpliceBefore(g, rest[0], e[0], Last(e)) == closed
      && SpliceBeforeOk(g, e[0], e[0], Last(e)) && SpliceBefore(g, e[0], e[0], Last(e)) == closed
      && SpliceAfterOk(g, Last(rest), e[0], Last(e)) && SpliceAfter(g, Last(rest), e[0], Last(e)) == closed
      && SpliceAfterOk(g, Last(e), e[0], Last(e)) && SpliceAfter(g, Last(e), e[0], Last(e)) == closed
  {
    var c := e + rest;
    assert e[0] in c && Last(e) in c && rest[0] in c && Last(rest) in c;
    CycleNeighbours(g, c, e[0]);
    CycleNeighbours(g, c, Last(e));
    DistinctConcat(e, rest);
    ChainConcat(g, e, rest);
    assert g.Joined(Last(rest), e[0]) && g.Joined(Last(e), rest[0]);
    ChainFrame(g, Graph(g.next[Last(e) := e[0]], g.prev[e[0] := Last(e)]), e);
  }

  // ----- unsplicing -----

  /** No head is needed: a piece of any cycle comes out and the remainder closes up. */
  lemma UnspliceCycle(g: Graph, e: seq<Link>, rest: seq<Link>)
    requires Cycle(g, e + rest) && e != [] && rest != []
    ensures UnspliceOk(g, e[0], Last(e))
    ensures Cycle(Unsplice(g, e[0], Last(e)), rest)
    ensures forall n :: n in e ==> g.SameAt(Unsplice(g, e[0], Last(e)), n)
  {
    var c := e + rest;
    assert e[0] in c && Last(e) in c;
    CycleNeighbours(g, c, e[0]);
    CycleNeighbours(g, c, Last(e));
    DistinctConcat(e, rest);
    ChainConcat(g, e, rest);
    assert g.Joined(Last(rest), e[0]) && g.Joined(Last(e), rest[0]);
    assert Last(rest) in rest && rest[0] in rest;
    var g' := Unsplice(g, e[0], Last(e));
    ChainFrame(g, g', rest);
    forall n | n in e ensures g.SameAt(g', n) {
      assert n in c;
      CycleNeighbours(g, c, n);
    }
  }

  lemma UnspliceRing(g: Graph, h: Link, s: seq<Link>, i: nat, j: nat)
    requires IsRing(g, h, s) && i < j <= |s|
    ensures UnspliceOk(g, s[i], s[j - 1])
    ensures IsRing(Unsplice(g, s[i], s[j - 1]), h, s[..i] + s[j..])
    ensures forall n :: n in s[i..j] ==> g.SameAt(Unsplice(g, s[i], s[j - 1]), n)
  {
    var c := [h] + s;
    var e, a, b := s[i..j], [h] + s[..i], s[j..];
    assert c == a + (e + b);
    Rotate(g, a, e + b);
    assert (e + b) + a == e + (b + a);
    UnspliceCycle(g, e, b + a);
    Rotate(Unsplice(g, s[i], s[j - 1]), b, a);
    assert a + b == [h] + (s[..i] + s[j..]);
  }

  /** Taking out a whole cycle changes nothing; in particular REMOVE of a singleton set up by
      ELEM_INIT does not. */
  lemma UnspliceWholeCycle(g: Graph, c: seq<Link>)
    requires Cycle(g, c)
    ensures UnspliceOk(g, c[0], Last(c)) && Unsplice(g, c[0], Last(c)) == g
  {
  }

  /** Doing the same unsplice again at once changes nothing more, on any graph at all. */
  lemma UnspliceTwice(g: Graph, ep1: Link, epN: Link)
    requires UnspliceOk(g, ep1, epN)
    ensures UnspliceOk(Unsplice(g, ep1, epN), ep1, epN)
    ensures Unsplice(Unsplice(g, ep1, epN), ep1, epN) == Unsplice(g, ep1, epN)
  {
  }

  // ----- single elements, with what stays as it was -----

  lemma InsertAfterRing(g: Graph, h: Link, s: seq<Link>, i: nat, e: Link)
    requires IsRing(g, h, s) && i <= |s| && g.Has(e) && e !in [h] + s
    ensures SpliceAfterOk(g, ([h] + s)[i], e, e)
    ensures IsRing(SpliceAfter(g, ([h] + s)[i], e, e), h, s[..i] + [e] + s[i..])
    ensures Elsewhere(g, SpliceAfter(g, ([h] + s)[i], e, e), [h] + s + [e])
  {
    SpliceAfterRing(g, h, s, i, [e]);
    CycleNeighbours(g, [h] + s, ([h] + s)[i]);
  }

  lemma InsertBeforeRing(g: Graph, h: Link, s: seq<Link>, i: nat, e: Link)
    requires IsRing(g, h, s) && i <= |s| && g.Has(e) && e !in [h] + s
    ensures SpliceBeforeOk(g, (s + [h])[i], e, e)
    ensures IsRing(SpliceBefore(g, (s + [h])[i], e, e), h, s[..i] + [e] + s[i..])
    ensures Elsewhere(g, SpliceBefore(g, (s + [h])[i], e, e), [h] + s + [e])
  {
    SpliceBeforeRing(g, h, s, i, [e]);
    assert (s + [h])[i] in [h] + s;
    CycleNeighbours(g, [h] + s, (s + [h])[i]);
  }

  lemma RemoveRing(g: Graph, h: Link, s: seq<Link>, i: nat)
    requires IsRing(g, h, s) && i < |s|
    ensures UnspliceOk(g, s[i], s[i])
    ensures IsRing(Unsplice(g, s[i], s[i]), h, s[..i] + s[i + 1..])
    ensures Elsewhere(g, Unsplice(g, s[i], s[i]), [h] + s)
    ensures g.SameAt(Unsplice(g, s[i], s[i]), s[i])
  {
    UnspliceRing(g, h, s, i, i + 1);
    assert s[i] in s[i..i + 1] && s[i] in [h] + s;
    CycleNeighbours(g, [h] + s, s[i]);
  }

  // ----- undoing -----

  /** UNSPLICE takes back a SPLICE, if and only if the place spliced into was consistent: every
      field is as before except the two outward ends of the sequence itself, which keep pointing
      at the place they were taken out of. */
  lemma UnspliceUndoesSplice(g: Graph, lep: Link, ep1: Link, epN: Link)
    requires SpliceAfterOk(g, lep, ep1, epN) && epN != lep && ep1 != g.next[lep]
    ensures UnspliceOk(SpliceAfter(g, lep, ep1, epN), ep1, epN)
    ensures Unsplice(SpliceAfter(g, lep, ep1, epN), ep1, epN)
         == Graph(g.next[epN := g.next[lep]], g.prev[ep1 := lep])
       <==> g.Joined(lep, g.next[lep])
  {
    var u := Unsplice(SpliceAfter(g, lep, ep1, epN), ep1, epN);
    assert u.prev[g.next[lep]] == lep;
  }

  /** Splicing a sequence back after its old predecessor restores the whole graph exactly, ends
      included, if and only if its two neighbours pointed at it to begin with. */
  lemma SpliceUndoesUnsplice(g: Graph, ep1: Link, epN: Link)
    requires UnspliceOk(g, ep1, epN)
    ensures SpliceAfterOk(Unsplice(g, ep1, epN), g.prev[ep1], ep1, epN)
    ensures SpliceAfter(Unsplice(g, ep1, epN), g.prev[ep1], ep1, epN) == g
       <==> g.Joined(g.prev[ep1], ep1) && g.Joined(epN, g.next[epN])
  {
  }
}
