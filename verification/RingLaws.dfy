/** Laws that relate several ring operations: CONCAT and PREPEND against the rings they join, and
    CONCAT against the loop it replaces. */
module RingLaws {
  import opened Basics
  import opened LinkGraph
  import opened Rings
  import opened RingOps

  // ----- joining two rings -----

  /** The only fields CONCAT writes are those where the two sequences meet, and the head `h2`. */
  ghost predicate WritesOnly(g: Graph, g': Graph, nexts: set<Link>, prevs: set<Link>) {
    && g.SameDomain(g')
    && (forall n :: n in g.next && n !in nexts ==> g'.next[n] == g.next[n])
    && (forall n :: n in g.prev && n !in prevs ==> g'.prev[n] == g.prev[n])
  }

  lemma HeadEnds(g: Graph, h: Link, s: seq<Link>)
    requires IsRing(g, h, s)
    ensures g.Has(h) && (Empty(g, h) <==> s == [])
    ensures s != [] ==> g.next[h] == s[0] && g.prev[h] == Last(s)
    ensures s == [] ==> g.SelfLinked(h)
    ensures Chain(g, s) && Distinct(s) && h !in s
  {
    DistinctConcat([h], s);
    ChainConcat(g, [h], s);
    assert Last([h] + s) == if s == [] then h else Last(s);
    if s != [] { assert s[0] in s; }
  }

  lemma RingAt(g: Graph, h: Link, s: seq<Link>, i: nat)
    requires IsRing(g, h, s) && i < |s|
    ensures g.Has(s[i]) && g.prev[s[i]] == ([h] + s)[i] && g.next[s[i]] == (s + [h])[i + 1]
  {
    var c := [h] + s;
    assert g.Joined(c[i], c[i + 1]);
    if i + 1 < |s| { assert g.Joined(c[i + 1], c[i + 2]); }
  }

  lemma EmptiedHead(g: Graph, h: Link)
    requires g.Has(h)
    ensures IsRing(Init(g, h), h, [])
  {
  }

  /** CONCAT yields the first ring followed by the second and leaves the second empty. */
  lemma ConcatRings(g: Graph, h1: Link, s1: seq<Link>, h2: Link, s2: seq<Link>)
    requires IsRing(g, h1, s1) && IsRing(g, h2, s2) && Disjoint([h1] + s1, [h2] + s2)
    ensures ConcatOk(g, h1, h2)
    ensures IsRing(Concat(g, h1, h2), h1, s1 + s2) && IsRing(Concat(g, h1, h2), h2, [])
  {
    hide Cycle, Chain;
    HeadEnds(g, h1, s1);
    HeadEnds(g, h2, s2);
    assert h2 in [h2] + s2 && h2 !in [h1] + s1;
    if s2 == [] {
      assert s1 + s2 == s1;
    } else {
      forall n | n in s2 ensures n !in [h1] + s1 { assert n in [h2] + s2; }
      SpliceBeforeRing(g, h1, s1, |s1|, s2);
      assert s1[..|s1|] + s2 + s1[|s1|..] == s1 + s2;
      InitElsewhere(SpliceBefore(g, h1, s2[0], Last(s2)), h1, s1 + s2, h2);
    }
  }

  lemma ConcatWrites(g: Graph, h1: Link, s1: seq<Link>, h2: Link, s2: seq<Link>)
    requires IsRing(g, h1, s1) && IsRing(g, h2, s2) && ConcatOk(g, h1, h2)
    ensures WritesOnly(g, Concat(g, h1, h2),
                       {Last([h1] + s1), Last([h2] + s2), h2}, {h1, h2, (s2 + [h2])[0]})
  {
    HeadEnds(g, h1, s1);
    HeadEnds(g, h2, s2);
    assert s2 != [] ==> Last([h2] + s2) == Last(s2);
    assert Last([h1] + s1) == if s1 == [] then h1 else Last(s1);
  }

  lemma PrependRings(g: Graph, h1: Link, s1: seq<Link>, h2: Link, s2: seq<Link>)
    requires IsRing(g, h1, s1) && IsRing(g, h2, s2) && Disjoint([h1] + s1, [h2] + s2)
    ensures PrependOk(g, h1, h2)
    ensures IsRing(Prepend(g, h1, h2), h1, s2 + s1) && IsRing(Prepend(g, h1, h2), h2, [])
  {
    hide Cycle, Chain;
    HeadEnds(g, h1, s1);
    HeadEnds(g, h2, s2);
    assert h2 in [h2] + s2 && h2 !in [h1] + s1;
    if s2 == [] {
      assert s2 + s1 == s1;
    } else {
      forall n | n in s2 ensures n !in [h1] + s1 { assert n in [h2] + s2; }
      SpliceAfterRing(g, h1, s1, 0, s2);
      assert s1[..0] + s2 + s1[0..] == s2 + s1;
      InitElsewhere(SpliceAfter(g, h1, s2[0], Last(s2)), h1, s2 + s1, h2);
    }
  }

  lemma PrependWrites(g: Graph, h1: Link, s1: seq<Link>, h2: Link, s2: seq<Link>)
    requires IsRing(g, h1, s1) && IsRing(g, h2, s2) && PrependOk(g, h1, h2)
    ensures WritesOnly(g, Prepend(g, h1, h2),
                       {h1, h2, Last([h2] + s2)}, {(s1 + [h1])[0], (s2 + [h2])[0], h2})
  {
    HeadEnds(g, h1, s1);
    HeadEnds(g, h2, s2);
    assert s2 != [] ==> Last([h2] + s2) == Last(s2);
    assert (s1 + [h1])[0] == if s1 == [] then h1 else s1[0];
  }

  /** INIT of a head that no other ring leads to empties it and leaves that ring alone. */
  lemma InitElsewhere(g: Graph, h: Link, s: seq<Link>, h2: Link)
    requires IsRing(g, h, s) && g.Has(h2) && h2 !in [h] + s
    ensures IsRing(Init(g, h2), h, s) && IsRing(Init(g, h2), h2, [])
  {
  }

  /** Joining a non-empty ring to itself loses its elements: the head comes out empty and the
      elements are left as a loop that no head leads to. */
  lemma SelfJoinLosesElements(g: Graph, h: Link, s: seq<Link>)
    requires IsRing(g, h, s) && s != []
    ensures ConcatOk(g, h, h) && PrependOk(g, h, h)
    ensures Concat(g, h, h) == Prepend(g, h, h)
    ensures IsRing(Concat(g, h, h), h, []) && Cycle(Concat(g, h, h), s)
  {
    HeadEnds(g, h, s);
    assert g.Has(s[0]) && g.Has(Last(s));
    var g' := Concat(g, h, h);
    assert g'.next == g.next[Last(s) := s[0]][h := h];
    assert g'.prev == g.prev[s[0] := Last(s)][h := h];
    ChainFrame(g, g', s);
    assert s[0] in s && Last(s) in s;
    EmptiedHead(SpliceBefore(g, h, s[0], Last(s)), h);
  }

  /** CONCAT does what it is documented to do exactly when the heads differ or there is nothing
      to move. */
  lemma ConcatMovesAllIff(g: Graph, h1: Link, s1: seq<Link>, h2: Link, s2: seq<Link>)
    requires IsRing(g, h1, s1) && IsRing(g, h2, s2)
    requires h1 == h2 || Disjoint([h1] + s1, [h2] + s2)
    ensures ConcatOk(g, h1, h2)
    ensures IsRing(Concat(g, h1, h2), h1, s1 + s2) && IsRing(Concat(g, h1, h2), h2, [])
       <==> h1 != h2 || Empty(g, h2)
  {
    HeadEnds(g, h2, s2);
    if h1 != h2 {
      ConcatRings(g, h1, s1, h2, s2);
    } else {
      LinksDetermineCycle(g, [h1] + s1, [h2] + s2);
      assert s1 == ([h1] + s1)[1..] && s2 == ([h2] + s2)[1..];
      if s2 == [] {
        assert s1 + s2 == s2;
      } else {
        SelfJoinLosesElements(g, h1, s1);
        var g' := Concat(g, h1, h2);
        if IsRing(g', h1, s1 + s2) {
          HeadEnds(g', h1, s1 + s2);
          HeadEnds(g', h1, []);
          assert false;
        }
      }
    }
  }

  lemma PrependMovesAllIff(g: Graph, h1: Link, s1: seq<Link>, h2: Link, s2: seq<Link>)
    requires IsRing(g, h1, s1) && IsRing(g, h2, s2)
    requires h1 == h2 || Disjoint([h1] + s1, [h2] + s2)
    ensures PrependOk(g, h1, h2)
    ensures IsRing(Prepend(g, h1, h2), h1, s2 + s1) && IsRing(Prepend(g, h1, h2), h2, [])
       <==> h1 != h2 || Empty(g, h2)
  {
    HeadEnds(g, h2, s2);
    if h1 != h2 {
      PrependRings(g, h1, s1, h2, s2);
    } else {
      LinksDetermineCycle(g, [h1] + s1, [h2] + s2);
      assert s1 == ([h1] + s1)[1..] && s2 == ([h2] + s2)[1..];
      if s2 == [] {
        assert s2 + s1 == s2;
      } else {
        SelfJoinLosesElements(g, h1, s1);
        var g' := Prepend(g, h1, h2);
        if IsRing(g', h1, s2 + s1) {
          HeadEnds(g', h1, s2 + s1);
          HeadEnds(g', h1, []);
          assert false;
        }
      }
    }
  }

  // ----- the loop that CONCAT replaces -----

  /** Two graphs that hold the same two rings and agree everywhere else are equal. */
  lemma RingsDetermineLinks(g: Graph, g': Graph, c: seq<Link>, d: seq<Link>)
    requires g.SameDomain(g') && g.next.Keys == g.prev.Keys
    requires Cycle(g, c) && Cycle(g', c) && Cycle(g, d) && Cycle(g', d)
    requires forall n :: n in g.next && n !in c && n !in d ==> g.SameAt(g', n)
    ensures g == g'
  {
    CycleDeterminesLinks(g, g', c);
    CycleDeterminesLinks(g, g', d);
    assert forall n :: n in g.next ==> g.SameAt(g', n);
    assert g.next == g'.next && g.prev == g'.prev;
  }

  predicate MoveFirstOk(g: Graph, h1: Link, h2: Link) {
    && g.Has(h2)
    && UnspliceOk(g, g.next[h2], g.next[h2])
    && SpliceBeforeOk(Unsplice(g, g.next[h2], g.next[h2]), h1, g.next[h2], g.next[h2])
  }

  /** REMOVE the first element of `h2`, then INSERT_TAIL it into `h1`. */
  function MoveFirst(g: Graph, h1: Link, h2: Link): Graph
    requires MoveFirstOk(g, h1, h2)
  {
    SpliceBefore(Unsplice(g, g.next[h2], g.next[h2]), h1, g.next[h2], g.next[h2])
  }

  /** Run "while `h2` is not empty, move its first element", for at most `steps` turns; `None`
      when it has not finished by then, or touches memory it must not. */
  function Drain(g: Graph, h1: Link, h2: Link, steps: nat): Option<Graph>
    decreases steps
  {
    if !g.Has(h2) then None
    else if Empty(g, h2) then Some(g)
    else if steps == 0 || !MoveFirstOk(g, h1, h2) then None
    else Drain(MoveFirst(g, h1, h2), h1, h2, steps - 1)
  }

  lemma RemoveFirstRings(g: Graph, h1: Link, s1: seq<Link>, h2: Link, s2: seq<Link>)
    requires IsRing(g, h1, s1) && IsRing(g, h2, s2) && Disjoint([h1] + s1, [h2] + s2) && s2 != []
    ensures UnspliceOk(g, s2[0], s2[0])
    ensures IsRing(Unsplice(g, s2[0], s2[0]), h1, s1)
    ensures IsRing(Unsplice(g, s2[0], s2[0]), h2, s2[1..])
    ensures Elsewhere(g, Unsplice(g, s2[0], s2[0]), [h2] + s2)
    ensures Unsplice(g, s2[0], s2[0]).Has(s2[0]) && s2[0] !in [h1] + s1
    ensures Disjoint([h2] + s2[1..], [h1] + s1 + [s2[0]])
  {
    HeadEnds(g, h2, s2);
    FirstApart(h1, s1, h2, s2);
    hide Cycle, Elsewhere, Disjoint;
    RemoveRing(g, h2, s2, 0);
    assert s2[..0] + s2[1..] == s2[1..];
    DisjointSwap([h1] + s1, [h2] + s2);
    CycleElsewhere(g, Unsplice(g, s2[0], s2[0]), [h2] + s2, [h1] + s1);
  }

  lemma DisjointSwap<T>(a: seq<T>, b: seq<T>)
    requires Disjoint(a, b)
    ensures Disjoint(b, a)
  {
  }

  lemma FirstApart<T>(h1: T, s1: seq<T>, h2: T, s2: seq<T>)
    requires Disjoint([h1] + s1, [h2] + s2) && s2 != [] && Distinct(s2) && h2 !in s2
    ensures s2[0] !in [h1] + s1
    ensures Disjoint([h2] + s2[1..], [h1] + s1 + [s2[0]])
  {
    assert s2[0] in [h2] + s2;
  }

  lemma AppendLoose(g: Graph, h: Link, s: seq<Link>, e: Link, d: seq<Link>)
    requires IsRing(g, h, s) && g.Has(e) && e !in [h] + s
    requires Cycle(g, d) && Disjoint(d, [h] + s + [e])
    ensures SpliceBeforeOk(g, h, e, e)
    ensures IsRing(SpliceBefore(g, h, e, e), h, s + [e]) && Cycle(SpliceBefore(g, h, e, e), d)
    ensures Elsewhere(g, SpliceBefore(g, h, e, e), [h] + s + [e])
  {
    InsertBeforeRing(g, h, s, |s|, e);
    assert s[..|s|] + [e] + s[|s|..] == s + [e];
    CycleElsewhere(g, SpliceBefore(g, h, e, e), [h] + s + [e], d);
  }

  lemma MoveFirstRings(g: Graph, h1: Link, s1: seq<Link>, h2: Link, s2: seq<Link>)
    requires IsRing(g, h1, s1) && IsRing(g, h2, s2) && Disjoint([h1] + s1, [h2] + s2) && s2 != []
    ensures MoveFirstOk(g, h1, h2)
    ensures IsRing(MoveFirst(g, h1, h2), h1, s1 + [s2[0]])
    ensures IsRing(MoveFirst(g, h1, h2), h2, s2[1..])
    ensures Elsewhere(g, MoveFirst(g, h1, h2), [h2] + s2 + ([h1] + s1 + [s2[0]]))
    ensures Disjoint([h1] + (s1 + [s2[0]]), [h2] + s2[1..])
  {
    hide Cycle;
    HeadEnds(g, h2, s2);
    RemoveFirstRings(g, h1, s1, h2, s2);
    var u := Unsplice(g, s2[0], s2[0]);
    AppendLoose(u, h1, s1, s2[0], [h2] + s2[1..]);
    ElsewhereTrans(g, u, MoveFirst(g, h1, h2), [h2] + s2, [h1] + s1 + [s2[0]]);
    assert [h1] + (s1 + [s2[0]]) == [h1] + s1 + [s2[0]];
  }

  /** One turn of the loop. */
  lemma DrainTurn(g: Graph, h1: Link, s1: seq<Link>, h2: Link, s2: seq<Link>, steps: nat)
    requires IsRing(g, h1, s1) && IsRing(g, h2, s2) && Disjoint([h1] + s1, [h2] + s2)
    ensures s2 == [] ==>
      ConcatOk(g, h1, h2) && Concat(g, h1, h2) == g && Drain(g, h1, h2, steps) == Some(g)
    ensures s2 != [] && steps == 0 ==> Drain(g, h1, h2, steps) == None
    ensures s2 != [] && steps > 0 ==>
      && MoveFirstOk(g, h1, h2)
      && Drain(g, h1, h2, steps) == Drain(MoveFirst(g, h1, h2), h1, h2, steps - 1)
  {
    hide IsRing, MoveFirst, MoveFirstOk;
    HeadEnds(g, h1, s1);
    HeadEnds(g, h2, s2);
    if s2 != [] { MoveFirstRings(g, h1, s1, h2, s2); }
  }

  /** The O(1) CONCAT leaves every link of the whole graph just as the loop would. */
  lemma {:induction false} ConcatRefinesDrain(g: Graph, h1: Link, s1: seq<Link>,
                                              h2: Link, s2: seq<Link>, steps: nat)
    requires IsRing(g, h1, s1) && IsRing(g, h2, s2) && Disjoint([h1] + s1, [h2] + s2)
    requires g.next.Keys == g.prev.Keys
    ensures ConcatOk(g, h1, h2)
    ensures Drain(g, h1, h2, steps) == if steps < |s2| then None else Some(Concat(g, h1, h2))
    decreases |s2|
  {
    hide IsRing, Disjoint, Drain, Concat, ConcatOk, MoveFirst, MoveFirstOk, Elsewhere;
    ConcatRings(g, h1, s1, h2, s2);
    DrainTurn(g, h1, s1, h2, s2, steps);
    if s2 != [] && steps > 0 {
      MoveFirstRings(g, h1, s1, h2, s2);
      KeysKept(g, h1, h2);
      ConcatRefinesDrain(MoveFirst(g, h1, h2), h1, s1 + [s2[0]], h2, s2[1..], steps - 1);
      ConcatAfterMove(g, h1, s1, h2, s2);
    }
  }

  lemma KeysKept(g: Graph, h1: Link, h2: Link)
    requires MoveFirstOk(g, h1, h2)
    ensures g.SameDomain(MoveFirst(g, h1, h2))
  {
  }

  lemma ConcatAfterMove(g: Graph, h1: Link, s1: seq<Link>, h2: Link, s2: seq<Link>)
    requires IsRing(g, h1, s1) && IsRing(g, h2, s2) && Disjoint([h1] + s1, [h2] + s2) && s2 != []
    requires g.next.Keys == g.prev.Keys && MoveFirstOk(g, h1, h2)
    ensures ConcatOk(g, h1, h2) && ConcatOk(MoveFirst(g, h1, h2), h1, h2)
    ensures Concat(MoveFirst(g, h1, h2), h1, h2) == Concat(g, h1, h2)
  {
    hide Cycle;
    ConcatRings(g, h1, s1, h2, s2);
    var all := [h1] + (s1 + s2) + [h2];
    ConcatElsewhere(g, h1, s1, h2, s2, all);
    MovedConcat(g, h1, s1, h2, s2);
    RingsDetermineLinks(Concat(g, h1, h2), Concat(MoveFirst(g, h1, h2), h1, h2),
                        [h1] + (s1 + s2), [h2] + []);
  }

  lemma MovedConcat(g: Graph, h1: Link, s1: seq<Link>, h2: Link, s2: seq<Link>)
    requires IsRing(g, h1, s1) && IsRing(g, h2, s2) && Disjoint([h1] + s1, [h2] + s2) && s2 != []
    requires MoveFirstOk(g, h1, h2)
    ensures ConcatOk(MoveFirst(g, h1, h2), h1, h2)
    ensures IsRing(Concat(MoveFirst(g, h1, h2), h1, h2), h1, s1 + s2)
    ensures IsRing(Concat(MoveFirst(g, h1, h2), h1, h2), h2, [])
    ensures Elsewhere(g, Concat(MoveFirst(g, h1, h2), h1, h2), [h1] + (s1 + s2) + [h2])
  {
    hide Cycle;
    MoveFirstRings(g, h1, s1, h2, s2);
    var m := MoveFirst(g, h1, h2);
    var t1, t2 := s1 + [s2[0]], s2[1..];
    ConcatRings(m, h1, t1, h2, t2);
    assert t1 + t2 == s1 + s2;
    var all := [h1] + (s1 + s2) + [h2];
    ConcatElsewhere(m, h1, t1, h2, t2, all);
    ElsewhereTrans(g, m, Concat(m, h1, h2), [h2] + s2 + ([h1] + t1), all);
    ElsewhereWiden(g, Concat(m, h1, h2), [h2] + s2 + ([h1] + t1) + all, all);
  }

  lemma ElsewhereWiden(g: Graph, g': Graph, c: seq<Link>, d: seq<Link>)
    requires Elsewhere(g, g', c) && forall n :: n in c ==> n in d
    ensures Elsewhere(g, g', d)
  {
  }

  lemma ConcatElsewhere(g: Graph, h1: Link, s1: seq<Link>, h2: Link, s2: seq<Link>, all: seq<Link>)
    requires IsRing(g, h1, s1) && IsRing(g, h2, s2) && ConcatOk(g, h1, h2)
    requires forall n :: n in [h1] + s1 || n in [h2] + s2 ==> n in all
    ensures Elsewhere(g, Concat(g, h1, h2), all)
  {
    ConcatWrites(g, h1, s1, h2, s2);
    assert Last([h1] + s1) in [h1] + s1 && Last([h2] + s2) in [h2] + s2;
    assert h1 in [h1] + s1 && h2 in [h2] + s2;
    assert (s2 + [h2])[0] in [h2] + s2;
  }

  lemma PrependElsewhere(g: Graph, h1: Link, s1: seq<Link>, h2: Link, s2: seq<Link>, all: seq<Link>)
    requires IsRing(g, h1, s1) && IsRing(g, h2, s2) && PrependOk(g, h1, h2)
    requires forall n :: n in [h1] + s1 || n in [h2] + s2 ==> n in all
    ensures Elsewhere(g, Prepend(g, h1, h2), all)
  {
    PrependWrites(g, h1, s1, h2, s2);
    assert Last([h2] + s2) in [h2] + s2;
    assert h1 in [h1] + s1 && h2 in [h2] + s2;
    assert (s1 + [h1])[0] in [h1] + s1 && (s2 + [h2])[0] in [h2] + s2;
  }
}
