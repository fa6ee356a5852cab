/** The ring macros on the heap, field by field and in the order the macros write, re-reading
    whatever their argument text re-reads.  Each is proved equal, on every graph, to the
    simultaneous update of the same name in `RingOps`.

    `nodes` is any set of allocated links; a macro needs exactly the links it dereferences to
    be in it.  The macros for heads and those for elements differ only in spelling once the
    sentinel is a link, so HEAD is proved to be AFTER the sentinel and TAIL to be BEFORE it. */
module RingMacros {
  import opened LinkGraph
  import opened RingOps

  /** What the `...Ok` conditions mean on the heap. */
  lemma ReachedAfter(lep: Link, ep1: Link, epN: Link, nodes: set<Link>)
    requires SpliceAfterOk(Snap(nodes), lep, ep1, epN)
    ensures lep in nodes && ep1 in nodes && epN in nodes && lep.next in nodes
  {
  }

  lemma ReachedBefore(lep: Link, ep1: Link, epN: Link, nodes: set<Link>)
    requires SpliceBeforeOk(Snap(nodes), lep, ep1, epN)
    ensures lep in nodes && ep1 in nodes && epN in nodes && lep.prev in nodes
  {
  }

  lemma ReachedAround(ep1: Link, epN: Link, nodes: set<Link>)
    requires UnspliceOk(Snap(nodes), ep1, epN)
    ensures ep1 in nodes && epN in nodes && ep1.prev in nodes && epN.next in nodes
  {
  }

  /** INIT of a head, and ELEM_INIT of an element. */
  method RingInit(h: Link, ghost nodes: set<Link>)
    requires h in nodes
    modifies h
    ensures Snap(nodes) == Init(old(Snap(nodes)), h)
  {
    SetNext(h, h, nodes);
    SetPrev(h, h, nodes);
  }

  method SpliceBeforeElem(lep: Link, ep1: Link, epN: Link, ghost nodes: set<Link>)
    requires SpliceBeforeOk(Snap(nodes), lep, ep1, epN)
    modifies epN`next, ep1`prev, lep.prev`next, lep`prev
    ensures Snap(nodes) == SpliceBefore(old(Snap(nodes)), lep, ep1, epN)
  {
    SetNext(epN, lep, nodes);
    SetPrev(ep1, lep.prev, nodes);
    SetNext(lep.prev, ep1, nodes);
    SetPrev(lep, epN, nodes);
  }

  method SpliceAfterElem(lep: Link, ep1: Link, epN: Link, ghost nodes: set<Link>)
    requires SpliceAfterOk(Snap(nodes), lep, ep1, epN)
    modifies ep1`prev, epN`next, lep.next`prev, lep`next
    ensures Snap(nodes) == SpliceAfter(old(Snap(nodes)), lep, ep1, epN)
  {
    SetPrev(ep1, lep, nodes);
    SetNext(epN, lep.next, nodes);
    SetPrev(lep.next, epN, nodes);
    SetNext(lep, ep1, nodes);
  }

  method SpliceHead(hp: Link, ep1: Link, epN: Link, ghost nodes: set<Link>)
    requires SpliceAfterOk(Snap(nodes), hp, ep1, epN)
    modifies ep1`prev, epN`next, hp.next`prev, hp`next
    ensures Snap(nodes) == SpliceAfter(old(Snap(nodes)), hp, ep1, epN)
  {
    SetPrev(ep1, hp, nodes);
    SetNext(epN, hp.next, nodes);
    SetPrev(hp.next, epN, nodes);
    SetNext(hp, ep1, nodes);
  }

  method SpliceTail(hp: Link, ep1: Link, epN: Link, ghost nodes: set<Link>)
    requires SpliceBeforeOk(Snap(nodes), hp, ep1, epN)
    modifies epN`next, ep1`prev, hp.prev`next, hp`prev
    ensures Snap(nodes) == SpliceBefore(old(Snap(nodes)), hp, ep1, epN)
  {
    SetNext(epN, hp, nodes);
    SetPrev(ep1, hp.prev, nodes);
    SetNext(hp.prev, ep1, nodes);
    SetPrev(hp, epN, nodes);
  }

  method RingUnsplice(ep1: Link, epN: Link, ghost nodes: set<Link>)
    requires UnspliceOk(Snap(nodes), ep1, epN)
    modifies ep1.prev`next, epN.next`prev
    ensures Snap(nodes) == Unsplice(old(Snap(nodes)), ep1, epN)
  {
    SetNext(ep1.prev, epN.next, nodes);
    SetPrev(epN.next, ep1.prev, nodes);
  }

  // ----- CONCAT and PREPEND, whose arguments are re-read in every write -----

  /** The expanded text of CONCAT, one write after the other, with FIRST(h2) and LAST(h2) read
      afresh in each. */
  function ConcatText(g: Graph, h1: Link, h2: Link): Graph
    requires ConcatOk(g, h1, h2)
  {
    if Empty(g, h2) then g else
      var g1 := g.WithNext(g.prev[h2], h1);
      var g2 := g1.WithPrev(g1.next[h2], g1.prev[h1]);
      var g3 := g2.WithNext(g2.prev[h1], g2.next[h2]);
      var g4 := g3.WithPrev(h1, g3.prev[h2]);
      Init(g4, h2)
  }

  function PrependText(g: Graph, h1: Link, h2: Link): Graph
    requires PrependOk(g, h1, h2)
  {
    if Empty(g, h2) then g else
      var g1 := g.WithPrev(g.next[h2], h1);
      var g2 := g1.WithNext(g1.prev[h2], g1.next[h1]);
      var g3 := g2.WithPrev(g2.next[h1], g2.prev[h2]);
      var g4 := g3.WithNext(h1, g3.next[h2]);
      Init(g4, h2)
  }

  /** Re-reading is as good as reading once on every graph except where LAST(h2) alone is the
      sentinel, and there too in the two cases named.  The heads may be the same. */
  lemma ConcatTextIff(g: Graph, h1: Link, h2: Link)
    requires ConcatOk(g, h1, h2)
    ensures ConcatText(g, h1, h2) == Concat(g, h1, h2)
       <==> || Empty(g, h2) || g.prev[h2] != h2 || g.next[h2] == h1
            || (g.prev[h1] == h2 && g.prev[g.next[h2]] == h2)
  {
    if !Empty(g, h2) {
      var f, l := g.next[h2], g.prev[h1];
      var text, once := ConcatText(g, h1, h2), Concat(g, h1, h2);
      if g.prev[h2] == h2 && f != h1 {
        assert text.prev[f] == if f == h2 then h2 else g.prev[f];
        assert once.next[l] == if l == h2 then h2 else f;
      }
    }
  }

  lemma PrependTextIff(g: Graph, h1: Link, h2: Link)
    requires PrependOk(g, h1, h2)
    ensures PrependText(g, h1, h2) == Prepend(g, h1, h2)
       <==> Empty(g, h2) || g.prev[h2] != h2 || g.next[h1] == g.next[h2]
  {
    if !Empty(g, h2) {
      assert Prepend(g, h1, h2).next[h1] == if h1 == h2 then h2 else g.next[h2];
    }
  }

  method RingConcat(h1: Link, h2: Link, ghost nodes: set<Link>)
    requires ConcatOk(Snap(nodes), h1, h2)
    modifies h2.prev`next, h2.next`prev, h1.prev`next, h1`prev, h2
    ensures Snap(nodes) == ConcatText(old(Snap(nodes)), h1, h2)
  {
    if h2.next != h2 {
      SetNext(h2.prev, h1, nodes);
      SetPrev(h2.next, h1.prev, nodes);
      SetNext(h1.prev, h2.next, nodes);
      SetPrev(h1, h2.prev, nodes);
      SetNext(h2, h2, nodes);
      SetPrev(h2, h2, nodes);
    }
  }

  method RingPrepend(h1: Link, h2: Link, ghost nodes: set<Link>)
    requires PrependOk(Snap(nodes), h1, h2)
    modifies h2.next`prev, h2.prev`next, h1.next`prev, h1`next, h2
    ensures Snap(nodes) == PrependText(old(Snap(nodes)), h1, h2)
  {
    if h2.next != h2 {
      SetPrev(h2.next, h1, nodes);
      SetNext(h2.prev, h1.next, nodes);
      SetPrev(h1.next, h2.prev, nodes);
      SetNext(h1, h2.next, nodes);
      SetNext(h2, h2, nodes);
      SetPrev(h2, h2, nodes);
    }
  }
}
