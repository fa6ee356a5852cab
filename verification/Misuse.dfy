/** What the macros do when they are not called as they ask to be, and exactly when that is
    harmless.  (Joining a ring to itself is in `RingLaws`.) */
module Misuse {
  import opened Basics
  import opened LinkGraph
  import opened Rings
  import opened RingOps
  import opened RingLaws
  import opened RingCheck
  import opened Brigades
  import opened BrigadeRuns
  import opened Sweep

  // ----- removing a bucket that is in no brigade any more -----

  /** The links that a second REMOVE of the stray bucket `e` writes are allocated, and those of
      them that still belong to a brigade or a singleton already hold what it writes.  Fields of
      other strays carry no meaning. */
  ghost predicate StaleSafe(g: Graph, w: World, e: Link)
    requires g.Has(e)
  {
    var p, n := g.prev[e], g.next[e];
    && g.Has(p) && g.Has(n) && p in w.place && n in w.place
    && (w.place[p] == Stray || g.next[p] == n)
    && (w.place[n] == Stray || g.prev[n] == p)
  }

  /** A second REMOVE of a bucket leaves every brigade and singleton as it was, and touches only
      allocated links, exactly when `StaleSafe` holds. */
  lemma StaleRemoveIff(g: Graph, w: World, e: Link)
    requires Inv(g, w) && e in w.place && w.place[e] == Stray
    ensures (Exec(g, Remove(e)).Done? && Inv(Exec(g, Remove(e)).graph, w)) <==> StaleSafe(g, w, e)
  {
    hide Inv;
    InvMemory(g, w);
    if StaleSafe(g, w, e) { StaleSafeKeeps(g, w, e); }
    if UnspliceOk(g, e, e) && Inv(Unsplice(g, e, e), w) {
      SamePlaced(g, w, Unsplice(g, e, e), w, g.prev[e]);
      SamePlaced(g, w, Unsplice(g, e, e), w, g.next[e]);
    }
  }

  lemma InvMemory(g: Graph, w: World)
    requires Inv(g, w)
    ensures WellFormed(w) && g.next.Keys == w.place.Keys && g.prev.Keys == w.place.Keys
  {
  }

  lemma StaleSafeKeeps(g: Graph, w: World, e: Link)
    requires Inv(g, w) && e in w.place && w.place[e] == Stray && StaleSafe(g, w, e)
    ensures UnspliceOk(g, e, e) && Inv(Unsplice(g, e, e), w)
  {
    hide Inv;
    InvMemory(g, w);
    hide WellFormed;
    PlacedSame(g, Unsplice(g, e, e), w);
  }

  /** Likewise deleting such a bucket. */
  lemma StaleDeleteIff(g: Graph, w: World, e: Link)
    requires Inv(g, w) && e in w.place && w.place[e] == Stray
    ensures (Exec(g, Delete(e)).Done? && Inv(Exec(g, Delete(e)).graph, Gone(w, e)))
       <==> StaleSafe(g, w, e)
  {
    hide Inv;
    InvMemory(g, w);
    if StaleSafe(g, w, e) {
      StaleSafeKeeps(g, w, e);
      GoneKeeps(Unsplice(g, e, e), w, e);
    }
    if UnspliceOk(g, e, e) && Inv(Free(Unsplice(g, e, e), e), Gone(w, e)) {
      SamePlaced(g, w, Free(Unsplice(g, e, e), e), Gone(w, e), g.prev[e]);
      SamePlaced(g, w, Free(Unsplice(g, e, e), e), Gone(w, e), g.next[e]);
    }
  }

  /** The invariant sees only the links of brigades and singletons. */
  lemma PlacedSame(g: Graph, g': Graph, w: World)
    requires Inv(g, w) && g.SameDomain(g')
    requires forall n :: n in w.place && w.place[n] != Stray ==> g.SameAt(g', n)
    ensures Inv(g', w)
  {
    hide IsRing;
    forall h | h in w.rings ensures IsRing(g', h, w.rings[h]) {
      RingSame(g, g', w, h);
    }
  }

  lemma RingSame(g: Graph, g': Graph, w: World, h: Link)
    requires Inv(g, w) && h in w.rings
    requires forall n :: n in w.place && w.place[n] != Stray ==> g.SameAt(g', n)
    ensures IsRing(g', h, w.rings[h])
  {
    RingPlaces(w, h);
    hide WellFormed, Cycle;
    CycleFrame(g, g', [h] + w.rings[h]);
  }

  /** And it determines them. */
  lemma SamePlaced(g: Graph, w: World, g': Graph, w': World, n: Link)
    requires Inv(g, w) && Inv(g', w') && w'.rings == w.rings
    requires n in w.place && w.place[n] != Stray ==> n in w'.place && w'.place[n] == w.place[n]
    ensures n in w.place && w.place[n] != Stray ==> g.SameAt(g', n)
  {
    if n in w.place && w.place[n].In? {
      HeldAt(w, n);
      var h := w.place[n].head;
      CycleDeterminesLinks(g, g', [h] + w.rings[h]);
      assert n in [h] + w.rings[h];
    }
  }

  /** REMOVE of the bucket at an index: the step, and what it leaves as it was. */
  lemma RemoveAt(g: Graph, w: World, h: Link, s: seq<Link>, i: nat)
    requires Inv(g, w) && h in w.rings && w.rings[h] == s && i < |s|
    ensures WellFormed(w) && Enabled(w, Remove(s[i])) && UnspliceOk(g, s[i], s[i])
    ensures var w' := Apply(w, Remove(s[i])); var u := Unsplice(g, s[i], s[i]);
      && Exec(g, Remove(s[i])) == Done(u) && WellFormed(w') && Inv(u, w')
      && w'.rings == w.rings[h := s[..i] + s[i + 1..]] && w'.place == w.place[s[i] := Stray]
  {
    hide *;
    InvRing(g, w, h);
    HeadEnds(g, h, s);
    LeaveAt(w, h, s, i);
    StepKeeps(g, w, Remove(s[i]));
    RemoveRing(g, h, s, i);
    ExecRemove(g, s[i]);
    InvWellFormed(Unsplice(g, s[i], s[i]), Apply(w, Remove(s[i])));
  }

  lemma RemoveAtLinks(g: Graph, w: World, h: Link, s: seq<Link>, i: nat)
    requires Inv(g, w) && h in w.rings && w.rings[h] == s && i < |s| && UnspliceOk(g, s[i], s[i])
    ensures forall n :: g.Has(n) && (n == s[i] || n !in [h] + s) ==>
              g.SameAt(Unsplice(g, s[i], s[i]), n)
    ensures g.prev[s[i]] == ([h] + s)[i] && g.next[s[i]] == (s + [h])[i + 1]
  {
    InvRing(g, w, h);
    RingAt(g, h, s, i);
    hide Inv, IsRing;
    RemoveRing(g, h, s, i);
    RemovedSame(g, Unsplice(g, s[i], s[i]), [h] + s, s[i]);
  }

  lemma LeaveAt(w: World, h: Link, s: seq<Link>, i: nat)
    requires WellFormed(w) && h in w.rings && w.rings[h] == s && i < |s| && Distinct(s)
    ensures Enabled(w, Remove(s[i]))
    ensures var w' := Apply(w, Remove(s[i]));
      w'.rings == w.rings[h := s[..i] + s[i + 1..]] && w'.place == w.place[s[i] := Stray]
  {
    BucketIsNoHead(w, h, s[i]);
    WithoutAt(s, i);
    hide WellFormed, Distinct;
  }

  lemma RemovedSame(g: Graph, g': Graph, c: seq<Link>, e: Link)
    requires Elsewhere(g, g', c) && g.SameAt(g', e)
    ensures forall n :: g.Has(n) && (n == e || n !in c) ==> g.SameAt(g', n)
  {
  }

  /** It can touch freed memory: the predecessor a bucket had may be gone. */
  lemma StaleRemoveCanFault(g: Graph, w: World, h: Link, i: nat)
    requires Inv(g, w) && h in w.rings && i + 1 < |w.rings[h]|
    ensures var a, b := w.rings[h][i], w.rings[h][i + 1];
      WellFormed(w) && Legal(w, [Remove(b)] + [Delete(a)])
      && Run(g, [Remove(b)] + [Delete(a)]).Done?
      && Exec(Run(g, [Remove(b)] + [Delete(a)]).graph, Remove(b)) == Fault
  {
    hide Inv, WellFormed, Enabled, Apply, Exec;
    var s := w.rings[h];
    var a, b := s[i], s[i + 1];
    RemoveAt(g, w, h, s, i + 1);
    RemoveAtLinks(g, w, h, s, i + 1);
    var u, w' := Unsplice(g, b, b), Apply(w, Remove(b));
    var t := s[..i + 1] + s[i + 2..];
    DeleteAt(u, w', h, t, i, b);
    OneOp(w', Delete(a));
    OpThen(g, w, Remove(b), [Delete(a)]);
    assert [Delete(a)][1..] == [];
  }

  /** Deleting a bucket leaves the links of a stray one alone, even where they lead to it. */
  lemma DeleteAt(g: Graph, w: World, h: Link, s: seq<Link>, i: nat, b: Link)
    requires Inv(g, w) && h in w.rings && w.rings[h] == s && i < |s|
    requires b in w.place && w.place[b] == Stray && g.Has(b) && g.prev[b] == s[i]
    ensures WellFormed(w) && Enabled(w, Delete(s[i])) && Exec(g, Delete(s[i])).Done?
    ensures Exec(Exec(g, Delete(s[i])).graph, Remove(b)) == Fault
  {
    InvWellFormed(g, w);
    BucketIsNoHead(w, h, s[i]);
    StrayOutside(w, h, b);
    ExecDelete(g, w, s[i]);
    RemoveAtLinks(g, w, h, s, i);
    hide Inv, WellFormed, Unsplice;
    FreedBehind(Unsplice(g, s[i], s[i]), b, s[i]);
  }

  lemma StrayOutside(w: World, h: Link, b: Link)
    requires WellFormed(w) && h in w.rings && b in w.place && w.place[b] == Stray
    ensures b !in [h] + w.rings[h]
  {
    RingPlaces(w, h);
  }

  lemma FreedBehind(u: Graph, b: Link, a: Link)
    requires u.Has(b) && u.prev[b] == a && b != a
    ensures Exec(Free(u, a), Remove(b)) == Fault
  {
    assert Free(u, a).Has(b) && Free(u, a).prev[b] == a && !Free(u, a).Has(a);
  }

  /** And it can be harmless although it changes the graph: here both links it points at have
      themselves been removed since. */
  lemma StaleRemoveCanBeIdle(g: Graph, w: World, h: Link, i: nat)
    requires Inv(g, w) && h in w.rings && i + 2 < |w.rings[h]|
    ensures var s := w.rings[h];
      var ops := [Remove(s[i + 1])] + ([Remove(s[i])] + [Remove(s[i + 2])]);
      && WellFormed(w) && Legal(w, ops) && Run(g, ops).Done?
      && var g' := Run(g, ops).graph;
      && g'.Has(s[i + 1]) && StaleSafe(g', ApplyAll(w, ops), s[i + 1])
      && Exec(g', Remove(s[i + 1])) != Done(g')
  {
    hide Inv, WellFormed, Enabled, Apply, Exec, Unsplice, Distinct;
    var s := w.rings[h];
    var a, b, c := s[i], s[i + 1], s[i + 2];
    var t, v := s[..i + 1] + s[i + 2..], s[..i] + s[i + 2..];
    RemoveAt(g, w, h, s, i + 1);
    var g1, w1 := Unsplice(g, b, b), Apply(w, Remove(b));
    assert t[i] == a && t[i + 1] == c && t[..i] + t[i + 1..] == v;
    RemoveAt(g1, w1, h, t, i);
    var g2, w2 := Unsplice(g1, a, a), Apply(w1, Remove(a));
    assert v[i] == c;
    RemoveAt(g2, w2, h, v, i);
    var g3, w3 := Unsplice(g2, c, c), Apply(w2, Remove(c));
    OneOp(w2, Remove(c));
    OpThen(g1, w1, Remove(a), [Remove(c)]);
    OpThen(g, w, Remove(b), [Remove(a)] + [Remove(c)]);
    OneRun(g2, Remove(c));
    InvRing(g, w, h);
    Scattered(g, h, s, i, g1, g2, g3);
    IdleRemove(g3, b);
  }

  /** Where the links of three neighbours lead after the middle, the first and the last of them
      have been removed. */
  lemma Scattered(g: Graph, h: Link, s: seq<Link>, i: nat, g1: Graph, g2: Graph, g3: Graph)
    requires IsRing(g, h, s) && i + 2 < |s|
    requires UnspliceOk(g, s[i + 1], s[i + 1]) && g1 == Unsplice(g, s[i + 1], s[i + 1])
    requires UnspliceOk(g1, s[i], s[i]) && g2 == Unsplice(g1, s[i], s[i])
    requires UnspliceOk(g2, s[i + 2], s[i + 2]) && g3 == Unsplice(g2, s[i + 2], s[i + 2])
    ensures g3.Has(s[i]) && g3.Has(s[i + 1]) && g3.Has(s[i + 2])
    ensures g3.prev[s[i + 1]] == s[i] && g3.next[s[i + 1]] == s[i + 2]
    ensures g3.prev[s[i + 2]] != s[i]
  {
    RingAt(g, h, s, i);
    RingAt(g, h, s, i + 1);
    RingAt(g, h, s, i + 2);
    var c, d := [h] + s, (s + [h])[i + 3];
    assert c[i + 1] == s[i] && c[i + 2] == s[i + 1] && c[i + 3] == s[i + 2];
    assert d == if i + 3 < |s| then c[i + 4] else c[0];
    assert c[i] != c[i + 1] && c[i] != c[i + 2] && c[i] != c[i + 3];
    assert d != s[i + 1] && d != s[i + 2];
  }

  lemma IdleRemove(g: Graph, b: Link)
    requires UnspliceOk(g, b, b) && g.prev[g.next[b]] != g.prev[b]
    ensures Exec(g, Remove(b)) != Done(g)
  {
    assert Unsplice(g, b, b).prev[g.next[b]] == g.prev[b];
  }

  /** After a bucket has been removed and another put in its place, removing the first one again
      drops the newcomer from the ring. */
  lemma StaleRemoveDropsNewcomer(g: Graph, h: Link, s: seq<Link>, i: nat, x: Link)
    requires IsRing(g, h, s) && i < |s| && g.Has(x) && x !in [h] + s
    ensures UnspliceOk(g, s[i], s[i])
    ensures var u := Unsplice(g, s[i], s[i]);
      && SpliceAfterOk(u, ([h] + s)[i], x, x)
      && var v := SpliceAfter(u, ([h] + s)[i], x, x);
      && IsRing(v, h, s[..i] + [x] + s[i + 1..])
      && UnspliceOk(v, s[i], s[i])
      && IsRing(Unsplice(v, s[i], s[i]), h, s[..i] + s[i + 1..])
  {
    hide Cycle;
    var e, t := s[i], s[..i] + s[i + 1..];
    RemoveRing(g, h, s, i);
    var u := Unsplice(g, e, e);
    assert ([h] + s)[i] == ([h] + t)[i];
    InsertAfterRing(u, h, t, i, x);
    assert t[..i] == s[..i] && t[i..] == s[i + 1..];
    StaleRemoveTouchesNewcomer(g, h, s, i, x);
    CycleElsewhere(u, Unsplice(SpliceAfter(u, ([h] + s)[i], x, x), e, e), [x], [h] + t);
  }

  lemma StaleRemoveTouchesNewcomer(g: Graph, h: Link, s: seq<Link>, i: nat, x: Link)
    requires IsRing(g, h, s) && i < |s| && g.Has(x) && x !in [h] + s
    ensures UnspliceOk(g, s[i], s[i])
    ensures var u := Unsplice(g, s[i], s[i]);
      && SpliceAfterOk(u, ([h] + s)[i], x, x)
      && var v := SpliceAfter(u, ([h] + s)[i], x, x);
      && UnspliceOk(v, s[i], s[i])
      && Elsewhere(u, Unsplice(v, s[i], s[i]), [x])
  {
    var c := [h] + s;
    var e := s[i];
    assert e == c[i + 1] && e in c;
    assert g.Joined(c[i], c[i + 1]);
    CycleNeighbours(g, c, e);
    CycleNeighbours(g, c, c[i]);
  }

  // ----- inserting a bucket that is in a brigade -----

  /** A call of one of the four inserts with a brigade or a place in one as its target and any
      bucket, loose or not, to insert; the target itself included. */
  predicate InsertCall(w: World, op: Op) {
    match op
    case InsertHead(b, e) => b in w.rings && e in w.place && e !in w.rings
    case InsertTail(b, e) => b in w.rings && e in w.place && e !in w.rings
    case InsertBefore(a, e) => w.Placed(a) && e in w.place && e !in w.rings
    case InsertAfter(a, e) => w.Placed(a) && e in w.place && e !in w.rings
    case _ => false
  }

  function Target(op: Op): Link
    requires op.InsertHead? || op.InsertTail? || op.InsertBefore? || op.InsertAfter?
  {
    if op.InsertHead? || op.InsertTail? then op.b else op.a
  }

  /** The link before which the bucket goes. */
  function Spot(g: Graph, op: Op): Link
    requires op.InsertHead? || op.InsertTail? || op.InsertBefore? || op.InsertAfter?
    requires g.Has(Target(op))
  {
    if op.InsertHead? || op.InsertAfter? then g.next[Target(op)] else Target(op)
  }

  lemma SpotPlaced(g: Graph, w: World, a: Link)
    requires Inv(g, w) && w.Placed(a)
    ensures w.place[a].head in w.rings
    ensures g.Has(a) && g.Has(g.next[a]) && g.Has(g.prev[a])
    ensures g.Joined(a, g.next[a]) && g.Joined(g.prev[a], a)
    ensures g.next[a] in w.place && w.place[g.next[a]] == w.place[a]
    ensures g.prev[a] in w.place && w.place[g.prev[a]] == w.place[a]
  {
    HeldAt(w, a);
    var h := w.place[a].head;
    RingPlaces(w, h);
    InvRing(g, w, h);
    hide Inv, WellFormed;
    CycleNeighbours(g, [h] + w.rings[h], a);
  }

  /** All four are a splice before a link of the target's brigade. */
  lemma InsertIsBefore(g: Graph, w: World, op: Op)
    requires InsertCall(w, op) && Inv(g, w)
    ensures g.Has(Target(op)) && w.Placed(Target(op))
    ensures var x := Spot(g, op);
      && SpliceBeforeOk(g, x, op.e, op.e) && g.Joined(g.prev[x], x)
      && Exec(g, op) == Done(SpliceBefore(g, x, op.e, op.e))
      && x in w.place && w.place[x] == w.place[Target(op)] && w.place[x].head in w.rings
  {
    InvMemory(g, w);
    assert Target(op) in w.rings ==> Holds(w, Target(op));
    hide Inv, WellFormed;
    var a := Target(op);
    SpotPlaced(g, w, a);
    if op.InsertHead? || op.InsertAfter? { BeforeIsAfterPredecessor(g, g.next[a], op.e, op.e); }
  }

  /** Inserting a placed bucket before or after itself, or where it already is, points it at itself
      both ways and writes nothing else, so its neighbours go on pointing at it. */
  lemma InsertBesideItself(g: Graph, w: World, op: Op)
    requires InsertCall(w, op) && Inv(g, w) && w.place[op.e].In? && g.Has(Target(op))
    requires || op.e == Target(op)
             || op.e == (if op.InsertHead? || op.InsertAfter? then g.next else g.prev)[Target(op)]
    ensures Exec(g, op) == Done(Init(g, op.e))
  {
    hide Inv, Exec, WellFormed, SpliceBefore, RingOps.Init;
    InsertIsBefore(g, w, op);
    SpotPlaced(g, w, Target(op));
    SpotOf(g, op);
    InsertBesideIsInit(g, Spot(g, op), op.e);
  }

  lemma SpotOf(g: Graph, op: Op)
    requires op.InsertHead? || op.InsertTail? || op.InsertBefore? || op.InsertAfter?
    requires g.Has(Target(op)) && g.Joined(Target(op), g.next[Target(op)])
    ensures var a, x := Target(op), Spot(g, op);
      if op.InsertHead? || op.InsertAfter? then x == g.next[a] && x in g.prev && g.prev[x] == a else x == a
  {
  }

  lemma InsertBesideIsInit(g: Graph, x: Link, e: Link)
    requires SpliceBeforeOk(g, x, e, e) && g.Joined(g.prev[x], x) && (x == e || g.prev[x] == e)
    ensures SpliceBefore(g, x, e, e) == Init(g, e)
  {
  }

  /** Whatever link `a` the bucket `r[i + 1]` of a cycle is spliced before, a cycle through the
      start of the old one still comes to the bucket's old predecessor. */
  lemma {:induction false} PlacedReached(g: Graph, r: seq<Link>, a: Link, i: nat, v: seq<Link>, k: nat)
    requires Cycle(g, r) && i + 1 < |r| && k <= i
    requires SpliceBeforeOk(g, a, r[i + 1], r[i + 1]) && g.Joined(g.prev[a], a)
    requires Cycle(SpliceBefore(g, a, r[i + 1], r[i + 1]), v) && r[0] in v
    ensures r[k] in v
  {
    if k > 0 {
      PlacedReached(g, r, a, i, v, k - 1);
      var e, g' := r[i + 1], SpliceBefore(g, a, r[i + 1], r[i + 1]);
      assert g.Joined(r[k - 1], r[k]) && g.Joined(r[i], e);
      CycleNeighbours(g', v, r[k - 1]);
      if r[k - 1] == g.prev[a] {
        assert r[k] == a && a != e;
        CycleNeighbours(g', v, e);
      }
    }
  }

  /** It still leads to the bucket, which no longer leads back: the check fails. */
  lemma PlacedBreaks(g: Graph, r: seq<Link>, a: Link, i: nat)
    requires Cycle(g, r) && i + 1 < |r|
    requires SpliceBeforeOk(g, a, r[i + 1], r[i + 1]) && g.Joined(g.prev[a], a)
    ensures !Check(SpliceBefore(g, a, r[i + 1], r[i + 1]), r[0]).Pass?
  {
    var e, p, g' := r[i + 1], r[i], SpliceBefore(g, a, r[i + 1], r[i + 1]);
    assert g.Joined(p, e) && p != e;
    assert g'.next[p] == e && g'.prev[e] != p;
    CheckEnds(g', r[0]);
    if Check(g', r[0]).Pass? {
      var v := Check(g', r[0]).visited;
      PlacedReached(g, r, a, i, v, i);
      CycleNeighbours(g', v, p);
      assert false;
    }
  }

  lemma PlacedBreaksFrom(g: Graph, h: Link, s: seq<Link>, a: Link, e: Link, start: Link)
    requires IsRing(g, h, s) && e in s && (start == h || start in s) && start != e
    requires SpliceBeforeOk(g, a, e, e) && g.Joined(g.prev[a], a)
    ensures !Check(SpliceBefore(g, a, e, e), start).Pass?
  {
    hide Cycle, IndexOf, SpliceBefore;
    var c := [h] + s;
    var j := IndexOf(c, start);
    var r := c[j..] + c[..j];
    InRotation(c, j, e);
    Rotate(g, c[..j], c[j..]);
    PlacedBreaks(g, r, a, IndexOf(r, e) - 1);
  }

  lemma InRotation<T>(c: seq<T>, j: nat, e: T)
    requires e in c && j < |c|
    ensures c == c[..j] + c[j..] && e in c[j..] + c[..j] && (c[j..] + c[..j])[0] == c[j]
  {
    assert e in c[j..] || e in c[..j];
  }

  /** After an insert every brigade passes the consistency check if and only if the bucket was in
      no brigade. */
  lemma InsertKeepsAllIff(g: Graph, w: World, op: Op)
    requires InsertCall(w, op) && Inv(g, w)
    ensures Exec(g, op).Done?
    ensures (forall h :: h in w.rings ==> Check(Exec(g, op).graph, h).Pass?) <==> w.Loose(op.e)
  {
    InsertIsBefore(g, w, op);
    if w.Loose(op.e) {
      StepKeeps(g, w, op);
      forall h | h in w.rings ensures Check(Exec(g, op).graph, h).Pass? {
        InvRing(Exec(g, op).graph, Apply(w, op), h);
        CheckPassesOnRing(Exec(g, op).graph, h, Apply(w, op).rings[h], h);
      }
    } else {
      InsertPlacedBreaks(g, w, op, w.place[op.e].head);
    }
  }

  /** From every link of the brigade the bucket was in, other than the bucket, the check fails. */
  lemma InsertPlacedBreaks(g: Graph, w: World, op: Op, start: Link)
    requires InsertCall(w, op) && Inv(g, w) && w.place[op.e].In?
    requires start in w.place && w.place[start] == w.place[op.e] && start != op.e
    ensures Exec(g, op).Done? && !Check(Exec(g, op).graph, start).Pass?
    ensures w.place[op.e].head in w.rings
  {
    InsertIsBefore(g, w, op);
    HeldAt(w, op.e);
    HeldAt(w, start);
    PlacedBreaksFrom(g, w.place[op.e].head, w.rings[w.place[op.e].head], Spot(g, op), op.e, start);
  }

  /** The check that a debug build makes after an insert notices exactly when the bucket was
      already in the target's own brigade and is not the target itself.  A bucket from another
      brigade, or one inserted next to itself, goes unnoticed. */
  lemma DebugInsertAbortsIff(g: Graph, w: World, op: Op)
    requires InsertCall(w, op) && Inv(g, w)
    ensures ExecDebug(g, op)
         == if w.place[op.e] == w.place[Target(op)] && op.e != Target(op) then Abort else Exec(g, op)
  {
    InsertIsBefore(g, w, op);
    var a := Target(op);
    assert CheckPoint(op) == Some(a);
    if w.Loose(op.e) {
      DebugStepSame(g, w, op);
    } else if op.e == a {
      assert Exec(g, op).graph.SelfLinked(a);
      assert Check(Exec(g, op).graph, a) == Pass([a]);
    } else if w.place[op.e] == w.place[a] {
      InsertPlacedBreaks(g, w, op, a);
      InsertStaysAllocated(g, w, op);
      CheckEnds(Exec(g, op).graph, a);
    } else {
      InsertElsewherePasses(g, w, op);
    }
  }

  /** Moved about within its brigade the bucket and the brigade still lead only to one another. */
  lemma InsertStaysAllocated(g: Graph, w: World, op: Op)
    requires InsertCall(w, op) && Inv(g, w) && w.Placed(op.e) && w.place[op.e] == w.place[Target(op)]
    ensures Exec(g, op).Done? && !Check(Exec(g, op).graph, Target(op)).Unallocated?
  {
    hide Inv, WellFormed, Exec, IsRing, Spot, Check, SpliceBefore, SpliceBeforeOk, Closed;
    InsertIsBefore(g, w, op);
    BrigadeClosed(g, w, w.place[op.e].head);
    var ns := set n | n in w.place && w.place[n] == w.place[op.e];
    SpliceClosed(g, ns, Spot(g, op), op.e);
    CheckInClosed(Exec(g, op).graph, ns, Target(op));
  }

  lemma CheckInClosed(g: Graph, ns: set<Link>, start: Link)
    requires Closed(g, ns) && start in ns
    ensures !Check(g, start).Unallocated?
  {
    hide Closed;
    ClosedStaysAllocated(g, ns, [start]);
  }

  lemma BrigadeClosed(g: Graph, w: World, h: Link)
    requires Inv(g, w) && h in w.rings
    ensures Closed(g, set n | n in w.place && w.place[n] == In(h))
  {
    hide Inv;
    var ns := set n | n in w.place && w.place[n] == In(h);
    forall n {:trigger StaysIn(g, ns, n)} | n in ns ensures StaysIn(g, ns, n) {
      SpotPlaced(g, w, n);
    }
  }

  lemma SpliceClosed(g: Graph, ns: set<Link>, x: Link, e: Link)
    requires Closed(g, ns) && x in ns && e in ns
    ensures SpliceBeforeOk(g, x, e, e) && Closed(SpliceBefore(g, x, e, e), ns)
  {
    ClosedAt(g, ns, x);
    ClosedAt(g, ns, e);
    var before := g.prev[x];
    var g' := SpliceBefore(g, x, e, e);
    forall n {:trigger StaysIn(g', ns, n)} | n in ns ensures StaysIn(g', ns, n) {
      ClosedAt(g, ns, n);
      assert g'.next[n] == if n == before then e else if n == e then x else g.next[n];
      assert g'.prev[n] == if n == x then e else if n == e then before else g.prev[n];
    }
  }

  lemma InsertElsewherePasses(g: Graph, w: World, op: Op)
    requires InsertCall(w, op) && Inv(g, w) && w.place[op.e] != w.place[Target(op)]
    ensures Exec(g, op).Done? && Check(Exec(g, op).graph, Target(op)).Pass?
  {
    InsertIsBefore(g, w, op);
    var x, b := Spot(g, op), w.place[Target(op)].head;
    var s := w.rings[b];
    HeldAt(w, x);
    HeldAt(w, Target(op));
    RingPlaces(w, b);
    InvRing(g, w, b);
    InsertedPasses(g, b, s, x, op.e, Target(op));
  }

  lemma InsertedPasses(g: Graph, b: Link, s: seq<Link>, x: Link, e: Link, start: Link)
    requires IsRing(g, b, s) && g.Has(e) && e !in [b] + s
    requires (x == b || x in s) && (start == b || start in s)
    ensures SpliceBeforeOk(g, x, e, e) && Check(SpliceBefore(g, x, e, e), start).Pass?
  {
    var i := IndexOf(s + [b], x);
    InsertBeforeRing(g, b, s, i, e);
    assert s == s[..i] + s[i..];
    CheckPassesOnRing(SpliceBefore(g, x, e, e), b, s[..i] + [e] + s[i..], start);
  }
}
