/** FOREACH_SAFE over a brigade, with a body that may itself run brigade operations. */
module Sweep {
  import opened Basics
  import opened LinkGraph
  import opened Rings
  import opened RingOps
  import opened RingLaws
  import opened Brigades
  import opened BrigadeRuns

  ghost predicate EndsWith<T>(s: seq<T>, t: seq<T>) {
    |t| <= |s| && s[|s| - |t|..] == t
  }

  /** The body is any legal run of operations that leaves the buckets still to be visited as the
      last ones of the brigade, in order.  It may do as it likes with the current bucket, with
      those already visited and with every other brigade. */
  ghost predicate Tame(w: World, b: Link, todo: seq<Link>, body: Link -> seq<Op>)
    requires WellFormed(w)
    decreases |todo|
  {
    todo == [] || (
      var ops := body(todo[0]);
      && (forall op :: op in ops ==> !op.NewBrigade? && !op.NewBucket?)
      && Legal(w, ops)
      && (ApplyAllWellFormed(w, ops);
          var w' := ApplyAll(w, ops);
          b in w'.rings && EndsWith(w'.rings[b], todo[1..]) && Tame(w', b, todo[1..], body)))
  }

  /** The brigades after the body has run for each of `todo` in turn. */
  ghost function Swept(w: World, b: Link, todo: seq<Link>, body: Link -> seq<Op>): World
    requires WellFormed(w) && Tame(w, b, todo, body)
    decreases |todo|
  {
    if todo == [] then w else
      ApplyAllWellFormed(w, body(todo[0]));
      Swept(ApplyAll(w, body(todo[0])), b, todo[1..], body)
  }

  /** The operations of all those runs of the body, one after the other. */
  ghost function Flat(todo: seq<Link>, body: Link -> seq<Op>): seq<Op> {
    if todo == [] then [] else body(todo[0]) + Flat(todo[1..], body)
  }

  lemma WholeEnds<T>(s: seq<T>)
    ensures EndsWith(s, s)
  {
  }

  lemma SweptNothing(w: World, b: Link, body: Link -> seq<Op>)
    requires WellFormed(w)
    ensures Tame(w, b, [], body) && Swept(w, b, [], body) == w
  {
  }

  lemma TameStep(w: World, b: Link, todo: seq<Link>, body: Link -> seq<Op>)
    requires WellFormed(w) && todo != [] && Tame(w, b, todo, body)
    ensures var ops := body(todo[0]);
      && (forall op :: op in ops ==> !op.NewBrigade? && !op.NewBucket?)
      && Legal(w, ops)
      && var w' := ApplyAll(w, ops);
      && WellFormed(w') && b in w'.rings && EndsWith(w'.rings[b], todo[1..])
      && Tame(w', b, todo[1..], body)
      && Swept(w, b, todo, body) == Swept(w', b, todo[1..], body)
  {
    ApplyAllWellFormed(w, body(todo[0]));
  }

  /** Where the links lead when `todo` is what is left to visit of the brigade `b`. */
  lemma CursorAt(g: Graph, w: World, b: Link, todo: seq<Link>)
    requires Inv(g, w) && b in w.rings && EndsWith(w.rings[b], todo)
    ensures b !in todo
    ensures g.Has(b) && (todo == w.rings[b] ==> g.next[b] == if todo == [] then b else todo[0])
    ensures todo != [] ==> g.Has(todo[0]) && g.next[todo[0]] == if |todo| > 1 then todo[1] else b
  {
    var s := w.rings[b];
    var c, k := [b] + s, |s| - |todo|;
    HeadEnds(g, b, s);
    assert s[k..] == todo;
    if todo != [] {
      assert todo[0] == s[k] == c[k + 1];
      if |todo| > 1 {
        assert todo[1] == s[k + 1] == c[k + 2];
        assert g.Joined(c[k + 1], c[k + 2]);
      } else {
        assert Last(c) == todo[0];
      }
    }
  }

  /** Sweeping is one long legal run. */
  lemma {:induction false} SweptIsRun(w: World, b: Link, todo: seq<Link>, body: Link -> seq<Op>)
    requires WellFormed(w) && Tame(w, b, todo, body)
    ensures Legal(w, Flat(todo, body)) && Swept(w, b, todo, body) == ApplyAll(w, Flat(todo, body))
    decreases |todo|
  {
    hide WellFormed, Legal, ApplyAll;
    if todo == [] {
      NoRun(w);
    } else {
      TameStep(w, b, todo, body);
      SweptIsRun(ApplyAll(w, body(todo[0])), b, todo[1..], body);
      LegalConcat(w, body(todo[0]), Flat(todo[1..], body));
    }
  }

  lemma NoRun(w: World)
    requires WellFormed(w)
    ensures Legal(w, []) && ApplyAll(w, []) == w
  {
  }

  lemma FlatStep(todo: seq<Link>, body: Link -> seq<Op>, g: Graph)
    requires todo != []
    ensures Run(g, body(todo[0])).Done? ==>
      Run(g, Flat(todo, body)) == Run(Run(g, body(todo[0])).graph, Flat(todo[1..], body))
  {
    RunConcat(g, body(todo[0]), Flat(todo[1..], body));
  }

  lemma FlatNothing(body: Link -> seq<Op>, g: Graph)
    ensures Run(g, Flat([], body)) == Done(g)
  {
  }

  /** A tame sweep, from its first turn. */
  lemma SweepOne(w: World, b: Link, s: seq<Link>, body: Link -> seq<Op>, w': World)
    requires WellFormed(w) && WellFormed(w') && s != []
    requires forall op :: op in body(s[0]) ==> !op.NewBrigade? && !op.NewBucket?
    requires Legal(w, body(s[0])) && ApplyAll(w, body(s[0])) == w'
    requires b in w'.rings && w'.rings[b] == s[1..] && Tame(w', b, s[1..], body)
    ensures Tame(w, b, s, body) && Swept(w, b, s, body) == Swept(w', b, s[1..], body)
  {
    hide WellFormed, Legal, ApplyAll;
    WholeEnds(s[1..]);
  }

  // ----- a body that removes -----

  function RemoveIt(): Link -> seq<Op> {
    (e: Link) => [Remove(e)]
  }

  lemma RemoveBody(e: Link)
    ensures RemoveIt()(e) == [Remove(e)]
    ensures forall op :: op in RemoveIt()(e) ==> !op.NewBrigade? && !op.NewBucket?
  {
  }

  lemma OneOp(w: World, op: Op)
    requires WellFormed(w) && Enabled(w, op)
    ensures Legal(w, [op]) && ApplyAll(w, [op]) == Apply(w, op)
  {
  }

  lemma BucketIsNoHead(w: World, b: Link, e: Link)
    requires WellFormed(w) && b in w.rings && e in w.rings[b]
    ensures e !in w.rings && e in w.place && w.place[e] == In(b)
  {
  }

  lemma RemoveFirst(w: World, b: Link)
    requires WellFormed(w) && b in w.rings && w.rings[b] != [] && Distinct(w.rings[b])
    ensures var e := w.rings[b][0];
      && Enabled(w, Remove(e))
      && Apply(w, Remove(e)) == World(w.rings[b := w.rings[b][1..]], w.place[e := Stray])
  {
    hide WellFormed, Distinct;
    var s := w.rings[b];
    BucketIsNoHead(w, b, s[0]);
    WithoutFirst(s);
    assert w.Removable(s[0]) && w.place[s[0]].head == b;
    assert Leave(w, s[0]) == World(w.rings[b := s[1..]], w.place[s[0] := Stray]);
  }

  lemma WithoutFirst<T>(s: seq<T>)
    requires s != [] && Distinct(s)
    ensures Without(s, s[0]) == s[1..]
  {
    WithoutAt(s, 0);
    assert s[..0] + s[1..] == s[1..];
  }

  lemma DistinctTail<T>(s: seq<T>)
    requires Distinct(s) && s != []
    ensures Distinct(s[1..])
  {
  }

  /** A body that always removes the current bucket empties the brigade; its buckets stay in memory,
      on their own, and nothing else changes its place. */
  lemma {:induction false} RemoveAllSweeps(w: World, b: Link)
    requires WellFormed(w) && b in w.rings && Distinct(w.rings[b])
    ensures Tame(w, b, w.rings[b], RemoveIt())
    ensures Swept(w, b, w.rings[b], RemoveIt())
         == World(w.rings[b := []],
                  map n | n in w.place :: if n in w.rings[b] then Stray else w.place[n])
    decreases |w.rings[b]|
  {
    var s := w.rings[b];
    if s != [] {
      hide *;
      RemoveFirst(w, b);
      RemoveBody(s[0]);
      OneOp(w, Remove(s[0]));
      var w' := Apply(w, Remove(s[0]));
      ApplyWellFormed(w, Remove(s[0]));
      DistinctTail(s);
      RemoveAllSweeps(w', b);
      SweepOne(w, b, s, RemoveIt(), w');
      Emptying(w.rings, b, s[1..]);
      FirstOut(w, b, s);
    } else {
      assert w.rings[b := []] == w.rings;
    }
  }

  lemma Emptying(rings: map<Link, seq<Link>>, b: Link, s: seq<Link>)
    ensures rings[b := s][b := []] == rings[b := []]
  {
  }

  lemma FirstOut(w: World, b: Link, s: seq<Link>)
    requires WellFormed(w) && b in w.rings && w.rings[b] == s && s != []
    ensures var place := w.place[s[0] := Stray];
      (map n | n in place :: if n in s[1..] then Stray else place[n])
      == map n | n in w.place :: if n in s then Stray else w.place[n]
  {
    BucketIsNoHead(w, b, s[0]);
  }

  /** The links after the first element has been removed. */
  lemma FirstRemoved(g: Graph, b: Link, s: seq<Link>)
    requires IsRing(g, b, s) && s != []
    ensures UnspliceOk(g, s[0], s[0]) && IsRing(Unsplice(g, s[0], s[0]), b, s[1..])
    ensures var x := (s + [b])[1];
      Unsplice(g, s[0], s[0]) == Graph(g.next[b := x], g.prev[x := b])
    ensures s[0] !in [b] + s[1..] && g.Has(s[0]) && g.prev[s[0]] == b
    ensures (s + [b])[1] in g.prev && (s + [b])[1] in [b] + s[1..]
  {
    hide IsRing, Elsewhere, Distinct, Chain;
    HeadEnds(g, b, s);
    FirstOnce(b, s);
    RingAt(g, b, s, 0);
    RemoveRing(g, b, s, 0);
    assert s[..0] + s[1..] == s[1..];
    FirstNext(g, b, s);
  }

  lemma FirstOnce<T>(b: T, s: seq<T>)
    requires Distinct(s) && s != [] && b !in s
    ensures s[0] !in [b] + s[1..]
  {
  }

  lemma FirstNext(g: Graph, b: Link, s: seq<Link>)
    requires IsRing(g, b, s) && s != []
    ensures (s + [b])[1] in g.prev && (s + [b])[1] in [b] + s[1..]
  {
    assert (s + [b])[1] in [b] + s;
  }

  /** The head of the ring `s` points at itself both ways, its elements still point forward at what
      followed them and backward at the head, and all other links are as they were. */
  function Emptied(g: Graph, b: Link, s: seq<Link>): Graph {
    Graph(g.next[b := b], map n | n in g.prev :: if n in [b] + s then b else g.prev[n])
  }

  /** That is what the links are after all elements have been removed, first to last. */
  lemma {:induction false} RemovalsLeave(g: Graph, b: Link, s: seq<Link>)
    requires IsRing(g, b, s)
    ensures Run(g, Flat(s, RemoveIt())) == Done(Emptied(g, b, s))
    decreases |s|
  {
    hide IsRing, Run, Exec, Unsplice, UnspliceOk;
    if s == [] {
      HeadEnds(g, b, s);
      FlatNothing(RemoveIt(), g);
    } else {
      FirstRemoved(g, b, s);
      OneRun(g, Remove(s[0]));
      ExecRemove(g, s[0]);
      FlatStep(s, RemoveIt(), g);
      RemovalsLeave(Unsplice(g, s[0], s[0]), b, s[1..]);
      FirstLooksBack(g.prev, b, s, (s + [b])[1]);
    }
  }

  lemma FirstLooksBack(m: map<Link, Link>, b: Link, s: seq<Link>, x: Link)
    requires s != [] && s[0] in m && m[s[0]] == b && x in m && x in [b] + s[1..]
    ensures (map n | n in m[x := b] :: if n in [b] + s[1..] then b else m[x := b][n])
         == map n | n in m :: if n in [b] + s then b else m[n]
  {
    assert forall n :: n in [b] + s <==> n in [b] + s[1..] || n == s[0];
  }

  lemma RemovalIsTame(g: Graph, w: World, b: Link)
    requires Inv(g, w) && b in w.rings
    ensures WellFormed(w) && IsRing(g, b, w.rings[b]) && Distinct(w.rings[b])
    ensures b in g.next && b in g.prev && b !in w.rings[b]
    ensures Tame(w, b, w.rings[b], RemoveIt())
  {
    InvRing(g, w, b);
    HeadEnds(g, b, w.rings[b]);
    RemoveAllSweeps(w, b);
  }

  // ----- a body that deletes -----

  function DeleteIt(): Link -> seq<Op> {
    (e: Link) => [Delete(e)]
  }

  lemma DeleteBody(e: Link)
    ensures DeleteIt()(e) == [Delete(e)]
    ensures forall op :: op in DeleteIt()(e) ==> !op.NewBrigade? && !op.NewBucket?
  {
  }

  lemma DeleteFirst(w: World, b: Link)
    requires WellFormed(w) && b in w.rings && w.rings[b] != [] && Distinct(w.rings[b])
    ensures var e := w.rings[b][0];
      && Enabled(w, Delete(e))
      && Apply(w, Delete(e)) == World(w.rings[b := w.rings[b][1..]], w.place - {e})
  {
    RemoveFirst(w, b);
    hide WellFormed, Distinct, Leave;
    var e := w.rings[b][0];
    assert w.place[e := Stray] - {e} == w.place - {e};
  }

  /** A body that always deletes the current bucket empties the brigade and takes just its buckets
      out of memory. */
  lemma {:induction false} DeleteAllSweeps(w: World, b: Link)
    requires WellFormed(w) && b in w.rings && Distinct(w.rings[b])
    ensures Tame(w, b, w.rings[b], DeleteIt())
    ensures Swept(w, b, w.rings[b], DeleteIt())
         == World(w.rings[b := []], w.place - set n | n in w.rings[b])
    decreases |w.rings[b]|
  {
    var s := w.rings[b];
    if s != [] {
      hide *;
      DeleteFirst(w, b);
      DeleteBody(s[0]);
      OneOp(w, Delete(s[0]));
      var w' := Apply(w, Delete(s[0]));
      ApplyWellFormed(w, Delete(s[0]));
      DistinctTail(s);
      DeleteAllSweeps(w', b);
      SweepOne(w, b, s, DeleteIt(), w');
      Emptying(w.rings, b, s[1..]);
      FirstGone(w.place, s);
    } else {
      assert w.rings[b := []] == w.rings;
    }
  }

  lemma FirstGone<T>(m: map<Link, T>, s: seq<Link>)
    requires s != []
    ensures m - {s[0]} - (set n | n in s[1..]) == m - set n | n in s
  {
    assert {s[0]} + (set n | n in s[1..]) == set n | n in s;
  }

  /** In the links: the head points at itself both ways, the buckets are gone, and no other field is
      written. */
  lemma {:induction false} DeletesLeave(g: Graph, b: Link, s: seq<Link>)
    requires IsRing(g, b, s)
    ensures Run(g, Flat(s, DeleteIt()))
         == Done(Graph(g.next[b := b] - (set n | n in s), g.prev[b := b] - set n | n in s))
    decreases |s|
  {
    hide IsRing, Run, Unsplice, UnspliceOk;
    if s == [] {
      HeadEnds(g, b, s);
      FlatNothing(DeleteIt(), g);
    } else {
      FirstRemoved(g, b, s);
      OneRun(g, Delete(s[0]));
      FlatStep(s, DeleteIt(), g);
      var u := Free(Unsplice(g, s[0], s[0]), s[0]);
      FreeOutside(Unsplice(g, s[0], s[0]), b, s[1..], s[0]);
      DeletesLeave(u, b, s[1..]);
      hide Exec;
      FirstDeleted(g.next, b, s, b, (s + [b])[1]);
      FirstDeleted(g.prev, b, s, (s + [b])[1], b);
    }
  }

  lemma FirstDeleted(m: map<Link, Link>, b: Link, s: seq<Link>, n: Link, v: Link)
    requires s != [] && s[0] != b && (n == b || n in s[1..])
    ensures (m[n := v] - {s[0]})[b := b] - (set k | k in s[1..]) == m[b := b] - set k | k in s
  {
    assert (set k | k in s) == (set k | k in s[1..]) + {s[0]};
  }

  lemma FreeOutside(g: Graph, b: Link, s: seq<Link>, e: Link)
    requires IsRing(g, b, s) && e !in [b] + s
    ensures IsRing(Free(g, e), b, s)
  {
  }

  lemma DeletionIsTame(g: Graph, w: World, b: Link)
    requires Inv(g, w) && b in w.rings
    ensures WellFormed(w) && IsRing(g, b, w.rings[b]) && Distinct(w.rings[b])
    ensures b in g.next && b in g.prev && b !in w.rings[b]
    ensures Tame(w, b, w.rings[b], DeleteIt())
  {
    InvRing(g, w, b);
    HeadEnds(g, b, w.rings[b]);
    DeleteAllSweeps(w, b);
  }

  // ----- a body that moves -----

  /** REMOVE the current bucket and INSERT_TAIL it into the brigade `d`. */
  function MoveTo(d: Link): Link -> seq<Op> {
    (e: Link) => [Remove(e), InsertTail(d, e)]
  }

  lemma TwoOps(w: World, p: Op, q: Op)
    requires WellFormed(w) && Enabled(w, p)
    requires WellFormed(Apply(w, p)) && Enabled(Apply(w, p), q)
    ensures Legal(w, [p, q]) && ApplyAll(w, [p, q]) == Apply(Apply(w, p), q)
  {
    OneOp(Apply(w, p), q);
    assert [p, q][1..] == [q];
  }

  lemma MoveFirstBucket(w: World, b: Link, d: Link)
    requires WellFormed(w) && b in w.rings && d in w.rings && b != d
    requires w.rings[b] != [] && Distinct(w.rings[b])
    ensures var e := w.rings[b][0];
      && Legal(w, MoveTo(d)(e))
      && ApplyAll(w, MoveTo(d)(e))
      == World(w.rings[b := w.rings[b][1..]][d := w.rings[d] + [e]], w.place[e := In(d)])
      && WellFormed(ApplyAll(w, MoveTo(d)(e)))
  {
    hide WellFormed, Distinct;
    var e := w.rings[b][0];
    RemoveFirst(w, b);
    ApplyWellFormed(w, Remove(e));
    var u := Apply(w, Remove(e));
    ApplyWellFormed(u, InsertTail(d, e));
    TwoOps(w, Remove(e), InsertTail(d, e));
    var t := w.rings[d];
    assert t[..|t|] + [e] + t[|t|..] == t + [e];
    assert w.place[e := Stray][e := In(d)] == w.place[e := In(d)];
  }

  lemma MoveAllocatesNothing(d: Link, e: Link)
    ensures forall op :: op in MoveTo(d)(e) ==> !op.NewBrigade? && !op.NewBucket?
  {
  }

  /** A body that moves each bucket to another brigade is visited by every bucket all the same,
      and ends with the brigades that one CONCAT would leave. */
  lemma {:induction false} MoveAllSweeps(w: World, b: Link, d: Link)
    requires WellFormed(w) && b in w.rings && d in w.rings && b != d && Distinct(w.rings[b])
    ensures Tame(w, b, w.rings[b], MoveTo(d))
    ensures Swept(w, b, w.rings[b], MoveTo(d))
         == Join(w, d, b, w.rings[d] + w.rings[b])
    decreases |w.rings[b]|
  {
    var s := w.rings[b];
    if s != [] {
      hide WellFormed, Legal, ApplyAll, MoveTo, Tame, Swept, Distinct;
      MoveFirstBucket(w, b, d);
      MoveAllocatesNothing(d, s[0]);
      var w' := ApplyAll(w, MoveTo(d)(s[0]));
      DistinctTail(s);
      MoveAllSweeps(w', b, d);
      SweepOne(w, b, s, MoveTo(d), w');
      MovedRings(w.rings, b, d);
      MovedPlaces(w, b, d);
    } else {
      assert w.rings[d] + [] == w.rings[d];
      assert w.rings[d := w.rings[d]][b := []] == w.rings;
    }
  }

  lemma MovedRings(rings: map<Link, seq<Link>>, b: Link, d: Link)
    requires b in rings && d in rings && b != d && rings[b] != []
    ensures var s := rings[b]; var moved := rings[b := s[1..]][d := rings[d] + [s[0]]];
      moved[d := moved[d] + moved[b]][b := []] == rings[d := rings[d] + s][b := []]
  {
    var s := rings[b];
    assert rings[d] + [s[0]] + s[1..] == rings[d] + s;
  }

  lemma MovedPlaces(w: World, b: Link, d: Link)
    requires WellFormed(w) && b in w.rings && w.rings[b] != []
    ensures var s := w.rings[b]; var place := w.place[s[0] := In(d)];
      (map n | n in place :: if n in s[1..] then In(d) else place[n])
      == map n | n in w.place :: if n in s then In(d) else w.place[n]
  {
    BucketIsNoHead(w, b, w.rings[b][0]);
  }

  /** One such move is one turn of the loop that CONCAT replaces, in every link. */
  lemma MoveIsTurn(g: Graph, d: Link, t: seq<Link>, b: Link, s: seq<Link>)
    requires IsRing(g, d, t) && IsRing(g, b, s) && Disjoint([d] + t, [b] + s) && s != []
    ensures MoveFirstOk(g, d, b) && Run(g, MoveTo(d)(s[0])) == Done(MoveFirst(g, d, b))
  {
    hide IsRing, Disjoint, Elsewhere;
    HeadEnds(g, b, s);
    MoveFirstRings(g, d, t, b, s);
    hide *;
    MoveRuns(g, d, b);
  }

  lemma MoveRuns(g: Graph, d: Link, b: Link)
    requires MoveFirstOk(g, d, b)
    ensures Run(g, MoveTo(d)(g.next[b])) == Done(MoveFirst(g, d, b))
  {
    hide Exec, UnspliceOk, Unsplice, SpliceBeforeOk, SpliceBefore;
    var e := g.next[b];
    TwoRun(g, Remove(e), InsertTail(d, e));
    ExecRemove(g, e);
    ExecInsertTail(Unsplice(g, e, e), d, e);
  }

  lemma ExecInsertTail(g: Graph, b: Link, e: Link)
    requires SpliceBeforeOk(g, b, e, e)
    ensures Exec(g, InsertTail(b, e)) == Done(SpliceBefore(g, b, e, e))
  {
  }

  /** So moving every bucket leaves every link of the memory as one CONCAT does. */
  lemma {:induction false} MovesAreConcat(g: Graph, d: Link, t: seq<Link>, b: Link, s: seq<Link>)
    requires IsRing(g, d, t) && IsRing(g, b, s) && Disjoint([d] + t, [b] + s)
    requires g.next.Keys == g.prev.Keys
    ensures ConcatOk(g, d, b) && Run(g, Flat(s, MoveTo(d))) == Done(RingOps.Concat(g, d, b))
    decreases |s|
  {
    hide IsRing, Disjoint, RingOps.Concat, ConcatOk, MoveFirst, MoveFirstOk, MoveTo, Elsewhere;
    ConcatRings(g, d, t, b, s);
    if s == [] {
      DrainTurn(g, d, t, b, s, 0);
    } else {
      MoveIsTurn(g, d, t, b, s);
      MoveFirstRings(g, d, t, b, s);
      KeysKept(g, d, b);
      MovesAreConcat(MoveFirst(g, d, b), d, t + [s[0]], b, s[1..]);
      ConcatAfterMove(g, d, t, b, s);
      RunConcat(g, MoveTo(d)(s[0]), Flat(s[1..], MoveTo(d)));
    }
  }

  lemma MovingIsTame(g: Graph, w: World, b: Link, d: Link)
    requires Inv(g, w) && b in w.rings && d in w.rings && b != d
    ensures WellFormed(w) && Distinct(w.rings[b]) && Tame(w, b, w.rings[b], MoveTo(d))
    ensures ConcatOk(g, d, b)
    ensures Run(g, Flat(w.rings[b], MoveTo(d))) == Done(RingOps.Concat(g, d, b))
  {
    InvWellFormed(g, w);
    HeadEnds(g, b, w.rings[b]);
    MoveAllSweeps(w, b, d);
    BrigadesApart(g, w, d, b);
    MovesAreConcat(g, d, w.rings[d], b, w.rings[b]);
  }
}
