/** What every brigade operation leaves in the links, spelled out: what the consistency walk reads
    from each head afterwards, and when a debug build aborts, on any links whatever. */
module Readings {
  import opened Basics
  import opened LinkGraph
  import opened Rings
  import opened RingOps
  import opened RingLaws
  import opened RingCheck
  import opened Brigades
  import opened BrigadeRuns

  // ----- called as they ask to be -----

  /** The walk reads `s` from `b`, and from every other head what `w` says. */
  ghost predicate Reads(g: Graph, w: World, b: Link, s: seq<Link>) {
    && Check(g, b) == Pass([b] + s)
    && forall h :: h in w.rings && h != b ==> Check(g, h) == Pass([h] + w.rings[h])
  }

  lemma ReadsWorld(g: Graph, w: World, w': World, b: Link)
    requires Inv(g, w') && b in w'.rings
    requires forall h :: h in w.rings && h != b ==> h in w'.rings && w'.rings[h] == w.rings[h]
    ensures Reads(g, w, b, w'.rings[b])
  {
    hide Inv, Check;
    forall h | h in w'.rings ensures Check(g, h) == Pass([h] + w'.rings[h]) {
      ReadBack(g, w', h);
    }
  }

  lemma StepReads(g: Graph, w: World, op: Op, u: World, b: Link, s: seq<Link>)
    requires Inv(g, w) && WellFormed(w) && Enabled(w, op)
    requires b in Apply(w, op).rings && Apply(w, op).rings[b] == s
    requires forall h :: h in u.rings && h != b ==>
      h in Apply(w, op).rings && Apply(w, op).rings[h] == u.rings[h]
    ensures Exec(g, op).Done? && Reads(Exec(g, op).graph, u, b, s)
  {
    hide *;
    StepKeeps(g, w, op);
    ReadsWorld(Exec(g, op).graph, u, Apply(w, op), b);
  }

  /** Inserting after the link at index `i`, or before the next one, or at the head or the tail if
      that is where `i` is, is the same step, and puts the bucket there and nowhere else. */
  lemma InsertReads(g: Graph, w: World, b: Link, i: nat, e: Link)
    requires Inv(g, w) && b in w.rings && i <= |w.rings[b]| && w.Loose(e)
    ensures var s := w.rings[b]; var r := Exec(g, InsertAfter(([b] + s)[i], e));
      && r.Done? && Reads(r.graph, w, b, s[..i] + [e] + s[i..])
      && r == Exec(g, InsertBefore((s + [b])[i], e))
      && (i == 0 ==> r == Exec(g, InsertHead(b, e)))
      && (i == |s| ==> r == Exec(g, InsertTail(b, e)))
      && Enabled(w, InsertAfter(([b] + s)[i], e)) && Enabled(w, InsertBefore((s + [b])[i], e))
      && Enabled(w, InsertHead(b, e)) && Enabled(w, InsertTail(b, e))
  {
    InsertsEnabled(w, b, i, e);
    hide Inv, WellFormed, IsRing;
    var s := w.rings[b];
    var a, x := ([b] + s)[i], (s + [b])[i];
    InsertAfterKeeps(g, w, b, i, a, e);
    InsertBeforeKeeps(g, w, b, i, x, e);
    ReadsWorld(SpliceAfter(g, a, e, e), w, Insert(w, b, i, e), b);
    NextTo(g, w, b, i);
    BeforeIsAfterPredecessor(g, x, e, e);
  }

  lemma InsertsEnabled(w: World, b: Link, i: nat, e: Link)
    requires WellFormed(w) && b in w.rings && i <= |w.rings[b]| && w.Loose(e)
    ensures Enabled(w, InsertAfter(([b] + w.rings[b])[i], e))
    ensures Enabled(w, InsertBefore((w.rings[b] + [b])[i], e))
    ensures Enabled(w, InsertHead(b, e)) && Enabled(w, InsertTail(b, e))
  {
    assert Holds(w, b);
    assert i > 0 ==> ([b] + w.rings[b])[i] in w.rings[b];
    assert i < |w.rings[b]| ==> (w.rings[b] + [b])[i] in w.rings[b];
  }

  lemma NextTo(g: Graph, w: World, b: Link, i: nat)
    requires Inv(g, w) && b in w.rings && i <= |w.rings[b]|
    ensures g.Joined(([b] + w.rings[b])[i], (w.rings[b] + [b])[i])
  {
    InvRing(g, w, b);
    var c := [b] + w.rings[b];
    if i < |w.rings[b]| { assert g.Joined(c[i], c[i + 1]); }
  }

  /** REMOVE takes out the one bucket; so does delete, and its memory is gone. */
  lemma RemoveReads(g: Graph, w: World, b: Link, i: nat)
    requires Inv(g, w) && b in w.rings && i < |w.rings[b]|
    ensures var s := w.rings[b]; var r := Exec(g, Remove(s[i])); var d := Exec(g, Delete(s[i]));
      && r.Done? && Reads(r.graph, w, b, s[..i] + s[i + 1..]) && r.graph.Has(s[i])
      && d.Done? && Reads(d.graph, w, b, s[..i] + s[i + 1..]) && !d.graph.Has(s[i])
      && Enabled(w, Remove(s[i])) && Enabled(w, Delete(s[i]))
  {
    hide *;
    var s, e := w.rings[b], w.rings[b][i];
    InvRing(g, w, b);
    HeadEnds(g, b, s);
    LeaveRings(w, b, i);
    StepReads(g, w, Remove(e), w, b, s[..i] + s[i + 1..]);
    StepReads(g, w, Delete(e), w, b, s[..i] + s[i + 1..]);
    RemovedHas(g, w, e);
  }

  lemma LeaveRings(w: World, b: Link, i: nat)
    requires WellFormed(w) && b in w.rings && i < |w.rings[b]| && Distinct(w.rings[b])
    ensures var s := w.rings[b];
      && Enabled(w, Remove(s[i])) && Apply(w, Remove(s[i])).rings == w.rings[b := s[..i] + s[i + 1..]]
      && Enabled(w, Delete(s[i])) && Apply(w, Delete(s[i])).rings == w.rings[b := s[..i] + s[i + 1..]]
  {
    WithoutAt(w.rings[b], i);
    hide Distinct;
    assert Holds(w, b) && w.rings[b][i] in w.rings[b];
    assert w.rings[b][i] !in w.rings;
    hide WellFormed;
  }

  lemma RemovedHas(g: Graph, w: World, e: Link)
    requires Inv(g, w) && Enabled(w, Remove(e))
    ensures Exec(g, Remove(e)).Done? && Exec(g, Remove(e)).graph.Has(e)
    ensures Exec(g, Delete(e)).Done? && !Exec(g, Delete(e)).graph.Has(e)
  {
    ExecDelete(g, w, e);
  }

  /** CONCAT and PREPEND of two brigades. */
  lemma JoinReads(g: Graph, w: World, a: Link, b: Link)
    requires Inv(g, w) && a in w.rings && b in w.rings && a != b
    ensures var u := World(w.rings[b := []], w.place);
      var s, t := w.rings[a], w.rings[b];
      var r, p := Exec(g, Concat(a, b)), Exec(g, Prepend(a, b));
      && r.Done? && Reads(r.graph, u, a, s + t)
      && p.Done? && Reads(p.graph, u, a, t + s)
      && Enabled(w, Concat(a, b)) && Enabled(w, Prepend(a, b))
  {
    hide *;
    var u := World(w.rings[b := []], w.place);
    InvWellFormed(g, w);
    JoinRings(w, a, b);
    StepReads(g, w, Concat(a, b), u, a, w.rings[a] + w.rings[b]);
    StepReads(g, w, Prepend(a, b), u, a, w.rings[b] + w.rings[a]);
  }

  lemma JoinRings(w: World, a: Link, b: Link)
    requires WellFormed(w) && a in w.rings && b in w.rings && a != b
    ensures Enabled(w, Concat(a, b)) && Enabled(w, Prepend(a, b))
    ensures Apply(w, Concat(a, b)).rings == w.rings[a := w.rings[a] + w.rings[b]][b := []]
    ensures Apply(w, Prepend(a, b)).rings == w.rings[a := w.rings[b] + w.rings[a]][b := []]
  {
  }

  /** Joining an empty brigade to itself may be asked for, and does nothing. */
  lemma SelfJoinReads(g: Graph, w: World, a: Link)
    requires Inv(g, w) && a in w.rings && w.rings[a] == []
    ensures WellFormed(w) && Enabled(w, Concat(a, a)) && Enabled(w, Prepend(a, a))
    ensures Exec(g, Concat(a, a)) == Done(g) && Exec(g, Prepend(a, a)) == Done(g)
    ensures Apply(w, Concat(a, a)) == w && Apply(w, Prepend(a, a)) == w
  {
    JoinSelf(g, w, a);
    assert w.rings[a] + w.rings[a] == [];
    hide WellFormed;
  }

  /** Allocation gives an empty brigade or a self-linked bucket, and leaves the brigades alone. */
  lemma FreshReads(g: Graph, w: World, n: Link, h: Link)
    requires Inv(g, w) && n !in w.place && h in w.rings
    ensures var r := Exec(g, NewBrigade(n)); r.Done? && Reads(r.graph, w, n, [])
    ensures var r := Exec(g, NewBucket(n));
      r.Done? && Reads(r.graph, w, h, w.rings[h]) && r.graph.SelfLinked(n)
    ensures Enabled(w, NewBrigade(n)) && Enabled(w, NewBucket(n))
  {
    hide *;
    InvWellFormed(g, w);
    InvRing(g, w, h);
    FreshSteps(g, w, n);
    StepReads(g, w, NewBrigade(n), w, n, []);
    StepReads(g, w, NewBucket(n), w, h, w.rings[h]);
  }

  lemma FreshSteps(g: Graph, w: World, n: Link)
    requires WellFormed(w) && n !in w.place
    ensures Enabled(w, NewBrigade(n)) && Apply(w, NewBrigade(n)).rings == w.rings[n := []]
    ensures Enabled(w, NewBucket(n)) && Apply(w, NewBucket(n)).rings == w.rings
    ensures Exec(g, NewBucket(n)).Done? ==> Exec(g, NewBucket(n)).graph.SelfLinked(n)
  {
  }

  /** A bucket in no brigade is initialised or freed without any brigade's noticing. */
  lemma LooseReads(g: Graph, w: World, e: Link, h: Link)
    requires Inv(g, w) && w.Loose(e) && h in w.rings
    ensures var r := Exec(g, InitBucket(e));
      r.Done? && Reads(r.graph, w, h, w.rings[h]) && r.graph.SelfLinked(e)
    ensures var r := Exec(g, Destroy(e));
      r.Done? && Reads(r.graph, w, h, w.rings[h]) && !r.graph.Has(e)
    ensures Enabled(w, InitBucket(e)) && Enabled(w, Destroy(e))
  {
    hide *;
    InvWellFormed(g, w);
    LooseSteps(g, w, e);
    StepReads(g, w, InitBucket(e), w, h, w.rings[h]);
    StepReads(g, w, Destroy(e), w, h, w.rings[h]);
  }

  lemma LooseSteps(g: Graph, w: World, e: Link)
    requires WellFormed(w) && w.Loose(e)
    ensures Enabled(w, InitBucket(e)) && Apply(w, InitBucket(e)).rings == w.rings
    ensures Enabled(w, Destroy(e)) && Apply(w, Destroy(e)).rings == w.rings
    ensures Exec(g, InitBucket(e)).Done? ==> Exec(g, InitBucket(e)).graph.SelfLinked(e)
    ensures Exec(g, Destroy(e)).Done? ==> !Exec(g, Destroy(e)).graph.Has(e)
  {
  }

  /** Removing a singleton does nothing, and deleting it only frees it. */
  lemma SingletonReads(g: Graph, w: World, e: Link)
    requires Inv(g, w) && e in w.place && w.place[e] == Single
    ensures Exec(g, Remove(e)) == Done(g) && Exec(g, Delete(e)) == Exec(g, Destroy(e))
    ensures WellFormed(w) && Enabled(w, Remove(e)) && Apply(w, Remove(e)) == w
    ensures Enabled(w, Delete(e)) && Enabled(w, Destroy(e))
    ensures Apply(w, Delete(e)) == Apply(w, Destroy(e))
  {
    assert Cycle(g, [e]);
    UnspliceWholeCycle(g, [e]);
    assert e in w.rings ==> Holds(w, e);
  }

  /** The bucket an operation is about, or the head it makes; none for a join. */
  function Subject(op: Op): Option<Link> {
    match op
    case NewBrigade(b) => Some(b)
    case Concat(_, _) => None
    case Prepend(_, _) => None
    case _ => Some(op.e)
  }

  /** An operation changes the place of its own bucket only, and a join that of the buckets it moves.
      A bucket that is new or initialised is a singleton, and one that was taken out of a brigade is
      not. */
  lemma StepPlaces(w: World, op: Op)
    requires WellFormed(w) && Enabled(w, op)
    ensures var w' := Apply(w, op);
      && (forall n :: n in w.place && Some(n) != Subject(op) ==>
            && n in w'.place
            && w'.place[n] == if (op.Concat? || op.Prepend?) && n in w.rings[op.b] then In(op.a)
                              else w.place[n])
      && (op.NewBucket? || op.InitBucket? ==> op.e in w'.place && w'.place[op.e] == Single)
    ensures op.Remove? ==>
      && op.e in Apply(w, op).place
      && Apply(w, op).place[op.e] == if w.place[op.e] == Single then Single else Stray
  {
    hide WellFormed;
  }

  // ----- what must be allocated -----

  /** An operation goes wrong in memory exactly when one of the links it reads or writes through is
      not allocated; allocation, when the link already is.  Joining an empty brigade never looks at
      the one it is joined to. */
  lemma FaultsIff(g: Graph, op: Op)
    ensures Exec(g, op) == Fault <==>
      match op
      case NewBrigade(b) => g.Has(b)
      case NewBucket(e) => g.Has(e)
      case InitBucket(e) => !g.Has(e)
      case Destroy(e) => !g.Has(e)
      case InsertHead(b, e) => !(g.Has(e) && g.Has(b) && g.Has(g.next[b]))
      case InsertAfter(a, e) => !(g.Has(e) && g.Has(a) && g.Has(g.next[a]))
      case InsertTail(b, e) => !(g.Has(e) && g.Has(b) && g.Has(g.prev[b]))
      case InsertBefore(a, e) => !(g.Has(e) && g.Has(a) && g.Has(g.prev[a]))
      case Remove(e) => !(g.Has(e) && g.Has(g.prev[e]) && g.Has(g.next[e]))
      case Delete(e) => !(g.Has(e) && g.Has(g.prev[e]) && g.Has(g.next[e]))
      case Concat(a, b) =>
        !(g.Has(b) && (g.next[b] == b || (g.Has(g.next[b]) && g.Has(g.prev[b]) && g.Has(a) && g.Has(g.prev[a]))))
      case Prepend(a, b) =>
        !(g.Has(b) && (g.next[b] == b || (g.Has(g.next[b]) && g.Has(g.prev[b]) && g.Has(a) && g.Has(g.next[a]))))
    ensures Exec(g, op) != Abort
  {
  }

  // ----- the debug checks, on any graph -----

  /** Where the check starts after the operation: at the brigade for the four brigade operations, at
      the bucket inserted next to for the two bucket operations. */
  predicate ChecksFrom(op: Op, x: Link) {
    || (op.InsertHead? && x == op.b) || (op.InsertTail? && x == op.b)
    || (op.InsertBefore? && x == op.a) || (op.InsertAfter? && x == op.a)
    || (op.Concat? && x == op.a) || (op.Prepend? && x == op.a)
  }

  /** Whatever misuse came before, after one of these six operations a debug build goes on, and as a
      release build does, exactly when the links just written close into a cycle through that link.
      Otherwise it aborts, unless following the links from there leads it out of allocated memory
      before an assertion fails. */
  lemma DebugAbortsIff(g: Graph, op: Op, x: Link)
    requires ChecksFrom(op, x)
    ensures Exec(g, op).Done? ==>
      var g' := Exec(g, op).graph;
      ExecDebug(g, op) == if exists c :: Cycle(g', c) && c[0] == x then Done(g')
                          else if Check(g', x).Unallocated? then Fault
                          else Abort
    ensures !Exec(g, op).Done? ==> ExecDebug(g, op) == Exec(g, op)
  {
    hide Exec;
    if Exec(g, op).Done? {
      CheckPassesIff(Exec(g, op).graph, x);
      CheckEnds(Exec(g, op).graph, x);
    }
  }

  /** After the others it checks nothing. */
  lemma UncheckedSame(g: Graph, op: Op)
    requires || op.NewBrigade? || op.NewBucket? || op.InitBucket? || op.Remove? || op.Delete?
             || op.Destroy?
    ensures ExecDebug(g, op) == Exec(g, op)
  {
  }
}
