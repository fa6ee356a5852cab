/** Whole runs of brigade operations: what holds after every one of them. */
module BrigadeRuns {
  import opened Basics
  import opened LinkGraph
  import opened RingOps
  import opened RingLaws
  import opened RingCheck
  import opened Brigades

  /** Every operation of the run is called as it asks to be, in the state it is called in. */
  ghost predicate Legal(w: World, ops: seq<Op>)
    requires WellFormed(w)
    decreases |ops|
  {
    ops == [] || (Enabled(w, ops[0]) && (ApplyWellFormed(w, ops[0]); Legal(Apply(w, ops[0]), ops[1..])))
  }

  ghost function ApplyAll(w: World, ops: seq<Op>): World
    requires WellFormed(w) && Legal(w, ops)
    decreases |ops|
  {
    if ops == [] then w
    else
      ApplyWellFormed(w, ops[0]);
      ApplyAll(Apply(w, ops[0]), ops[1..])
  }

  lemma {:induction false} ApplyAllWellFormed(w: World, ops: seq<Op>)
    requires WellFormed(w) && Legal(w, ops)
    ensures WellFormed(ApplyAll(w, ops))
    decreases |ops|
  {
    if ops != [] {
      ApplyWellFormed(w, ops[0]);
      ApplyAllWellFormed(Apply(w, ops[0]), ops[1..]);
    }
  }

  function Run(g: Graph, ops: seq<Op>): Outcome
    decreases |ops|
  {
    if ops == [] then Done(g) else
      match Exec(g, ops[0])
      case Done(g') => Run(g', ops[1..])
      case bad => bad
  }

  function RunDebug(g: Graph, ops: seq<Op>): Outcome
    decreases |ops|
  {
    if ops == [] then Done(g) else
      match ExecDebug(g, ops[0])
      case Done(g') => RunDebug(g', ops[1..])
      case bad => bad
  }

  /** A run taken from its first operation. */
  lemma OpThen(g: Graph, w: World, op: Op, ops: seq<Op>)
    requires WellFormed(w) && Enabled(w, op)
    requires WellFormed(Apply(w, op)) && Legal(Apply(w, op), ops)
    requires Exec(g, op).Done?
    ensures Legal(w, [op] + ops) && ApplyAll(w, [op] + ops) == ApplyAll(Apply(w, op), ops)
    ensures Run(g, [op] + ops) == Run(Exec(g, op).graph, ops)
  {
    hide WellFormed, Enabled, Apply, Exec;
    assert ([op] + ops)[1..] == ops;
  }

  lemma OneRun(g: Graph, op: Op)
    ensures Run(g, [op]) == Exec(g, op) && RunDebug(g, [op]) == ExecDebug(g, op)
  {
    hide Exec, ExecDebug;
    assert [op][1..] == [];
  }

  lemma TwoRun(g: Graph, p: Op, q: Op)
    ensures Run(g, [p, q]) == if Exec(g, p).Done? then Exec(Exec(g, p).graph, q) else Exec(g, p)
  {
    hide Exec;
    assert [p, q][1..] == [q];
    if Exec(g, p).Done? { OneRun(Exec(g, p).graph, q); }
  }

  /** A run goes on where an earlier part of it left the memory; once something has gone wrong it
      does not go on. */
  lemma {:induction false} RunConcat(g: Graph, p: seq<Op>, q: seq<Op>)
    ensures Run(g, p + q) == if Run(g, p).Done? then Run(Run(g, p).graph, q) else Run(g, p)
    decreases |p|
  {
    hide Exec;
    if p == [] {
      assert p + q == q;
    } else {
      if Exec(g, p[0]).Done? { RunConcat(Exec(g, p[0]).graph, p[1..], q); }
      assert (p + q)[1..] == p[1..] + q;
    }
  }

  lemma {:induction false} RunDebugConcat(g: Graph, p: seq<Op>, q: seq<Op>)
    ensures RunDebug(g, p + q)
         == if RunDebug(g, p).Done? then RunDebug(RunDebug(g, p).graph, q) else RunDebug(g, p)
    decreases |p|
  {
    hide ExecDebug;
    if p == [] {
      assert p + q == q;
    } else {
      if ExecDebug(g, p[0]).Done? { RunDebugConcat(ExecDebug(g, p[0]).graph, p[1..], q); }
      assert (p + q)[1..] == p[1..] + q;
    }
  }

  lemma {:induction false} LegalConcat(w: World, p: seq<Op>, q: seq<Op>)
    requires WellFormed(w) && Legal(w, p) && WellFormed(ApplyAll(w, p)) && Legal(ApplyAll(w, p), q)
    ensures Legal(w, p + q) && ApplyAll(w, p + q) == ApplyAll(ApplyAll(w, p), q)
    decreases |p|
  {
    hide WellFormed, Enabled, Apply;
    if p == [] {
      assert p + q == q;
    } else {
      ApplyWellFormed(w, p[0]);
      LegalConcat(Apply(w, p[0]), p[1..], q);
      assert (p + q)[1..] == p[1..] + q;
    }
  }

  /** After every legal run: no freed or unallocated link was touched, no debug check fired, the
      debug and the release build hold the same links, and those links are exactly the brigades
      that the operations describe. */
  lemma {:induction false} RunKeeps(g: Graph, w: World, ops: seq<Op>)
    requires Inv(g, w) && Legal(w, ops)
    ensures Run(g, ops).Done? && RunDebug(g, ops) == Run(g, ops)
    ensures Inv(Run(g, ops).graph, ApplyAll(w, ops))
    decreases |ops|
  {
    hide Inv, WellFormed, Exec, ExecDebug, Apply, Enabled;
    InvWellFormed(g, w);
    if ops != [] {
      StepKeeps(g, w, ops[0]);
      DebugStepSame(g, w, ops[0]);
      RunKeeps(Exec(g, ops[0]).graph, Apply(w, ops[0]), ops[1..]);
    }
  }

  lemma InvWellFormed(g: Graph, w: World)
    requires Inv(g, w)
    ensures WellFormed(w)
  {
  }

  /** Runs start from nothing: no memory, no brigades. */
  lemma EmptyStart()
    ensures Inv(Graph(map[], map[]), World(map[], map[]))
  {
  }

  /** So for every legal run from the start. */
  lemma EveryRun(ops: seq<Op>)
    requires WellFormed(World(map[], map[])) && Legal(World(map[], map[]), ops)
    ensures Run(Graph(map[], map[]), ops).Done?
    ensures RunDebug(Graph(map[], map[]), ops) == Run(Graph(map[], map[]), ops)
    ensures Inv(Run(Graph(map[], map[]), ops).graph, ApplyAll(World(map[], map[]), ops))
  {
    EmptyStart();
    RunKeeps(Graph(map[], map[]), World(map[], map[]), ops);
  }

  // ----- what the brigades are, seen from the links alone -----

  /** Walking a brigade from its head reads back exactly its buckets, in order. */
  lemma ReadBack(g: Graph, w: World, h: Link)
    requires Inv(g, w) && h in w.rings
    ensures Check(g, h) == Pass([h] + w.rings[h])
  {
    CheckExact(g, [h] + w.rings[h]);
  }

  /** EMPTY, FIRST and LAST tell the truth about a brigade, and an empty one is in the state that
      INIT leaves. */
  lemma AccessorsExact(g: Graph, w: World, h: Link)
    requires Inv(g, w) && h in w.rings
    ensures g.Has(h) && (Empty(g, h) <==> w.rings[h] == []) && (g.SelfLinked(h) <==> w.rings[h] == [])
    ensures w.rings[h] != [] ==> g.next[h] == w.rings[h][0] && g.prev[h] == Last(w.rings[h])
  {
    HeadEnds(g, h, w.rings[h]);
  }

  /** No bucket is in two brigades or twice in one. */
  lemma OnePosition(g: Graph, w: World, h: Link, i: nat, k: Link, j: nat)
    requires Inv(g, w) && h in w.rings && k in w.rings && i < |w.rings[h]| && j < |w.rings[k]|
    requires w.rings[h][i] == w.rings[k][j]
    ensures h == k && i == j
  {
    HeadEnds(g, h, w.rings[h]);
    RingPlaces(w, h);
    RingPlaces(w, k);
    assert w.rings[h][i] in [h] + w.rings[h] && w.rings[k][j] in [k] + w.rings[k];
  }

  // ----- conservation -----

  function Created(op: Op): set<Link> {
    if op.NewBucket? then {op.e} else {}
  }

  function Destroyed(op: Op): set<Link> {
    if op.Delete? || op.Destroy? then {op.e} else {}
  }

  function PutIn(op: Op): set<Link> {
    if op.InsertHead? || op.InsertTail? || op.InsertBefore? || op.InsertAfter? then {op.e} else {}
  }

  function TakenOut(op: Op): set<Link> {
    if op.Remove? || op.Delete? then {op.e} else {}
  }

  /** Buckets come into being only by allocation and vanish only by delete and destroy, and they
      enter brigades only by insert and leave them only by remove and delete; joining two
      brigades moves buckets but loses and doubles none. */
  lemma StepConserves(w: World, op: Op)
    requires WellFormed(w) && Enabled(w, op)
    ensures Apply(w, op).Buckets() == w.Buckets() + Created(op) - Destroyed(op)
    ensures Apply(w, op).InBrigades() == w.InBrigades() + PutIn(op) - TakenOut(op)
  {
    hide World.Buckets, World.InBrigades, WellFormed, Insert, Leave, Gone, Join;
    if op.Delete? { LeaveConserves(w, op.e); GoneConserves(Leave(w, op.e), op.e); }
    match op
    case NewBrigade(b) => FreshConserves(w, b);
    case NewBucket(e) => FreshConserves(w, e);
    case InitBucket(e) => InitConserves(w, e);
    case InsertHead(b, e) => InsertConserves(w, b, 0, e);
    case InsertTail(b, e) => InsertConserves(w, b, |w.rings[b]|, e);
    case InsertBefore(a, e) =>
      var b := w.place[a].head;
      HeldAt(w, a);
      InsertConserves(w, b, if a == b then |w.rings[b]| else IndexOf(w.rings[b], a), e);
    case InsertAfter(a, e) =>
      var b := w.place[a].head;
      HeldAt(w, a);
      InsertConserves(w, b, if a == b then 0 else IndexOf(w.rings[b], a) + 1, e);
    case Concat(a, b) => JoinConserves(w, a, b, w.rings[a] + w.rings[b]);
    case Prepend(a, b) => JoinConserves(w, a, b, w.rings[b] + w.rings[a]);
    case Remove(e) => LeaveConserves(w, e);
    case Delete(e) => ApplyWellFormed(w, Remove(e));
    case Destroy(e) => GoneConserves(w, e);
  }

  lemma InsertConserves(w: World, b: Link, i: nat, e: Link)
    requires WellFormed(w) && b in w.rings && i <= |w.rings[b]| && w.Loose(e)
    ensures Insert(w, b, i, e).Buckets() == w.Buckets()
    ensures Insert(w, b, i, e).InBrigades() == w.InBrigades() + {e}
  {
  }

  lemma LeaveConserves(w: World, e: Link)
    requires WellFormed(w) && w.Removable(e)
    ensures Leave(w, e).Buckets() == w.Buckets() && Leave(w, e).Loose(e)
    ensures Leave(w, e).InBrigades() == w.InBrigades() - {e}
  {
  }

  lemma GoneConserves(w: World, e: Link)
    requires w.Loose(e)
    ensures Gone(w, e).Buckets() == w.Buckets() - {e}
    ensures Gone(w, e).InBrigades() == w.InBrigades()
  {
  }

  lemma InitConserves(w: World, e: Link)
    requires w.Loose(e)
    ensures World(w.rings, w.place[e := Single]).Buckets() == w.Buckets()
    ensures World(w.rings, w.place[e := Single]).InBrigades() == w.InBrigades()
  {
  }

  lemma FreshConserves(w: World, e: Link)
    requires WellFormed(w) && e !in w.place
    ensures var w' := World(w.rings[e := []], w.place[e := In(e)]);
      w'.Buckets() == w.Buckets() && w'.InBrigades() == w.InBrigades()
    ensures var w' := World(w.rings, w.place[e := Single]);
      w'.Buckets() == w.Buckets() + {e} && w'.InBrigades() == w.InBrigades()
  {
  }

  lemma JoinConserves(w: World, a: Link, b: Link, joined: seq<Link>)
    requires WellFormed(w) && a in w.rings && b in w.rings
    ensures Join(w, a, b, joined).Buckets() == w.Buckets()
    ensures Join(w, a, b, joined).InBrigades() == w.InBrigades()
  {
  }

  /** A set kept up to date over a run. */
  function Tally(start: set<Link>, ops: seq<Op>, gains: Op -> set<Link>, losses: Op -> set<Link>): set<Link>
    decreases |ops|
  {
    if ops == [] then start
    else Tally(start + gains(ops[0]) - losses(ops[0]), ops[1..], gains, losses)
  }

  /** The buckets alive after a run, from the operations alone. */
  function Alive(buckets: set<Link>, ops: seq<Op>): set<Link> {
    Tally(buckets, ops, Created, Destroyed)
  }

  /** Those in brigades. */
  function Enlisted(buckets: set<Link>, ops: seq<Op>): set<Link> {
    Tally(buckets, ops, PutIn, TakenOut)
  }

  lemma {:induction false} RunConserves(w: World, ops: seq<Op>)
    requires WellFormed(w) && Legal(w, ops)
    ensures ApplyAll(w, ops).Buckets() == Alive(w.Buckets(), ops)
    ensures ApplyAll(w, ops).InBrigades() == Enlisted(w.InBrigades(), ops)
    decreases |ops|
  {
    if ops != [] {
      StepConserves(w, ops[0]);
      ApplyWellFormed(w, ops[0]);
      RunConserves(Apply(w, ops[0]), ops[1..]);
    }
  }

  // ----- the last word on each bucket -----

  /** No operation from `i` on takes `e` away. */
  ghost predicate Keeps(ops: seq<Op>, i: nat, losses: Op -> set<Link>, e: Link) {
    forall j :: i <= j < |ops| ==> e !in losses(ops[j])
  }

  lemma KeepsTail(ops: seq<Op>, i: nat, losses: Op -> set<Link>, e: Link)
    requires ops != []
    ensures Keeps(ops[1..], i, losses, e) <==> Keeps(ops, i + 1, losses, e)
  {
    if Keeps(ops[1..], i, losses, e) {
      forall j | i + 1 <= j < |ops| ensures e !in losses(ops[j]) { assert ops[j] == ops[1..][j - 1]; }
    }
  }

  lemma {:induction false} TallyIff(start: set<Link>, ops: seq<Op>, gains: Op -> set<Link>,
                                    losses: Op -> set<Link>, e: Link)
    ensures e in Tally(start, ops, gains, losses)
       <==> || (e in start && Keeps(ops, 0, losses, e))
            || exists i :: 0 <= i < |ops| && e in gains(ops[i]) && Keeps(ops, i, losses, e)
    decreases |ops|
  {
    if ops != [] {
      var rest := ops[1..];
      TallyIff(start + gains(ops[0]) - losses(ops[0]), rest, gains, losses, e);
      KeepsTail(ops, 0, losses, e);
      assert Keeps(ops, 0, losses, e) <==> e !in losses(ops[0]) && Keeps(ops, 0 + 1, losses, e);
      if i :| 0 <= i < |ops| && e in gains(ops[i]) && Keeps(ops, i, losses, e) {
        if i > 0 {
          KeepsTail(ops, i - 1, losses, e);
          assert rest[i - 1] == ops[i];
        }
      }
      if i :| 0 <= i < |rest| && e in gains(rest[i]) && Keeps(rest, i, losses, e) {
        KeepsTail(ops, i, losses, e);
        assert ops[i + 1] == rest[i];
      }
    }
  }

  lemma AliveIff(buckets: set<Link>, ops: seq<Op>, e: Link)
    ensures e in Alive(buckets, ops) <==>
      || (e in buckets && forall j :: 0 <= j < |ops| ==> ops[j] != Delete(e) && ops[j] != Destroy(e))
      || exists i :: 0 <= i < |ops| && ops[i] == NewBucket(e)
           && forall j :: i <= j < |ops| ==> ops[j] != Delete(e) && ops[j] != Destroy(e)
  {
    TallyIff(buckets, ops, Created, Destroyed, e);
  }

  predicate Inserts(op: Op, e: Link) {
    (op.InsertHead? || op.InsertTail? || op.InsertBefore? || op.InsertAfter?) && op.e == e
  }

  lemma InBrigadesIff(buckets: set<Link>, ops: seq<Op>, e: Link)
    ensures e in Enlisted(buckets, ops) <==>
      || (e in buckets && forall j :: 0 <= j < |ops| ==> ops[j] != Remove(e) && ops[j] != Delete(e))
      || exists i :: 0 <= i < |ops| && Inserts(ops[i], e)
           && forall j :: i <= j < |ops| ==> ops[j] != Remove(e) && ops[j] != Delete(e)
  {
    TallyIff(buckets, ops, PutIn, TakenOut, e);
  }

  /** A link that is no head is allocated after a run exactly when it was, or was allocated by the
      run as a bucket, and has not been deleted or destroyed since. */
  lemma AllocatedIff(g: Graph, w: World, ops: seq<Op>, e: Link)
    requires Inv(g, w) && Legal(w, ops) && e !in w.rings && e !in ApplyAll(w, ops).rings
    ensures Run(g, ops).Done?
    ensures Run(g, ops).graph.Has(e) <==>
      || (g.Has(e) && forall j :: 0 <= j < |ops| ==> ops[j] != Delete(e) && ops[j] != Destroy(e))
      || exists i :: 0 <= i < |ops| && ops[i] == NewBucket(e)
           && forall j :: i <= j < |ops| ==> ops[j] != Delete(e) && ops[j] != Destroy(e)
  {
    hide *;
    InvWellFormed(g, w);
    RunKeeps(g, w, ops);
    RunConserves(w, ops);
    BucketAllocated(g, w, e);
    BucketAllocated(Run(g, ops).graph, ApplyAll(w, ops), e);
    AliveIff(w.Buckets(), ops, e);
  }

  lemma BucketAllocated(g: Graph, w: World, e: Link)
    requires Inv(g, w) && e !in w.rings
    ensures g.Has(e) <==> e in w.Buckets()
  {
  }

  /** A link is in some brigade after a run exactly when it was, or was inserted by the run, and has
      not been removed or deleted since. */
  lemma EnlistedIff(w: World, ops: seq<Op>, e: Link)
    requires WellFormed(w) && Legal(w, ops)
    ensures (exists h :: h in ApplyAll(w, ops).rings && e in ApplyAll(w, ops).rings[h]) <==>
      || ((exists h :: h in w.rings && e in w.rings[h])
          && forall j :: 0 <= j < |ops| ==> ops[j] != Remove(e) && ops[j] != Delete(e))
      || exists i :: 0 <= i < |ops| && Inserts(ops[i], e)
           && forall j :: i <= j < |ops| ==> ops[j] != Remove(e) && ops[j] != Delete(e)
  {
    hide *;
    ApplyAllWellFormed(w, ops);
    RunConserves(w, ops);
    InSome(w, e);
    InSome(ApplyAll(w, ops), e);
    InBrigadesIff(w.InBrigades(), ops, e);
  }

  lemma InSome(w: World, e: Link)
    requires WellFormed(w)
    ensures e in w.InBrigades() <==> exists h :: h in w.rings && e in w.rings[h]
  {
    if e in w.place && w.place[e].In? { HeldAt(w, e); }
    if h :| h in w.rings && e in w.rings[h] {
      assert Holds(w, h);
      assert e in w.rings ==> Holds(w, e);
    }
  }
}
