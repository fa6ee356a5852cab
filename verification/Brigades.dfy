/** Bucket brigades as a state machine: any number of brigades over one memory, driven by the
    brigade and bucket macros.

    The concrete state is the graph of the allocated links, which is all the macros see.  The
    abstract state, `World`, says which buckets each brigade holds and where every allocated
    link belongs; no macro can look at it. */
module Brigades {
  import opened Basics
  import opened LinkGraph
  import opened Rings
  import opened RingOps
  import opened RingLaws
  import opened RingCheck

  /** Where an allocated link belongs: to the brigade with head `head` (as its head or one of its
      buckets), on its own and linked to itself, or on its own with links left over from the
      brigade it was removed from. */
  datatype Place = In(head: Link) | Single | Stray

  datatype World = World(rings: map<Link, seq<Link>>, place: map<Link, Place>) {

    predicate Loose(e: Link) {
      e in place && !place[e].In?
    }

    /** A bucket that REMOVE and delete may be applied to. */
    predicate Removable(e: Link) {
      e in place && e !in rings && !place[e].Stray?
    }

    /** `a` is a bucket in a brigade, or the head of one. */
    predicate Placed(a: Link) {
      a in place && place[a].In?
    }

    ghost function Buckets(): set<Link> {
      place.Keys - rings.Keys
    }

    ghost function InBrigades(): set<Link> {
      set e | e in place && e !in rings && place[e].In?
    }
  }

  /** The brigade with head `h` holds exactly the links placed in it, its head not among its
      buckets. */
  ghost predicate Holds(w: World, h: Link) {
    && h in w.rings && h !in w.rings[h]
    && h in w.place && w.place[h] == In(h)
    && (forall n :: n in w.rings[h] ==> n in w.place && w.place[n] == In(h))
    && (forall n :: n in w.place && w.place[n] == In(h) ==> n == h || n in w.rings[h])
  }

  /** Every link has one place. */
  ghost predicate WellFormed(w: World) {
    && (forall h :: h in w.rings ==> Holds(w, h))
    && (forall n :: n in w.place && w.place[n].In? ==> w.place[n].head in w.rings)
  }

  lemma HeldAt(w: World, n: Link)
    requires WellFormed(w) && n in w.place && w.place[n].In?
    ensures var h := w.place[n].head; Holds(w, h) && (n == h || n in w.rings[h])
  {
  }

  /** The graph holds every brigade as a well-formed ring with just its buckets in order, every
      singleton as a link to itself, and nothing that is not accounted for. */
  ghost predicate Inv(g: Graph, w: World) {
    && WellFormed(w)
    && g.next.Keys == w.place.Keys && g.prev.Keys == w.place.Keys
    && (forall h :: h in w.rings ==> IsRing(g, h, w.rings[h]))
    && (forall n :: n in w.place && w.place[n] == Single ==> g.SelfLinked(n))
  }

  /** The macros, and allocation of the links they work on.  `Delete` is REMOVE followed by
      destroy; `Destroy` frees a bucket that is in no brigade. */
  datatype Op =
    | NewBrigade(b: Link)
    | NewBucket(e: Link)
    | InitBucket(e: Link)
    | InsertHead(b: Link, e: Link)
    | InsertTail(b: Link, e: Link)
    | InsertBefore(a: Link, e: Link)
    | InsertAfter(a: Link, e: Link)
    | Remove(e: Link)
    | Concat(a: Link, b: Link)
    | Prepend(a: Link, b: Link)
    | Delete(e: Link)
    | Destroy(e: Link)

  // ----- what the macros do to the graph -----

  /** `Fault`: a link that is not allocated was read or written, or one that is was handed out
      again.  `Abort`: an assertion of a debug check failed. */
  datatype Outcome = Done(graph: Graph) | Fault | Abort

  function Free(g: Graph, e: Link): Graph {
    Graph(g.next - {e}, g.prev - {e})
  }

  function Exec(g: Graph, op: Op): Outcome {
    match op
    case NewBrigade(b) => if g.Has(b) then Fault else Done(Init(g, b))
    case NewBucket(e) => if g.Has(e) then Fault else Done(Init(g, e))
    case InitBucket(e) => if g.Has(e) then Done(Init(g, e)) else Fault
    case InsertHead(b, e) => if SpliceAfterOk(g, b, e, e) then Done(SpliceAfter(g, b, e, e)) else Fault
    case InsertTail(b, e) => if SpliceBeforeOk(g, b, e, e) then Done(SpliceBefore(g, b, e, e)) else Fault
    case InsertBefore(a, e) => if SpliceBeforeOk(g, a, e, e) then Done(SpliceBefore(g, a, e, e)) else Fault
    case InsertAfter(a, e) => if SpliceAfterOk(g, a, e, e) then Done(SpliceAfter(g, a, e, e)) else Fault
    case Remove(e) => if UnspliceOk(g, e, e) then Done(Unsplice(g, e, e)) else Fault
    case Concat(a, b) => if ConcatOk(g, a, b) then Done(RingOps.Concat(g, a, b)) else Fault
    case Prepend(a, b) => if PrependOk(g, a, b) then Done(RingOps.Prepend(g, a, b)) else Fault
    case Delete(e) => if UnspliceOk(g, e, e) then Done(Free(Unsplice(g, e, e), e)) else Fault
    case Destroy(e) => if g.Has(e) then Done(Free(g, e)) else Fault
  }

  /** The link from which a debug build checks the ring after the operation. */
  function CheckPoint(op: Op): Option<Link> {
    match op
    case InsertHead(b, _) => Some(b)
    case InsertTail(b, _) => Some(b)
    case Concat(a, _) => Some(a)
    case Prepend(a, _) => Some(a)
    case InsertBefore(a, _) => Some(a)
    case InsertAfter(a, _) => Some(a)
    case _ => None
  }

  function ExecDebug(g: Graph, op: Op): Outcome {
    match Exec(g, op)
    case Done(g') =>
      if CheckPoint(op).None? then Done(g') else
        match Check(g', CheckPoint(op).value) {
          case Pass(_) => Done(g')
          case Unallocated(_) => Fault
          case _ => Abort
        }
    case bad => bad
  }

  // ----- what they mean -----

  /** What the macros ask of their callers: insert only loose buckets, remove only what is in a
      brigade or a singleton, join only different brigades (or an empty one to itself). */
  predicate Enabled(w: World, op: Op) {
    match op
    case NewBrigade(b) => b !in w.place
    case NewBucket(e) => e !in w.place
    case InitBucket(e) => w.Loose(e)
    case InsertHead(b, e) => b in w.rings && w.Loose(e)
    case InsertTail(b, e) => b in w.rings && w.Loose(e)
    case InsertBefore(a, e) => w.Placed(a) && w.Loose(e)
    case InsertAfter(a, e) => w.Placed(a) && w.Loose(e)
    case Remove(e) => w.Removable(e)
    case Concat(a, b) => a in w.rings && b in w.rings && (a != b || w.rings[b] == [])
    case Prepend(a, b) => a in w.rings && b in w.rings && (a != b || w.rings[b] == [])
    case Delete(e) => w.Removable(e)
    case Destroy(e) => w.Loose(e)
  }

  function Insert(w: World, b: Link, i: nat, e: Link): World
    requires b in w.rings && i <= |w.rings[b]|
  {
    var s := w.rings[b];
    World(w.rings[b := s[..i] + [e] + s[i..]], w.place[e := In(b)])
  }

  function Leave(w: World, e: Link): World
    requires WellFormed(w) && w.Removable(e)
  {
    if w.place[e] == Single then w else
      var b := w.place[e].head;
      World(w.rings[b := Without(w.rings[b], e)], w.place[e := Stray])
  }

  function Join(w: World, a: Link, b: Link, joined: seq<Link>): World
    requires a in w.rings && b in w.rings
  {
    World(w.rings[a := joined][b := []],
          map n | n in w.place :: if n in w.rings[b] then In(a) else w.place[n])
  }

  function Gone(w: World, e: Link): World {
    World(w.rings, w.place - {e})
  }

  function Apply(w: World, op: Op): World
    requires WellFormed(w) && Enabled(w, op)
  {
    match op
    case NewBrigade(b) => World(w.rings[b := []], w.place[b := In(b)])
    case NewBucket(e) => World(w.rings, w.place[e := Single])
    case InitBucket(e) => World(w.rings, w.place[e := Single])
    case InsertHead(b, e) => Insert(w, b, 0, e)
    case InsertTail(b, e) => Insert(w, b, |w.rings[b]|, e)
    case InsertBefore(a, e) =>
      var b := w.place[a].head;
      Insert(w, b, if a == b then |w.rings[b]| else IndexOf(w.rings[b], a), e)
    case InsertAfter(a, e) =>
      var b := w.place[a].head;
      Insert(w, b, if a == b then 0 else IndexOf(w.rings[b], a) + 1, e)
    case Remove(e) => Leave(w, e)
    case Concat(a, b) => Join(w, a, b, w.rings[a] + w.rings[b])
    case Prepend(a, b) => Join(w, a, b, w.rings[b] + w.rings[a])
    case Delete(e) => Gone(Leave(w, e), e)
    case Destroy(e) => Gone(w, e)
  }

  // ----- one step -----

  /** The ring of a brigade is exactly what is placed in it. */
  lemma RingPlaces(w: World, b: Link)
    requires WellFormed(w) && b in w.rings
    ensures forall n :: n in [b] + w.rings[b] <==> n in w.place && w.place[n] == In(b)
  {
    assert Holds(w, b);
    hide WellFormed;
    assert forall n :: n in [b] + w.rings[b] <==> n == b || n in w.rings[b];
  }

  /** Brigades that an update does not reach stay as they were. */
  lemma OthersKeep(g: Graph, g': Graph, w: World, c: seq<Link>, h: Link)
    requires Inv(g, w) && h in w.rings && Elsewhere(g, g', c)
    requires forall n :: n in c && n in w.place ==> w.place[n] != In(h)
    ensures IsRing(g', h, w.rings[h])
  {
    hide Cycle, Elsewhere;
    RingPlaces(w, h);
    CycleElsewhere(g, g', c, [h] + w.rings[h]);
  }

  /** The invariant survives an update of the links `c` when every brigade is either rebuilt or
      untouched, and the singletons are untouched. */
  lemma StepFrame(g: Graph, g': Graph, w: World, w': World, c: seq<Link>)
    requires Inv(g, w) && WellFormed(w') && Elsewhere(g, g', c)
    requires w'.place.Keys == w.place.Keys
    requires forall h :: h in w'.rings ==>
      || IsRing(g', h, w'.rings[h])
      || (h in w.rings && w'.rings[h] == w.rings[h]
          && forall n :: n in c && n in w.place ==> w.place[n] != In(h))
    requires forall n :: n in w'.place && w'.place[n] == Single ==>
      w.place[n] == Single && n !in c
    ensures Inv(g', w')
  {
    hide IsRing, WellFormed;
    forall h | h in w'.rings ensures IsRing(g', h, w'.rings[h]) {
      if !IsRing(g', h, w'.rings[h]) { OthersKeep(g, g', w, c, h); }
    }
    forall n | n in w'.place && w'.place[n] == Single ensures g'.SelfLinked(n) {
      assert g.SelfLinked(n);
    }
  }

  /** A brigade still holds what it held when neither its sequence nor who is placed in it has
      changed. */
  lemma StillHolds(w: World, w': World, h: Link)
    requires Holds(w, h) && h in w'.rings && w'.rings[h] == w.rings[h]
    requires forall n :: (n in w.place && w.place[n] == In(h)) <==> (n in w'.place && w'.place[n] == In(h))
    ensures Holds(w', h)
  {
  }

  lemma InsertWellFormed(w: World, b: Link, i: nat, e: Link)
    requires WellFormed(w) && b in w.rings && i <= |w.rings[b]| && w.Loose(e)
    ensures WellFormed(Insert(w, b, i, e))
  {
  }

  lemma InsertKeeps(g: Graph, g': Graph, w: World, b: Link, i: nat, e: Link)
    requires Inv(g, w) && b in w.rings && i <= |w.rings[b]| && w.Loose(e)
    requires IsRing(g', b, Insert(w, b, i, e).rings[b])
    requires Elsewhere(g, g', [b] + w.rings[b] + [e])
    ensures Inv(g', Insert(w, b, i, e))
  {
    hide IsRing, WellFormed, Elsewhere;
    InsertWellFormed(w, b, i, e);
    RingPlaces(w, b);
    StepFrame(g, g', w, Insert(w, b, i, e), [b] + w.rings[b] + [e]);
  }

  lemma RemoveKeeps(g: Graph, w: World, e: Link)
    requires Inv(g, w) && w.Removable(e)
    ensures UnspliceOk(g, e, e) && Inv(Unsplice(g, e, e), Leave(w, e))
  {
    if w.place[e] == Single {
      assert Cycle(g, [e]);
      UnspliceWholeCycle(g, [e]);
    } else {
      RemovePlacedKeeps(g, w, e);
    }
  }

  lemma LeaveWellFormed(w: World, e: Link)
    requires WellFormed(w) && w.Removable(e)
    ensures WellFormed(Leave(w, e))
  {
  }

  lemma RemovePlacedKeeps(g: Graph, w: World, e: Link)
    requires Inv(g, w) && w.Removable(e) && w.place[e].In?
    ensures UnspliceOk(g, e, e) && Inv(Unsplice(g, e, e), Leave(w, e))
  {
    hide IsRing, Elsewhere;
    var b := w.place[e].head;
    HeldAt(w, e);
    LeaveWellFormed(w, e);
    RemoveAnywhere(g, b, w.rings[b], e);
    hide WellFormed;
    RingPlaces(w, b);
    StepFrame(g, Unsplice(g, e, e), w, Leave(w, e), [b] + w.rings[b]);
  }

  lemma RemoveAnywhere(g: Graph, h: Link, s: seq<Link>, e: Link)
    requires IsRing(g, h, s) && e in s
    ensures UnspliceOk(g, e, e)
    ensures IsRing(Unsplice(g, e, e), h, Without(s, e))
    ensures Elsewhere(g, Unsplice(g, e, e), [h] + s)
  {
    HeadEnds(g, h, s);
    hide Cycle;
    RemoveRing(g, h, s, IndexOf(s, e));
    WithoutAt(s, IndexOf(s, e));
  }

  lemma GoneWellFormed(w: World, e: Link)
    requires WellFormed(w) && w.Loose(e)
    ensures WellFormed(Gone(w, e))
  {
  }

  lemma GoneKeeps(g: Graph, w: World, e: Link)
    requires Inv(g, w) && w.Loose(e)
    ensures Inv(Free(g, e), Gone(w, e))
  {
    hide IsRing;
    GoneWellFormed(w, e);
    forall h | h in w.rings ensures IsRing(Free(g, e), h, w.rings[h]) {
      FreeKeepsRing(g, w, e, h);
    }
  }

  lemma FreeKeepsRing(g: Graph, w: World, e: Link, h: Link)
    requires Inv(g, w) && w.Loose(e) && h in w.rings
    ensures IsRing(Free(g, e), h, w.rings[h])
  {
  }

  /** Allocating or re-initialising a link leaves every brigade alone. */
  lemma InitKeepsRing(g: Graph, w: World, e: Link, h: Link)
    requires Inv(g, w) && (e !in w.place || w.Loose(e)) && h in w.rings
    ensures IsRing(Init(g, e), h, w.rings[h])
  {
  }

  lemma NewBrigadeKeeps(g: Graph, w: World, b: Link)
    requires Inv(g, w) && b !in w.place
    ensures Inv(Init(g, b), World(w.rings[b := []], w.place[b := In(b)]))
  {
    hide IsRing;
    var g', w' := Init(g, b), World(w.rings[b := []], w.place[b := In(b)]);
    SingleRing(g', b);
    forall h | h in w'.rings ensures IsRing(g', h, w'.rings[h]) && Holds(w', h) {
      if h != b {
        InitKeepsRing(g, w, b, h);
        assert Holds(w, h);
        StillHolds(w, w', h);
      }
    }
  }

  lemma InitBucketKeeps(g: Graph, w: World, e: Link)
    requires Inv(g, w) && (e !in w.place || w.Loose(e))
    ensures Inv(Init(g, e), World(w.rings, w.place[e := Single]))
  {
    hide IsRing;
    var g', w' := Init(g, e), World(w.rings, w.place[e := Single]);
    forall h | h in w'.rings ensures IsRing(g', h, w'.rings[h]) && Holds(w', h) {
      InitKeepsRing(g, w, e, h);
      assert Holds(w, h);
      StillHolds(w, w', h);
    }
  }

  lemma SingleRing(g: Graph, h: Link)
    requires g.SelfLinked(h)
    ensures IsRing(g, h, [])
  {
  }

  lemma JoinHolds(w: World, a: Link, b: Link, joined: seq<Link>, h: Link)
    requires Holds(w, a) && Holds(w, b) && Holds(w, h) && a != b
    requires forall n :: n in joined <==> n in w.rings[a] || n in w.rings[b]
    ensures Holds(Join(w, a, b, joined), h)
  {
  }

  lemma JoinWellFormed(w: World, a: Link, b: Link, joined: seq<Link>)
    requires WellFormed(w) && a in w.rings && b in w.rings && a != b
    requires forall n :: n in joined <==> n in w.rings[a] || n in w.rings[b]
    ensures WellFormed(Join(w, a, b, joined))
  {
    hide Holds;
    forall h | h in w.rings ensures Holds(Join(w, a, b, joined), h) {
      assert Holds(w, a) && Holds(w, b) && Holds(w, h);
      JoinHolds(w, a, b, joined, h);
    }
  }

  lemma JoinKeeps(g: Graph, g': Graph, w: World, a: Link, b: Link, joined: seq<Link>)
    requires Inv(g, w) && a in w.rings && b in w.rings && a != b
    requires forall n :: n in joined <==> n in w.rings[a] || n in w.rings[b]
    requires IsRing(g', a, joined) && IsRing(g', b, [])
    requires Elsewhere(g, g', [a] + w.rings[a] + ([b] + w.rings[b]))
    ensures Inv(g', Join(w, a, b, joined))
  {
    hide IsRing;
    JoinWellFormed(w, a, b, joined);
    hide WellFormed, Elsewhere;
    RingPlaces(w, a);
    RingPlaces(w, b);
    StepFrame(g, g', w, Join(w, a, b, joined), [a] + w.rings[a] + ([b] + w.rings[b]));
  }

  lemma BrigadesApart(g: Graph, w: World, a: Link, b: Link)
    requires Inv(g, w) && a in w.rings && b in w.rings && a != b
    ensures Disjoint([a] + w.rings[a], [b] + w.rings[b])
  {
  }

  /** Joining an empty brigade to itself does nothing, to the graph or to the brigades. */
  lemma JoinSelf(g: Graph, w: World, a: Link)
    requires Inv(g, w) && a in w.rings && w.rings[a] == []
    ensures g.Has(a) && Empty(g, a) && Join(w, a, a, []) == w
  {
  }

  lemma ConcatKeeps(g: Graph, w: World, a: Link, b: Link)
    requires Inv(g, w) && Enabled(w, Concat(a, b))
    ensures ConcatOk(g, a, b) && Inv(RingOps.Concat(g, a, b), Apply(w, Concat(a, b)))
  {
    hide Inv, WellFormed;
    if a == b {
      JoinSelf(g, w, a);
      assert w.rings[a] + w.rings[a] == [];
    } else {
      BrigadesApart(g, w, a, b);
      InvRing(g, w, a);
      InvRing(g, w, b);
      ConcatRings(g, a, w.rings[a], b, w.rings[b]);
      ConcatElsewhere(g, a, w.rings[a], b, w.rings[b], [a] + w.rings[a] + ([b] + w.rings[b]));
      JoinKeeps(g, RingOps.Concat(g, a, b), w, a, b, w.rings[a] + w.rings[b]);
    }
  }

  lemma PrependKeeps(g: Graph, w: World, a: Link, b: Link)
    requires Inv(g, w) && Enabled(w, Prepend(a, b))
    ensures PrependOk(g, a, b) && Inv(RingOps.Prepend(g, a, b), Apply(w, Prepend(a, b)))
  {
    hide Inv, WellFormed;
    if a == b {
      JoinSelf(g, w, a);
      assert w.rings[a] + w.rings[a] == [];
    } else {
      BrigadesApart(g, w, a, b);
      InvRing(g, w, a);
      InvRing(g, w, b);
      PrependRings(g, a, w.rings[a], b, w.rings[b]);
      PrependElsewhere(g, a, w.rings[a], b, w.rings[b], [a] + w.rings[a] + ([b] + w.rings[b]));
      JoinKeeps(g, RingOps.Prepend(g, a, b), w, a, b, w.rings[b] + w.rings[a]);
    }
  }

  lemma InvRing(g: Graph, w: World, h: Link)
    requires Inv(g, w) && h in w.rings
    ensures WellFormed(w) && IsRing(g, h, w.rings[h])
    ensures h in w.place && w.place[h] == In(h)
  {
  }

  lemma InsertAfterKeeps(g: Graph, w: World, b: Link, i: nat, a: Link, e: Link)
    requires Inv(g, w) && b in w.rings && i <= |w.rings[b]| && w.Loose(e)
    requires a == ([b] + w.rings[b])[i]
    ensures SpliceAfterOk(g, a, e, e) && Inv(SpliceAfter(g, a, e, e), Insert(w, b, i, e))
  {
    LooseApart(g, w, b, e);
    InsertAfterRing(g, b, w.rings[b], i, e);
    InsertKeeps(g, SpliceAfter(g, a, e, e), w, b, i, e);
  }

  lemma InsertBeforeKeeps(g: Graph, w: World, b: Link, i: nat, a: Link, e: Link)
    requires Inv(g, w) && b in w.rings && i <= |w.rings[b]| && w.Loose(e)
    requires a == (w.rings[b] + [b])[i]
    ensures SpliceBeforeOk(g, a, e, e) && Inv(SpliceBefore(g, a, e, e), Insert(w, b, i, e))
  {
    LooseApart(g, w, b, e);
    InsertBeforeRing(g, b, w.rings[b], i, e);
    InsertKeeps(g, SpliceBefore(g, a, e, e), w, b, i, e);
  }

  lemma LooseApart(g: Graph, w: World, b: Link, e: Link)
    requires Inv(g, w) && b in w.rings && w.Loose(e)
    ensures g.Has(e) && e !in [b] + w.rings[b] && IsRing(g, b, w.rings[b])
  {
  }

  /** Every macro, called as it asks to be, touches only allocated links and leaves the brigades
      as `Apply` says, well formed and apart. */
  lemma StepKeeps(g: Graph, w: World, op: Op)
    requires Inv(g, w) && Enabled(w, op)
    ensures Exec(g, op).Done? && Inv(Exec(g, op).graph, Apply(w, op))
  {
    hide IsRing;
    match op
    case NewBrigade(b) => NewBrigadeKeeps(g, w, b);
    case NewBucket(e) => InitBucketKeeps(g, w, e);
    case InitBucket(e) => InitBucketKeeps(g, w, e);
    case Remove(e) => RemoveKeeps(g, w, e);
    case Concat(a, b) => ConcatKeeps(g, w, a, b);
    case Prepend(a, b) => PrependKeeps(g, w, a, b);
    case Delete(e) =>
      RemoveKeeps(g, w, e);
      GoneKeeps(Unsplice(g, e, e), Leave(w, e), e);
    case Destroy(e) => GoneKeeps(g, w, e);
    case _ => StepInsertKeeps(g, w, op);
  }

  lemma StepInsertKeeps(g: Graph, w: World, op: Op)
    requires Inv(g, w) && Enabled(w, op)
    requires op.InsertHead? || op.InsertTail? || op.InsertBefore? || op.InsertAfter?
    ensures Exec(g, op).Done? && Inv(Exec(g, op).graph, Apply(w, op))
  {
    hide IsRing;
    match op
    case InsertHead(b, e) => InsertAfterKeeps(g, w, b, 0, b, e);
    case InsertTail(b, e) => InsertBeforeKeeps(g, w, b, |w.rings[b]|, b, e);
    case InsertBefore(a, e) =>
      var b := w.place[a].head;
      HeldAt(w, a);
      InsertBeforeKeeps(g, w, b, if a == b then |w.rings[b]| else IndexOf(w.rings[b], a), a, e);
    case InsertAfter(a, e) =>
      var b := w.place[a].head;
      HeldAt(w, a);
      InsertAfterKeeps(g, w, b, if a == b then 0 else IndexOf(w.rings[b], a) + 1, a, e);
  }

  lemma ExecRemove(g: Graph, e: Link)
    requires UnspliceOk(g, e, e)
    ensures Exec(g, Remove(e)) == Done(Unsplice(g, e, e))
  {
  }

  lemma ExecDelete(g: Graph, w: World, e: Link)
    requires Inv(g, w) && Enabled(w, Delete(e))
    ensures UnspliceOk(g, e, e)
    ensures Exec(g, Delete(e)) == Done(Free(Unsplice(g, e, e), e))
  {
    RemoveKeeps(g, w, e);
  }

  // ----- the debug checks -----

  lemma CheckPassesOnRing(g: Graph, h: Link, s: seq<Link>, a: Link)
    requires IsRing(g, h, s) && (a == h || a in s)
    ensures Check(g, a).Pass?
  {
    CheckExact(g, [h] + s);
    var i := IndexOf([h] + s, a);
    CheckFromAnywhere(g, h, i);
  }

  /** A debug build's check after the step passes, so it goes on to the same graph. */
  lemma DebugStepSame(g: Graph, w: World, op: Op)
    requires Inv(g, w) && Enabled(w, op)
    ensures ExecDebug(g, op) == Exec(g, op)
  {
    hide IsRing;
    StepKeeps(g, w, op);
    if CheckPoint(op).Some? {
      var a, w' := CheckPoint(op).value, Apply(w, op);
      assert a in w.place && w.place[a].In?;
      HeldAt(w', a);
      CheckPassesOnRing(Exec(g, op).graph, w'.place[a].head, w'.rings[w'.place[a].head], a);
    }
  }

  /** The step and its debug check together. */
  lemma StepAndCheck(g: Graph, w: World, op: Op)
    requires Inv(g, w) && Enabled(w, op)
    ensures WellFormed(w) && Exec(g, op).Done? && Inv(Exec(g, op).graph, Apply(w, op))
    ensures CheckPoint(op).Some? ==> Check(Exec(g, op).graph, CheckPoint(op).value).Pass?
  {
    StepKeeps(g, w, op);
    DebugStepSame(g, w, op);
  }

  /** The abstract step keeps every link in one place, whatever the graph. */
  lemma ApplyWellFormed(w: World, op: Op)
    requires WellFormed(w) && Enabled(w, op)
    ensures WellFormed(Apply(w, op))
  {
    match op
    case NewBrigade(b) => FreshWellFormed(w, b, Apply(w, op));
    case NewBucket(e) => FreshWellFormed(w, e, Apply(w, op));
    case InitBucket(e) => FreshWellFormed(w, e, Apply(w, op));
    case InsertHead(b, e) => InsertWellFormed(w, b, 0, e);
    case InsertTail(b, e) => InsertWellFormed(w, b, |w.rings[b]|, e);
    case InsertBefore(a, e) =>
      var b := w.place[a].head;
      HeldAt(w, a);
      InsertWellFormed(w, b, if a == b then |w.rings[b]| else IndexOf(w.rings[b], a), e);
    case InsertAfter(a, e) =>
      var b := w.place[a].head;
      HeldAt(w, a);
      InsertWellFormed(w, b, if a == b then 0 else IndexOf(w.rings[b], a) + 1, e);
    case Remove(e) => LeaveWellFormed(w, e);
    case Concat(a, b) =>
      JoinAnyWellFormed(w, a, b, w.rings[a] + w.rings[b]);
    case Prepend(a, b) =>
      JoinAnyWellFormed(w, a, b, w.rings[b] + w.rings[a]);
    case Delete(e) =>
      LeaveWellFormed(w, e);
      GoneWellFormed(Leave(w, e), e);
    case Destroy(e) => GoneWellFormed(w, e);
  }

  lemma FreshWellFormed(w: World, e: Link, w': World)
    requires WellFormed(w) && (e !in w.place || w.Loose(e))
    requires w' == World(w.rings, w.place[e := Single])
          || (e !in w.place && w' == World(w.rings[e := []], w.place[e := In(e)]))
    ensures WellFormed(w')
  {
  }

  lemma JoinAnyWellFormed(w: World, a: Link, b: Link, joined: seq<Link>)
    requires WellFormed(w) && a in w.rings && b in w.rings
    requires a == b ==> w.rings[b] == [] && joined == []
    requires forall n :: n in joined <==> n in w.rings[a] || n in w.rings[b]
    ensures WellFormed(Join(w, a, b, joined))
  {
    if a != b {
      JoinWellFormed(w, a, b, joined);
    } else {
      var w' := Join(w, a, a, joined);
      assert w'.rings == w.rings && w'.place == w.place;
    }
  }
}
