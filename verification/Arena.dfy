/** The brigades on the heap: links written in place by the ring macros, with the debug checks
    of a debug build, proved step by step against the state machine of `Brigades`. */
module Arena {
  import opened Basics
  import opened LinkGraph
  import opened Rings
  import opened RingOps
  import opened RingLaws
  import opened RingMacros
  import opened RingCheck
  import opened Brigades
  import opened BrigadeRuns
  import opened Sweep

  /** The two calls that destroying a bucket makes, in their order. */
  datatype Event = TypeDestroy(e: Link) | FreeBucket(e: Link)

  /** The calls that an operation makes. */
  function EventsOf(op: Op): seq<Event> {
    if op.Delete? || op.Destroy? then [TypeDestroy(op.e), FreeBucket(op.e)] else []
  }

  function AllEvents(ops: seq<Op>): seq<Event> {
    if ops == [] then [] else EventsOf(ops[0]) + AllEvents(ops[1..])
  }

  /** Those of a sequence of buckets that are deleted one after the other. */
  function Deletions(s: seq<Link>): seq<Event> {
    if s == [] then [] else [TypeDestroy(s[0]), FreeBucket(s[0])] + Deletions(s[1..])
  }

  lemma EventsFirst(ops: seq<Op>)
    requires ops != []
    ensures AllEvents(ops) == EventsOf(ops[0]) + AllEvents(ops[1..])
  {
  }

  lemma {:induction false} EventsConcat(p: seq<Op>, q: seq<Op>)
    ensures AllEvents(p + q) == AllEvents(p) + AllEvents(q)
    decreases |p|
  {
    hide EventsOf;
    if p == [] {
      assert p + q == q;
    } else {
      EventsConcat(p[1..], q);
      EventsFirst(p + q);
      assert (p + q)[1..] == p[1..] + q;
    }
  }

  lemma EventsStep(todo: seq<Link>, body: Link -> seq<Op>)
    requires todo != []
    ensures AllEvents(Flat(todo, body)) == AllEvents(body(todo[0])) + AllEvents(Flat(todo[1..], body))
  {
    hide AllEvents;
    EventsConcat(body(todo[0]), Flat(todo[1..], body));
  }

  lemma OpEvents(d: Link, e: Link)
    ensures AllEvents(RemoveIt()(e)) == [] && AllEvents(MoveTo(d)(e)) == []
    ensures AllEvents(DeleteIt()(e)) == [TypeDestroy(e), FreeBucket(e)]
  {
    assert [Remove(e)][1..] == [] && [Delete(e)][1..] == [];
    var ops := [Remove(e), Op.InsertTail(d, e)];
    assert ops[1..] == [Op.InsertTail(d, e)] && ops[1..][1..] == [];
    EventsFirst(ops);
    EventsFirst(ops[1..]);
  }

  /** A body that removes or moves makes no calls, one that deletes two for each bucket, in order. */
  lemma {:induction false} SweepEvents(todo: seq<Link>, d: Link)
    ensures AllEvents(Flat(todo, RemoveIt())) == [] && AllEvents(Flat(todo, MoveTo(d))) == []
    ensures AllEvents(Flat(todo, DeleteIt())) == Deletions(todo)
    decreases |todo|
  {
    if todo != [] {
      EventsStep(todo, RemoveIt());
      EventsStep(todo, MoveTo(d));
      EventsStep(todo, DeleteIt());
      hide AllEvents, Flat, RemoveIt, MoveTo, DeleteIt;
      OpEvents(d, todo[0]);
      SweepEvents(todo[1..], d);
    }
  }

  class Memory {
    const debug: bool
    var events: seq<Event>
    ghost var nodes: set<Link>
    ghost var world: World

    ghost predicate Valid()
      reads this, nodes
    {
      Inv(Snap(nodes), world)
    }

    /** The step from the old state to this one is `op`, in the links and in the brigades. */
    twostate predicate Stepped(new op: Op)
      reads this, nodes
    {
      && Valid()
      && Exec(old(Snap(nodes)), op) == Done(Snap(nodes))
      && WellFormed(old(world)) && Enabled(old(world), op) && world == Apply(old(world), op)
    }

    constructor (debug: bool)
      ensures Valid() && this.debug == debug
      ensures nodes == {} && world == World(map[], map[]) && events == []
    {
      this.debug := debug;
      events, nodes, world := [], {}, World(map[], map[]);
    }

    method NewBrigade() returns (b: Link)
      requires Valid()
      modifies this`nodes, this`world
      ensures fresh(b) && nodes == old(nodes) + {b} && Stepped(Op.NewBrigade(b))
    {
      hide Snap, Inv, WellFormed, Apply, Check;
      b := new Link();
      Allocate(b);
      Commit(old(Snap(nodes)), Op.NewBrigade(b));
    }

    method NewBucket() returns (e: Link)
      requires Valid()
      modifies this`nodes, this`world
      ensures fresh(e) && nodes == old(nodes) + {e} && Stepped(Op.NewBucket(e))
    {
      hide Snap, Inv, WellFormed, Apply, Check;
      e := new Link();
      Allocate(e);
      Commit(old(Snap(nodes)), Op.NewBucket(e));
    }

    ghost method Allocate(n: Link)
      requires n !in nodes && n.next == n && n.prev == n
      modifies this`nodes
      ensures nodes == old(nodes) + {n}
      ensures Snap(nodes) == Init(old(Snap(nodes)), n)
    {
      nodes := nodes + {n};
    }

    /** apr_bucket_destroy: the type's destroy function, then the bucket's free function. */
    method DestroyBucket(e: Link)
      modifies this`nodes, this`events
      ensures nodes == old(nodes) - {e} && events == old(events) + [TypeDestroy(e), FreeBucket(e)]
      ensures Snap(nodes) == Free(old(Snap(nodes)), e)
    {
      events := events + [TypeDestroy(e)];
      events := events + [FreeBucket(e)];
      nodes := nodes - {e};
    }

    /** The links have made the step `op` from `g`; the brigades follow. */
    ghost method Commit(g: Graph, op: Op)
      requires Inv(g, world) && Enabled(world, op) && Exec(g, op) == Done(Snap(nodes))
      modifies this`world
      ensures WellFormed(old(world)) && world == Apply(old(world), op) && Valid()
    {
      hide Snap, Inv, WellFormed, Enabled, Apply, Exec, Check;
      StepAndCheck(g, world, op);
      world := Apply(world, op);
    }

    /** The consistency check of a debug build; its assertion never fails. */
    method DebugCheck(start: Link)
      requires Check(Snap(nodes), start).Pass?
    {
      if debug {
        var verdict := CheckElemConsistency(start, nodes);
        assert verdict.Pass?;
      }
    }

    method InsertHead(b: Link, e: Link)
      requires Valid() && Enabled(world, Op.InsertHead(b, e))
      modifies nodes, this`world
      ensures nodes == old(nodes) && Stepped(Op.InsertHead(b, e))
    {
      hide Snap, Inv, WellFormed, Enabled, Apply, Check;
      StepAndCheck(Snap(nodes), world, Op.InsertHead(b, e));
      ReachedAfter(b, e, e, nodes);
      SpliceHead(b, e, e, nodes);
      Commit(old(Snap(nodes)), Op.InsertHead(b, e));
      DebugCheck(b);
    }

    method InsertTail(b: Link, e: Link)
      requires Valid() && Enabled(world, Op.InsertTail(b, e))
      modifies nodes, this`world
      ensures nodes == old(nodes) && Stepped(Op.InsertTail(b, e))
    {
      hide Snap, Inv, WellFormed, Enabled, Apply, Check;
      StepAndCheck(Snap(nodes), world, Op.InsertTail(b, e));
      ReachedBefore(b, e, e, nodes);
      SpliceTail(b, e, e, nodes);
      Commit(old(Snap(nodes)), Op.InsertTail(b, e));
      DebugCheck(b);
    }

    method InsertBefore(a: Link, e: Link)
      requires Valid() && Enabled(world, Op.InsertBefore(a, e))
      modifies nodes, this`world
      ensures nodes == old(nodes) && Stepped(Op.InsertBefore(a, e))
    {
      hide Snap, Inv, WellFormed, Enabled, Apply, Check;
      StepAndCheck(Snap(nodes), world, Op.InsertBefore(a, e));
      ReachedBefore(a, e, e, nodes);
      SpliceBeforeElem(a, e, e, nodes);
      Commit(old(Snap(nodes)), Op.InsertBefore(a, e));
      DebugCheck(a);
    }

    method InsertAfter(a: Link, e: Link)
      requires Valid() && Enabled(world, Op.InsertAfter(a, e))
      modifies nodes, this`world
      ensures nodes == old(nodes) && Stepped(Op.InsertAfter(a, e))
    {
      hide Snap, Inv, WellFormed, Enabled, Apply, Check;
      StepAndCheck(Snap(nodes), world, Op.InsertAfter(a, e));
      ReachedAfter(a, e, e, nodes);
      SpliceAfterElem(a, e, e, nodes);
      Commit(old(Snap(nodes)), Op.InsertAfter(a, e));
      DebugCheck(a);
    }

    method Remove(e: Link)
      requires Valid() && Enabled(world, Op.Remove(e))
      modifies nodes, this`world
      ensures nodes == old(nodes) && Stepped(Op.Remove(e))
    {
      hide Snap, Inv, WellFormed, Enabled, Apply, Check;
      StepAndCheck(Snap(nodes), world, Op.Remove(e));
      ReachedAround(e, e, nodes);
      RingUnsplice(e, e, nodes);
      Commit(old(Snap(nodes)), Op.Remove(e));
    }

    method InitBucket(e: Link)
      requires Valid() && Enabled(world, Op.InitBucket(e))
      modifies nodes, this`world
      ensures nodes == old(nodes) && Stepped(Op.InitBucket(e))
    {
      hide Snap, Inv, WellFormed, Enabled, Apply, Check;
      StepAndCheck(Snap(nodes), world, Op.InitBucket(e));
      InHeap(e, nodes);
      RingInit(e, nodes);
      Commit(old(Snap(nodes)), Op.InitBucket(e));
    }

    method Concat(a: Link, b: Link)
      requires Valid() && Enabled(world, Op.Concat(a, b))
      modifies nodes, this`world
      ensures nodes == old(nodes) && Stepped(Op.Concat(a, b))
    {
      hide Snap, Inv, WellFormed, Apply, Check;
      StepAndCheck(Snap(nodes), world, Op.Concat(a, b));
      HeadIsWhole(Snap(nodes), world, a, b);
      InHeap(a, nodes);
      InHeap(b, nodes);
      ConcatTextIff(Snap(nodes), a, b);
      RingConcat(a, b, nodes);
      Commit(old(Snap(nodes)), Op.Concat(a, b));
      DebugCheck(a);
    }

    method Prepend(a: Link, b: Link)
      requires Valid() && Enabled(world, Op.Prepend(a, b))
      modifies nodes, this`world
      ensures nodes == old(nodes) && Stepped(Op.Prepend(a, b))
    {
      hide Snap, Inv, WellFormed, Apply, Check;
      StepAndCheck(Snap(nodes), world, Op.Prepend(a, b));
      HeadIsWhole(Snap(nodes), world, a, b);
      InHeap(a, nodes);
      InHeap(b, nodes);
      PrependTextIff(Snap(nodes), a, b);
      RingPrepend(a, b, nodes);
      Commit(old(Snap(nodes)), Op.Prepend(a, b));
      DebugCheck(a);
    }

    method Destroy(e: Link)
      requires Valid() && Enabled(world, Op.Destroy(e))
      modifies this`nodes, this`world, this`events
      ensures nodes == old(nodes) - {e} && events == old(events) + [TypeDestroy(e), FreeBucket(e)]
      ensures Stepped(Op.Destroy(e))
    {
      hide Snap, Inv, WellFormed, Enabled, Apply;
      StepAndCheck(Snap(nodes), world, Op.Destroy(e));
      DestroyBucket(e);
      Commit(old(Snap(nodes)), Op.Destroy(e));
    }

    /** apr_bucket_delete: REMOVE, then destroy. */
    method Delete(e: Link)
      requires Valid() && Enabled(world, Op.Delete(e))
      modifies nodes, this`nodes, this`world, this`events
      ensures nodes == old(nodes) - {e} && events == old(events) + [TypeDestroy(e), FreeBucket(e)]
      ensures Stepped(Op.Delete(e))
    {
      hide Snap, Inv, WellFormed, Enabled, Apply;
      ExecDelete(Snap(nodes), world, e);
      hide Exec, Free, Unsplice, UnspliceOk;
      ReachedAround(e, e, nodes);
      RingUnsplice(e, e, nodes);
      DestroyBucket(e);
      Commit(old(Snap(nodes)), Op.Delete(e));
    }

    /** Any one of the operations that does not allocate. */
    method Do(op: Op)
      requires Valid() && Enabled(world, op) && !op.NewBrigade? && !op.NewBucket?
      modifies nodes, this`nodes, this`world, this`events
      ensures nodes <= old(nodes) && events == old(events) + EventsOf(op) && Stepped(op)
    {
      NoEvents(op);
      hide *;
      match op
      case InitBucket(e) => InitBucket(e);
      case InsertHead(b, e) => InsertHead(b, e);
      case InsertTail(b, e) => InsertTail(b, e);
      case InsertBefore(a, e) => InsertBefore(a, e);
      case InsertAfter(a, e) => InsertAfter(a, e);
      case Remove(e) => Remove(e);
      case Concat(a, b) => Concat(a, b);
      case Prepend(a, b) => Prepend(a, b);
      case Delete(e) => Delete(e);
      case Destroy(e) => Destroy(e);
    }

    method DoAll(ops: seq<Op>)
      requires Valid() && WellFormed(world) && Legal(world, ops)
      requires forall op :: op in ops ==> !op.NewBrigade? && !op.NewBucket?
      modifies nodes, this`nodes, this`world, this`events
      ensures Valid() && nodes <= old(nodes)
      ensures world == ApplyAll(old(world), ops) && events == old(events) + AllEvents(ops)
      ensures Run(old(Snap(nodes)), ops) == Done(Snap(nodes))
      decreases |ops|
    {
      hide Snap, Inv, WellFormed, Apply, Enabled, Exec, EventsOf;
      if ops != [] {
        ApplyWellFormed(world, ops[0]);
        Do(ops[0]);
        DoAll(ops[1..]);
      }
    }

    lemma Consistent()
      requires Valid()
      ensures Inv(Snap(nodes), world)
    {
    }

    /** `CursorAt` on the heap. */
    lemma Cursors(b: Link, todo: seq<Link>)
      requires Valid() && b in world.rings && EndsWith(world.rings[b], todo)
      ensures b !in todo && b in nodes && b.next in nodes
      ensures todo == world.rings[b] ==> b.next == (todo + [b])[0]
      ensures todo != [] ==> todo[0] in nodes && todo[0].next == (todo + [b])[1]
    {
      hide Snap;
      CursorAt(Snap(nodes), world, b, todo);
      HeadIsWhole(Snap(nodes), world, b, b);
      hide Inv;
      InHeap(b, nodes);
      if todo != [] { InHeap(todo[0], nodes); }
    }

    /** FOREACH_SAFE over the brigade `b`.  It visits exactly the buckets the brigade held at the
        start, once each and in order, and ends, whatever a tame body does: it may remove, move
        or delete the current bucket, or put others in its place.  Every link the loop reads
        is in allocated memory when it is read. */
    method ForeachSafe(b: Link, body: Link -> seq<Op>) returns (visited: seq<Link>)
      requires Valid() && WellFormed(world) && b in world.rings
      requires Tame(world, b, world.rings[b], body)
      modifies nodes, this`nodes, this`world, this`events
      ensures Valid() && nodes <= old(nodes)
      ensures visited == old(world).rings[b]
      ensures world == Swept(old(world), b, old(world).rings[b], body)
      ensures events == old(events) + AllEvents(Flat(old(world).rings[b], body))
      ensures Run(old(Snap(nodes)), Flat(old(world).rings[b], body)) == Done(Snap(nodes))
    {
      hide *;
      ghost var todo := world.rings[b];
      visited := [];
      WholeEnds(todo);
      Cursors(b, todo);
      var ep1 := b.next;
      var ep2 := ep1.next;
      while ep1 != b
        invariant Valid() && nodes <= old(nodes) && WellFormed(world) && b in world.rings
        invariant EndsWith(world.rings[b], todo) && Tame(world, b, todo, body)
        invariant Swept(world, b, todo, body) == Swept(old(world), b, old(world).rings[b], body)
        invariant Run(Snap(nodes), Flat(todo, body))
               == Run(old(Snap(nodes)), Flat(old(world).rings[b], body))
        invariant events + AllEvents(Flat(todo, body))
               == old(events) + AllEvents(Flat(old(world).rings[b], body))
        invariant visited + todo == old(world).rings[b]
        invariant ep1 == (todo + [b])[0]
        invariant todo != [] ==> b !in todo && ep2 == (todo + [b])[1]
        decreases |todo|
      {
        assert todo == [ep1] + todo[1..];
        assert visited + todo == visited + [ep1] + todo[1..];
        visited := visited + [ep1];
        TameStep(world, b, todo, body);
        FlatStep(todo, body, Snap(nodes));
        EventsStep(todo, body);
        ghost var before := events;
        assert before + AllEvents(Flat(todo, body))
            == before + AllEvents(body(ep1)) + AllEvents(Flat(todo[1..], body));
        DoAll(body(ep1));
        todo := todo[1..];
        ep1 := ep2;
        Cursors(b, todo);
        assert ep1 in nodes;
        ep2 := ep1.next;
      }
      SweptNothing(world, b, body);
      FlatNothing(body, Snap(nodes));
      NothingMore(body, events);
    }

    /** FOREACH_SAFE with a body that removes: it visits every bucket and leaves the head in its
        INIT state.  The buckets stay in memory, on their own, with what links they have left. */
    method RemoveEach(b: Link) returns (visited: seq<Link>)
      requires Valid() && b in world.rings
      modifies nodes, this`nodes, this`world, this`events
      ensures Valid() && visited == old(world).rings[b]
      ensures b.next == b && b.prev == b
      ensures nodes == old(nodes) && events == old(events)
      ensures world.rings == old(world).rings[b := []] && world.place.Keys == old(world).place.Keys
      ensures forall n :: n in old(world).place ==>
        world.place[n] == if n in visited then Stray else old(world).place[n]
      ensures Snap(nodes) == Emptied(old(Snap(nodes)), b, visited)
    {
      hide *;
      Consistent();
      RemovalIsTame(Snap(nodes), world, b);
      RemoveAllSweeps(world, b);
      RemovalsLeave(Snap(nodes), b, world.rings[b]);
      SweepEvents(world.rings[b], b);
      HeadEmptied(Snap(nodes), b, world.rings[b]);
      visited := ForeachSafe(b, RemoveIt());
      SnapAt(nodes, b);
    }

    /** With a body that deletes: the same, but the buckets are gone, each after its own two calls. */
    method DeleteEach(b: Link) returns (visited: seq<Link>)
      requires Valid() && b in world.rings
      modifies nodes, this`nodes, this`world, this`events
      ensures Valid() && visited == old(world).rings[b]
      ensures b in nodes && b.next == b && b.prev == b
      ensures nodes == old(nodes) - set n | n in visited
      ensures events == old(events) + Deletions(visited)
      ensures world.rings == old(world).rings[b := []]
      ensures world.place == old(world).place - set n | n in visited
      ensures Snap(nodes) == Graph(old(Snap(nodes)).next[b := b] - (set n | n in visited),
                                   old(Snap(nodes)).prev[b := b] - set n | n in visited)
    {
      hide *;
      Consistent();
      DeletionIsTame(Snap(nodes), world, b);
      DeleteAllSweeps(world, b);
      DeletesLeave(Snap(nodes), b, world.rings[b]);
      SweepEvents(world.rings[b], b);
      visited := ForeachSafe(b, DeleteIt());
      SnapAt(nodes, b);
    }

    /** With a body that moves every bucket to another brigade: it visits every bucket and leaves the
        heap, in every link, as one CONCAT does. */
    method MoveEach(b: Link, d: Link) returns (visited: seq<Link>)
      requires Valid() && b in world.rings && d in world.rings && b != d
      modifies nodes, this`nodes, this`world, this`events
      ensures Valid() && visited == old(world).rings[b]
      ensures nodes == old(nodes) && events == old(events)
      ensures world == Join(old(world), d, b, old(world).rings[d] + old(world).rings[b])
      ensures ConcatOk(old(Snap(nodes)), d, b)
      ensures Snap(nodes) == RingOps.Concat(old(Snap(nodes)), d, b)
    {
      hide *;
      Consistent();
      MovingIsTame(Snap(nodes), world, b, d);
      MoveAllSweeps(world, b, d);
      SweepEvents(world.rings[b], d);
      ConcatKeys(Snap(nodes), d, b);
      visited := ForeachSafe(b, MoveTo(d));
    }
  }

  lemma NoEvents(op: Op)
    ensures !op.Delete? && !op.Destroy? ==> EventsOf(op) == []
    ensures op.Delete? || op.Destroy? ==> EventsOf(op) == [TypeDestroy(op.e), FreeBucket(op.e)]
  {
  }

  lemma HeadEmptied(g: Graph, b: Link, s: seq<Link>)
    requires b in g.next && b in g.prev
    ensures Emptied(g, b, s).SelfLinked(b) && Emptied(g, b, s).next.Keys == g.next.Keys
  {
  }

  lemma ConcatKeys(g: Graph, a: Link, b: Link)
    requires ConcatOk(g, a, b)
    ensures RingOps.Concat(g, a, b).next.Keys == g.next.Keys
  {
  }

  lemma NothingMore(body: Link -> seq<Op>, events: seq<Event>)
    ensures events + AllEvents(Flat([], body)) == events
  {
  }

  lemma InHeap(e: Link, nodes: set<Link>)
    requires Snap(nodes).Has(e)
    ensures e in nodes && Snap(nodes).next[e] == e.next && Snap(nodes).prev[e] == e.prev
    ensures Snap(nodes).Has(e.next) ==> e.next in nodes
    ensures Snap(nodes).Has(e.prev) ==> e.prev in nodes
  {
  }

  /** The heads of two brigades and their neighbours are allocated, and neither head is half
      empty. */
  lemma HeadIsWhole(g: Graph, w: World, a: Link, b: Link)
    requires Inv(g, w) && a in w.rings && b in w.rings
    ensures g.Has(a) && g.Has(g.next[a]) && g.Has(g.prev[a])
    ensures g.Has(b) && g.Has(g.next[b]) && g.Has(g.prev[b])
    ensures g.prev[b] == b ==> g.next[b] == b
  {
    HeadEnds(g, b, w.rings[b]);
    assert a == ([a] + w.rings[a])[0] && b == ([b] + w.rings[b])[0];
    CycleNeighbours(g, [a] + w.rings[a], a);
    CycleNeighbours(g, [b] + w.rings[b], b);
    if w.rings[b] != [] { assert Last(w.rings[b]) in w.rings[b]; }
  }

}
