/** The debug walk that follows `next` once around a ring and asserts at every link that
    `next` and `prev` undo each other, on any graph whatever. */
module RingCheck {
  import opened Basics
  import opened LinkGraph
  import opened Rings

  /** How the walk ends, with the links it stood on: it came back to its start; one of its two
      assertions failed at the last of them; it was led out of allocated memory; or
      it came back to a link other than its start and so would never end. */
  datatype Verdict =
    | Pass(visited: seq<Link>)
    | NextPrevFailed(visited: seq<Link>)
    | PrevNextFailed(visited: seq<Link>)
    | Unallocated(visited: seq<Link>)
    | Endless(visited: seq<Link>)

  /** The measure of the walk: allocated links it has not stood on. */
  ghost function Unvisited(g: Graph, path: seq<Link>): set<Link> {
    g.next.Keys - set n | n in path
  }

  lemma VisitOneMore(g: Graph, path: seq<Link>, n: Link)
    requires n in g.next && n !in path
    ensures Unvisited(g, path + [n]) < Unvisited(g, path)
  {
    assert n in path + [n] && n in Unvisited(g, path);
    forall m | m in Unvisited(g, path + [n]) ensures m in Unvisited(g, path) {
      assert m !in path + [n];
    }
  }

  /** The walk from the last link of `path`, having come along `path` from its start. */
  function Walk(g: Graph, path: seq<Link>): Verdict
    requires path != []
    decreases Unvisited(g, path)
  {
    var start, here := path[0], Last(path);
    if !g.Has(here) || !g.Has(g.next[here]) then Unallocated(path)
    else if g.prev[g.next[here]] != here then NextPrevFailed(path)
    else if !g.Has(g.prev[here]) then Unallocated(path)
    else if g.next[g.prev[here]] != here then PrevNextFailed(path)
    else if g.next[here] == start then Pass(path)
    else if g.next[here] in path then Endless(path)
    else
      VisitOneMore(g, path, g.next[here]);
      Walk(g, path + [g.next[here]])
  }

  function Check(g: Graph, start: Link): Verdict {
    Walk(g, [start])
  }

  /** The same walk with only the first of the two assertions in it. */
  function WalkNextPrev(g: Graph, path: seq<Link>): Verdict
    requires path != []
    decreases Unvisited(g, path)
  {
    var start, here := path[0], Last(path);
    if !g.Has(here) || !g.Has(g.next[here]) then Unallocated(path)
    else if g.prev[g.next[here]] != here then NextPrevFailed(path)
    else if g.next[here] == start then Pass(path)
    else if g.next[here] in path then Endless(path)
    else
      VisitOneMore(g, path, g.next[here]);
      WalkNextPrev(g, path + [g.next[here]])
  }

  // ----- what has been walked -----

  /** What the assertions passed so far have established. */
  ghost predicate Walked(g: Graph, path: seq<Link>) {
    && path != [] && Distinct(path)
    && (|path| > 1 ==> Chain(g, path))
  }

  lemma WalkedOn(g: Graph, path: seq<Link>)
    requires Walked(g, path) && g.Has(Last(path)) && g.Has(g.next[Last(path)])
    requires g.prev[g.next[Last(path)]] == Last(path)
    ensures g.next[Last(path)] == path[0] ==> Cycle(g, path)
    ensures g.next[Last(path)] != path[0] ==>
              g.next[Last(path)] !in path && Walked(g, path + [g.next[Last(path)]])
  {
    var here, on := Last(path), g.next[Last(path)];
    if on != path[0] {
      forall j | 0 <= j < |path| ensures path[j] != on {
        if j > 0 { assert g.Joined(path[j - 1], path[j]); }
      }
      ChainConcat(g, path, [on]);
      DistinctConcat(path, [on]);
    }
  }

  // ----- the verdict -----

  /** The walk ends on every graph, corrupt or not: it cannot fall into a loop that misses its
      start.  When it ends with `Pass` it has been around a whole cycle. */
  lemma {:induction false} WalkEnds(g: Graph, path: seq<Link>)
    requires Walked(g, path)
    ensures !Walk(g, path).Endless? && path <= Walk(g, path).visited
    ensures Walked(g, Walk(g, path).visited)
    ensures Walk(g, path).Pass? ==> Cycle(g, Walk(g, path).visited)
    decreases Unvisited(g, path)
  {
    var here := Last(path);
    if g.Has(here) && g.Has(g.next[here]) && g.prev[g.next[here]] == here {
      WalkedOn(g, path);
      if g.Has(g.prev[here]) && g.next[g.prev[here]] == here && g.next[here] != path[0] {
        VisitOneMore(g, path, g.next[here]);
        WalkEnds(g, path + [g.next[here]]);
      }
    }
  }

  lemma CheckEnds(g: Graph, start: Link)
    ensures Walked(g, [start])
    ensures !Check(g, start).Endless? && [start] <= Check(g, start).visited
    ensures Walked(g, Check(g, start).visited)
    ensures Check(g, start).Pass? ==> Cycle(g, Check(g, start).visited)
  {
    WalkEnds(g, [start]);
  }

  lemma {:induction false} WalkAlongCycle(g: Graph, c: seq<Link>, k: nat)
    requires Cycle(g, c) && 0 < k <= |c|
    ensures Walk(g, c[..k]) == Pass(c)
    decreases |c| - k
  {
    assert c[k - 1] in c && Last(c[..k]) == c[k - 1];
    CycleNeighbours(g, c, c[k - 1]);
    if k < |c| {
      assert g.Joined(c[k - 1], c[k]);
      assert c[..k] + [c[k]] == c[..k + 1];
      WalkAlongCycle(g, c, k + 1);
    } else {
      assert c[..k] == c;
    }
  }

  /** The check passes from `c[0]`, having visited `c`, exactly when `c` is a cycle of distinct
      links on which `next` and `prev` are mutually inverse. */
  lemma CheckExact(g: Graph, c: seq<Link>)
    requires c != []
    ensures Check(g, c[0]) == Pass(c) <==> Cycle(g, c)
  {
    if Cycle(g, c) {
      WalkAlongCycle(g, c, 1);
      assert c[..1] == [c[0]];
    } else {
      CheckEnds(g, c[0]);
    }
  }

  lemma CheckPassesIff(g: Graph, start: Link)
    ensures Check(g, start).Pass? <==> exists c :: Cycle(g, c) && c[0] == start
  {
    CheckEnds(g, start);
    if c :| Cycle(g, c) && c[0] == start {
      CheckExact(g, c);
    }
  }

  /** It does not matter where on the ring the check starts: it passes from every link it
      visited, and visits the same links in the same order, rotated. */
  lemma CheckFromAnywhere(g: Graph, start: Link, i: nat)
    requires Check(g, start).Pass? && i < |Check(g, start).visited|
    ensures var c := Check(g, start).visited; Check(g, c[i]) == Pass(c[i..] + c[..i])
  {
    CheckEnds(g, start);
    var c := Check(g, start).visited;
    assert c == c[..i] + c[i..];
    Rotate(g, c[..i], c[i..]);
    CheckExact(g, c[i..] + c[..i]);
  }

  // ----- the failing verdicts -----

  /** The walk comes to stand on the last link of `v`: `v` is a chain of distinct links, and if it
      has more than one then the start has passed both assertions.  (At the other links the second
      one cannot fail: the link before is the one the walk has just come from.) */
  ghost predicate Reached(g: Graph, v: seq<Link>) {
    && v != [] && Distinct(v)
    && (|v| > 1 ==> Chain(g, v) && g.Has(g.prev[v[0]]) && g.next[g.prev[v[0]]] == v[0])
  }

  lemma ReachedPrefix(g: Graph, v: seq<Link>, k: nat)
    requires Reached(g, v) && 0 < k < |v|
    ensures Reached(g, v[..k])
    ensures g.Joined(v[k - 1], v[k]) && g.Has(v[k - 1]) && g.Has(v[k])
    ensures g.Has(g.prev[v[k - 1]]) && g.next[g.prev[v[k - 1]]] == v[k - 1]
  {
    assert g.Joined(v[k - 1], v[k]);
    if k > 1 {
      assert g.Joined(v[k - 2], v[k - 1]);
      assert v == v[..k] + v[k..];
      ChainConcat(g, v[..k], v[k..]);
    }
  }

  lemma {:induction false} WalkThrough(g: Graph, v: seq<Link>, k: nat)
    requires Reached(g, v) && 0 < k <= |v|
    ensures Walk(g, v[..k]) == Walk(g, v)
    decreases |v| - k
  {
    if k < |v| {
      ReachedPrefix(g, v, k);
      assert v[..k] + [v[k]] == v[..k + 1];
      WalkThrough(g, v, k + 1);
    } else {
      assert v[..k] == v;
    }
  }

  lemma {:induction false} WalkReaches(g: Graph, path: seq<Link>)
    requires Reached(g, path)
    ensures Reached(g, Walk(g, path).visited)
    decreases Unvisited(g, path)
  {
    var here := Last(path);
    if g.Has(here) && g.Has(g.next[here]) && g.prev[g.next[here]] == here {
      WalkedOn(g, path);
      if g.Has(g.prev[here]) && g.next[g.prev[here]] == here && g.next[here] != path[0] {
        VisitOneMore(g, path, g.next[here]);
        WalkReaches(g, path + [g.next[here]]);
      }
    }
  }

  /** Both assertions hold at `here`, and read only allocated links. */
  predicate PassesAt(g: Graph, here: Link) {
    && g.Has(here) && g.Has(g.next[here]) && g.prev[g.next[here]] == here
    && g.Has(g.prev[here]) && g.next[g.prev[here]] == here
  }

  /** A verdict that stands on `v` is decided at the last link of `v`. */
  lemma VerdictAt(g: Graph, start: Link, v: seq<Link>)
    requires v != []
    ensures Check(g, start).visited == v ==> v[0] == start && Reached(g, v)
    ensures v[0] == start && Reached(g, v) ==> Check(g, start) == Walk(g, v)
    ensures Reached(g, v) && PassesAt(g, Last(v)) ==> Walk(g, v).Pass? || Walk(g, v).visited != v
  {
    CheckEnds(g, start);
    WalkReaches(g, [start]);
    if v[0] == start && Reached(g, v) {
      WalkThrough(g, v, 1);
      assert v[..1] == [start];
    }
    if Reached(g, v) && PassesAt(g, Last(v)) {
      var on := g.next[Last(v)];
      WalkedOn(g, v);
      if on != v[0] { WalkEnds(g, v + [on]); }
    }
  }

  /** The first assertion fails at the last link of `v`, and nothing failed before, exactly when
      the walk comes there and the link after it does not point back. */
  lemma NextPrevFailsIff(g: Graph, start: Link, v: seq<Link>)
    requires v != []
    ensures Check(g, start) == NextPrevFailed(v)
       <==> && v[0] == start && Reached(g, v)
            && g.Has(Last(v)) && g.Has(g.next[Last(v)]) && g.prev[g.next[Last(v)]] != Last(v)
  {
    VerdictAt(g, start, v);
  }

  /** The second assertion fails only ever at the start, and there exactly when the first one
      passes and the link before the start does not point at it. */
  lemma PrevNextFailsIff(g: Graph, start: Link, v: seq<Link>)
    requires v != []
    ensures Check(g, start) == PrevNextFailed(v)
       <==> && v == [start]
            && g.Has(start) && g.Has(g.next[start]) && g.prev[g.next[start]] == start
            && g.Has(g.prev[start]) && g.next[g.prev[start]] != start
  {
    VerdictAt(g, start, v);
    if |v| > 1 && Reached(g, v) { assert g.Joined(v[|v| - 2], v[|v| - 1]); }
  }

  /** The walk leaves allocated memory at the last link of `v` exactly when it comes there and the
      link after it is not allocated; or there is only the start, and it is not allocated or, the
      first assertion passed, the link before it is not. */
  lemma UnallocatedIff(g: Graph, start: Link, v: seq<Link>)
    requires v != []
    ensures Check(g, start) == Unallocated(v)
       <==> && v[0] == start && Reached(g, v)
            && if !g.Has(Last(v)) then v == [start]
               else || !g.Has(g.next[Last(v)])
                    || (v == [start] && g.prev[g.next[start]] == start && !g.Has(g.prev[start]))
  {
    VerdictAt(g, start, v);
    if |v| > 1 && Reached(g, v) { assert g.Joined(v[|v| - 2], v[|v| - 1]); }
  }

  // ----- the second assertion -----

  lemma {:induction false} WalkNextPrevEnds(g: Graph, path: seq<Link>)
    requires Walked(g, path)
    ensures !WalkNextPrev(g, path).Endless? && path <= WalkNextPrev(g, path).visited
    ensures WalkNextPrev(g, path).Pass? ==> Cycle(g, WalkNextPrev(g, path).visited)
    decreases Unvisited(g, path)
  {
    var here := Last(path);
    if g.Has(here) && g.Has(g.next[here]) && g.prev[g.next[here]] == here {
      WalkedOn(g, path);
      if g.next[here] != path[0] {
        VisitOneMore(g, path, g.next[here]);
        WalkNextPrevEnds(g, path + [g.next[here]]);
      }
    }
  }

  lemma {:induction false} WalkNextPrevAlongCycle(g: Graph, c: seq<Link>, k: nat)
    requires Cycle(g, c) && 0 < k <= |c|
    ensures WalkNextPrev(g, c[..k]) == Pass(c)
    decreases |c| - k
  {
    assert c[k - 1] in c && Last(c[..k]) == c[k - 1];
    CycleNeighbours(g, c, c[k - 1]);
    if k < |c| {
      assert g.Joined(c[k - 1], c[k]);
      assert c[..k] + [c[k]] == c[..k + 1];
      WalkNextPrevAlongCycle(g, c, k + 1);
    } else {
      assert c[..k] == c;
    }
  }

  /** Dropping the second assertion never changes whether the check passes, nor what a passing
      check visits. */
  lemma SecondAssertionIsRedundant(g: Graph, start: Link, c: seq<Link>)
    ensures Check(g, start) == Pass(c) <==> WalkNextPrev(g, [start]) == Pass(c)
  {
    CheckEnds(g, start);
    WalkNextPrevEnds(g, [start]);
    if Check(g, start) == Pass(c) {
      WalkNextPrevAlongCycle(g, c, 1);
      assert c[..1] == [start];
    }
    if WalkNextPrev(g, [start]) == Pass(c) {
      CheckExact(g, c);
    }
  }

  ghost predicate StaysIn(g: Graph, ns: set<Link>, n: Link) {
    g.Has(n) && g.next[n] in ns && g.prev[n] in ns
  }

  /** The links `ns` are allocated and lead only to one another. */
  ghost predicate Closed(g: Graph, ns: set<Link>) {
    forall n {:trigger StaysIn(g, ns, n)} :: n in ns ==> StaysIn(g, ns, n)
  }

  lemma ClosedAt(g: Graph, ns: set<Link>, n: Link)
    requires Closed(g, ns) && n in ns
    ensures g.Has(n) && g.Has(g.next[n]) && g.Has(g.prev[n]) && g.next[n] in ns && g.prev[n] in ns
  {
    assert StaysIn(g, ns, n);
    assert StaysIn(g, ns, g.next[n]) && StaysIn(g, ns, g.prev[n]);
  }

  /** A walk that comes to links which lead only to one another never leaves allocated memory, so on
      a graph in which no link leads outside no walk does. */
  lemma {:induction false} ClosedStaysAllocated(g: Graph, ns: set<Link>, path: seq<Link>)
    requires Closed(g, ns) && path != [] && Last(path) in ns
    ensures !Walk(g, path).Unallocated?
    decreases Unvisited(g, path)
  {
    hide Closed;
    var here := Last(path);
    ClosedAt(g, ns, here);
    if g.next[here] !in path {
      VisitOneMore(g, path, g.next[here]);
      ClosedStaysAllocated(g, ns, path + [g.next[here]]);
    }
  }

  // ----- the macro -----

  /** CHECK_ELEM_CONSISTENCY on any heap, however corrupt, in which the walk stays in allocated
      memory.  `visited` only reports what the loop did: the loop never looks at it. */
  method CheckElemConsistency(start: Link, ghost nodes: set<Link>) returns (verdict: Verdict)
    requires !Check(Snap(nodes), start).Unallocated?
    ensures verdict == Check(Snap(nodes), start) && !verdict.Endless?
  {
    hide Walked, Cycle, Snap;
    ghost var g := Snap(nodes);
    var here := start;
    var visited := [start];
    CheckEnds(g, start);
    while true
      invariant visited != [] && here == Last(visited) && visited[0] == start
      invariant Walked(g, visited)
      invariant Walk(g, visited) == Check(g, start)
      decreases Unvisited(g, visited)
    {
      SnapAt(nodes, here);
      SnapAt(nodes, here.next);
      if here.next.prev != here { return NextPrevFailed(visited); }
      SnapAt(nodes, here.prev);
      if here.prev.next != here { return PrevNextFailed(visited); }
      WalkedOn(g, visited);
      here := here.next;
      if here == start { return Pass(visited); }
      VisitOneMore(g, visited, here);
      visited := visited + [here];
    }
  }
}
