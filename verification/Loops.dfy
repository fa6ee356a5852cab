/** FOREACH and FOREACH_SAFE as they run over a graph, for any body at all: one that reads the
    links, changes any of them, allocates or frees.  When each of them visits exactly the elements
    the ring held at the start. */
module Loops {
  import opened Basics
  import opened LinkGraph
  import opened Rings
  import opened RingOps
  import opened RingLaws
  import opened Brigades
  import opened BrigadeRuns
  import opened Sweep

  type Body = (Graph, Link) -> Outcome

  /** A loop ended, with what it visited; or it, or its body, went wrong; or it is still running
      when `steps` turns are over. */
  datatype End = Ended(graph: Graph, visited: seq<Link>) | Failed | Running

  function ForeachFrom(g: Graph, b: Link, ep: Link, body: Body, steps: nat, visited: seq<Link>): End
    decreases steps
  {
    if ep == b then Ended(g, visited)
    else if steps == 0 then Running
    else
      match body(g, ep)
      case Done(g') =>
        if g'.Has(ep) then ForeachFrom(g', b, g'.next[ep], body, steps - 1, visited + [ep]) else Failed
      case _ => Failed
  }

  function Foreach(g: Graph, b: Link, body: Body, steps: nat): End {
    if g.Has(b) then ForeachFrom(g, b, g.next[b], body, steps, []) else Failed
  }

  function SafeFrom(g: Graph, b: Link, ep1: Link, ep2: Link, body: Body, steps: nat,
                    visited: seq<Link>): End
    decreases steps
  {
    if ep1 == b then Ended(g, visited)
    else if steps == 0 then Running
    else
      match body(g, ep1)
      case Done(g') =>
        if g'.Has(ep2) then SafeFrom(g', b, ep2, g'.next[ep2], body, steps - 1, visited + [ep1])
        else Failed
      case _ => Failed
  }

  function ForeachSafe(g: Graph, b: Link, body: Body, steps: nat): End {
    if g.Has(b) && g.Has(g.next[b])
    then SafeFrom(g, b, g.next[b], g.next[g.next[b]], body, steps, [])
    else Failed
  }

  // ----- every way a loop can go -----

  /** A turn of FOREACH: the body takes the memory from `m` to `m'`, and the cursor goes from `e` to
      what NEXT of `e` is then. */
  ghost predicate Turn(b: Link, body: Body, m: Graph, e: Link, m': Graph, e': Link) {
    e != b && body(m, e) == Done(m') && m'.Has(e) && e' == m'.next[e]
  }

  /** A turn of FOREACH_SAFE: the cursor goes to what NEXT of `e` was before the body ran. */
  ghost predicate SafeTurn(b: Link, body: Body, m: Graph, e: Link, m': Graph, e': Link) {
    && e != b && body(m, e) == Done(m') && m.Has(e) && e' == m.next[e]
    && m'.Has(e')
  }

  /** The course of a FOREACH through its first `|c| - 1` turns: `gs[i]` is the memory and `c[i]`
      the cursor before turn `i`. */
  ghost predicate Course(g: Graph, b: Link, body: Body, gs: seq<Graph>, c: seq<Link>) {
    && |gs| == |c| > 0 && gs[0] == g && g.Has(b) && c[0] == g.next[b]
    && forall i, j :: 0 <= i && j == i + 1 && j < |c| ==> Turn(b, body, gs[i], c[i], gs[j], c[j])
  }

  /** Of a FOREACH_SAFE, which reads NEXT of the cursor even when that is the sentinel. */
  ghost predicate SafeCourse(g: Graph, b: Link, body: Body, gs: seq<Graph>, c: seq<Link>) {
    && |gs| == |c| > 0 && gs[0] == g && g.Has(b) && c[0] == g.next[b] && g.Has(c[0])
    && forall i, j :: 0 <= i && j == i + 1 && j < |c| ==> SafeTurn(b, body, gs[i], c[i], gs[j], c[j])
  }

  lemma CourseGrows(g: Graph, b: Link, body: Body, gs: seq<Graph>, c: seq<Link>, m: Graph, e: Link)
    requires Course(g, b, body, gs, c) && Turn(b, body, Last(gs), Last(c), m, e)
    ensures Course(g, b, body, gs + [m], c + [e])
  {
    hide Turn;
    var ms, d := gs + [m], c + [e];
    forall i, j | 0 <= i && j == i + 1 && j < |d| ensures Turn(b, body, ms[i], d[i], ms[j], d[j]) {
      if j < |c| { assert Turn(b, body, gs[i], c[i], gs[j], c[j]); }
    }
  }

  lemma SafeCourseGrows(g: Graph, b: Link, body: Body, gs: seq<Graph>, c: seq<Link>, m: Graph, e: Link)
    requires SafeCourse(g, b, body, gs, c) && SafeTurn(b, body, Last(gs), Last(c), m, e)
    ensures SafeCourse(g, b, body, gs + [m], c + [e])
  {
    hide SafeTurn;
    var ms, d := gs + [m], c + [e];
    forall i, j | 0 <= i && j == i + 1 && j < |d| ensures SafeTurn(b, body, ms[i], d[i], ms[j], d[j]) {
      if j < |c| { assert SafeTurn(b, body, gs[i], c[i], gs[j], c[j]); }
    }
  }

  lemma SafeCourseHas(g: Graph, b: Link, body: Body, gs: seq<Graph>, c: seq<Link>, i: nat)
    requires SafeCourse(g, b, body, gs, c) && i < |c|
    ensures gs[i].Has(c[i])
  {
    if i > 0 { assert SafeTurn(b, body, gs[i - 1], c[i - 1], gs[i], c[i]); }
  }

  /** In the memory `m` with the cursor at `e`, the next turn goes wrong. */
  ghost predicate Breaks(m: Graph, e: Link, body: Body) {
    !body(m, e).Done? || !body(m, e).graph.Has(e)
  }

  ghost predicate SafeBreaks(m: Graph, e: Link, body: Body)
    requires m.Has(e)
  {
    !body(m, e).Done? || !body(m, e).graph.Has(m.next[e])
  }

  lemma {:induction false} AlongCourse(g: Graph, b: Link, body: Body, steps: nat, gs: seq<Graph>,
                                       c: seq<Link>, i: nat)
    requires Course(g, b, body, gs, c) && i < |c| && i <= steps
    ensures Foreach(g, b, body, steps) == ForeachFrom(gs[i], b, c[i], body, steps - i, c[..i])
  {
    if i > 0 {
      AlongCourse(g, b, body, steps, gs, c, i - 1);
      assert c[..i - 1] + [c[i - 1]] == c[..i];
      assert Turn(b, body, gs[i - 1], c[i - 1], gs[i], c[i]);
    }
  }

  /** How a FOREACH ends is decided where its course ends: at its own head, at a turn that goes
      wrong, or when its steps are used up. */
  lemma CourseDecides(g: Graph, b: Link, body: Body, steps: nat, gs: seq<Graph>, c: seq<Link>)
    requires Course(g, b, body, gs, c) && |c| - 1 <= steps
    ensures var n := |c| - 1; var r := Foreach(g, b, body, steps);
      && (c[n] == b ==> r == Ended(gs[n], c[..n]))
      && (c[n] != b && n == steps ==> r == Running)
      && (c[n] != b && n < steps && Breaks(gs[n], c[n], body) ==> r == Failed)
  {
    AlongCourse(g, b, body, steps, gs, c, |c| - 1);
  }

  /** Every FOREACH has such a course. */
  lemma {:induction false} CourseExists(g: Graph, b: Link, body: Body, steps: nat, gs: seq<Graph>,
                                        c: seq<Link>) returns (all: seq<Graph>, cs: seq<Link>)
    requires Course(g, b, body, gs, c) && |c| - 1 <= steps
    ensures Course(g, b, body, all, cs) && |cs| - 1 <= steps
    ensures var n := |cs| - 1;
      cs[n] == b || n == steps || Breaks(all[n], cs[n], body)
    decreases steps - |c|
  {
    var n := |c| - 1;
    if c[n] == b || n == steps || Breaks(gs[n], c[n], body) {
      all, cs := gs, c;
    } else {
      var g' := body(gs[n], c[n]).graph;
      CourseGrows(g, b, body, gs, c, g', g'.next[c[n]]);
      all, cs := CourseExists(g, b, body, steps, gs + [g'], c + [g'.next[c[n]]]);
    }
  }

  /** A FOREACH fails before its first turn, or is decided by its course. */
  lemma ForeachCourse(g: Graph, b: Link, body: Body, steps: nat)
    returns (gs: seq<Graph>, c: seq<Link>)
    ensures g.Has(b) ==>
      && Course(g, b, body, gs, c) && |c| - 1 <= steps
      && (c[|c| - 1] == b || |c| - 1 == steps || Breaks(gs[|c| - 1], c[|c| - 1], body))
    ensures !g.Has(b) ==> Foreach(g, b, body, steps) == Failed
  {
    if g.Has(b) {
      gs, c := CourseExists(g, b, body, steps, [g], [g.next[b]]);
    } else {
      gs, c := [], [];
    }
  }

  lemma {:induction false} AlongSafeCourse(g: Graph, b: Link, body: Body, steps: nat, gs: seq<Graph>,
                                           c: seq<Link>, i: nat)
    requires SafeCourse(g, b, body, gs, c) && i < |c| && i <= steps
    ensures gs[i].Has(c[i])
    ensures ForeachSafe(g, b, body, steps)
         == SafeFrom(gs[i], b, c[i], gs[i].next[c[i]], body, steps - i, c[..i])
  {
    if i > 0 {
      AlongSafeCourse(g, b, body, steps, gs, c, i - 1);
      assert c[..i - 1] + [c[i - 1]] == c[..i];
      assert SafeTurn(b, body, gs[i - 1], c[i - 1], gs[i], c[i]);
    }
  }

  lemma SafeCourseDecides(g: Graph, b: Link, body: Body, steps: nat, gs: seq<Graph>, c: seq<Link>)
    requires SafeCourse(g, b, body, gs, c) && |c| - 1 <= steps
    ensures gs[|c| - 1].Has(c[|c| - 1])
    ensures var n := |c| - 1; var r := ForeachSafe(g, b, body, steps);
      && (c[n] == b ==> r == Ended(gs[n], c[..n]))
      && (c[n] != b && n == steps ==> r == Running)
      && (c[n] != b && n < steps && SafeBreaks(gs[n], c[n], body) ==> r == Failed)
  {
    AlongSafeCourse(g, b, body, steps, gs, c, |c| - 1);
  }

  lemma {:induction false} SafeCourseExists(g: Graph, b: Link, body: Body, steps: nat, gs: seq<Graph>,
                                            c: seq<Link>) returns (all: seq<Graph>, cs: seq<Link>)
    requires SafeCourse(g, b, body, gs, c) && |c| - 1 <= steps
    ensures SafeCourse(g, b, body, all, cs) && |cs| - 1 <= steps
    ensures var n := |cs| - 1;
      all[n].Has(cs[n]) && (cs[n] == b || n == steps || SafeBreaks(all[n], cs[n], body))
    decreases steps - |c|
  {
    var n := |c| - 1;
    SafeCourseHas(g, b, body, gs, c, n);
    if c[n] == b || n == steps || SafeBreaks(gs[n], c[n], body) {
      all, cs := gs, c;
    } else {
      var g' := body(gs[n], c[n]).graph;
      SafeCourseGrows(g, b, body, gs, c, g', gs[n].next[c[n]]);
      all, cs := SafeCourseExists(g, b, body, steps, gs + [g'], c + [gs[n].next[c[n]]]);
    }
  }

  lemma ForeachSafeCourse(g: Graph, b: Link, body: Body, steps: nat)
    returns (gs: seq<Graph>, c: seq<Link>)
    ensures g.Has(b) && g.Has(g.next[b]) ==>
      && SafeCourse(g, b, body, gs, c) && |c| - 1 <= steps
      && gs[|c| - 1].Has(c[|c| - 1])
      && (c[|c| - 1] == b || |c| - 1 == steps || SafeBreaks(gs[|c| - 1], c[|c| - 1], body))
    ensures !(g.Has(b) && g.Has(g.next[b])) ==> ForeachSafe(g, b, body, steps) == Failed
  {
    if g.Has(b) && g.Has(g.next[b]) {
      gs, c := SafeCourseExists(g, b, body, steps, [g], [g.next[b]]);
    } else {
      gs, c := [], [];
    }
  }

  // ----- exactly when all is visited -----

  /** The body run on one element after the other, wherever the links lead meanwhile. */
  function Each(g: Graph, todo: seq<Link>, body: Body): Outcome
    decreases |todo|
  {
    if todo == [] then Done(g) else
      match body(g, todo[0])
      case Done(g') => Each(g', todo[1..], body)
      case bad => bad
  }

  /** After each turn NEXT of the element just visited is still what followed it. */
  ghost predicate LeadsOn(g: Graph, b: Link, todo: seq<Link>, body: Body)
    decreases |todo|
  {
    todo == [] || (
      var r := body(g, todo[0]);
      && r.Done? && r.graph.Has(todo[0]) && r.graph.next[todo[0]] == (todo + [b])[1]
      && LeadsOn(r.graph, b, todo[1..], body))
  }

  /** Before each turn NEXT of the element about to be visited is still what followed it. */
  ghost predicate Undisturbed(g: Graph, b: Link, todo: seq<Link>, body: Body)
    decreases |todo|
  {
    && g.Has((todo + [b])[0])
    && (todo == [] || (
          && g.next[todo[0]] == (todo + [b])[1]
          && body(g, todo[0]).Done?
          && Undisturbed(body(g, todo[0]).graph, b, todo[1..], body)))
  }

  lemma {:induction false} ForeachGrows(g: Graph, b: Link, ep: Link, body: Body, steps: nat,
                                        visited: seq<Link>)
    ensures var r := ForeachFrom(g, b, ep, body, steps, visited);
      r.Ended? ==> visited <= r.visited && (ep != b ==> visited + [ep] <= r.visited)
    decreases steps
  {
    if ep != b && steps > 0 {
      match body(g, ep)
      case Done(g') =>
        if g'.Has(ep) { ForeachGrows(g', b, g'.next[ep], body, steps - 1, visited + [ep]); }
      case _ =>
    }
  }

  lemma {:induction false} SafeGrows(g: Graph, b: Link, ep1: Link, ep2: Link, body: Body, steps: nat,
                                     visited: seq<Link>)
    ensures var r := SafeFrom(g, b, ep1, ep2, body, steps, visited);
      r.Ended? ==> visited <= r.visited && (ep1 != b ==> visited + [ep1] <= r.visited)
    decreases steps
  {
    if ep1 != b && steps > 0 {
      match body(g, ep1)
      case Done(g') =>
        if g'.Has(ep2) { SafeGrows(g', b, ep2, g'.next[ep2], body, steps - 1, visited + [ep1]); }
      case _ =>
    }
  }

  lemma {:induction false} ForeachFromExact(g: Graph, b: Link, ep: Link, body: Body, steps: nat,
                                            visited: seq<Link>, todo: seq<Link>)
    requires b !in todo && |todo| <= steps
    ensures var r := ForeachFrom(g, b, ep, body, steps, visited);
      (r.Ended? && r.visited == visited + todo)
      <==> ep == (todo + [b])[0] && LeadsOn(g, b, todo, body)
    ensures var r := ForeachFrom(g, b, ep, body, steps, visited);
      r.Ended? && r.visited == visited + todo ==> Each(g, todo, body) == Done(r.graph)
    decreases |todo|
  {
    ForeachGrows(g, b, ep, body, steps, visited);
    if todo != [] && ep == todo[0] {
      assert visited + todo == (visited + [ep]) + todo[1..];
      match body(g, ep)
      case Done(g') =>
        if g'.Has(ep) {
          ForeachFromExact(g', b, g'.next[ep], body, steps - 1, visited + [ep], todo[1..]);
          assert (todo + [b])[1] == (todo[1..] + [b])[0];
        }
      case _ =>
    } else if todo != [] {
      assert ep != b ==> (visited + [ep])[|visited|] != (visited + todo)[|visited|];
    }
  }

  lemma {:induction false} SafeFromExact(g: Graph, b: Link, ep1: Link, body: Body, steps: nat,
                                         visited: seq<Link>, todo: seq<Link>)
    requires b !in todo && |todo| <= steps && g.Has(ep1)
    ensures var r := SafeFrom(g, b, ep1, g.next[ep1], body, steps, visited);
      (r.Ended? && r.visited == visited + todo)
      <==> ep1 == (todo + [b])[0] && Undisturbed(g, b, todo, body)
    ensures var r := SafeFrom(g, b, ep1, g.next[ep1], body, steps, visited);
      r.Ended? && r.visited == visited + todo ==> Each(g, todo, body) == Done(r.graph)
    decreases |todo|
  {
    var ep2 := g.next[ep1];
    SafeGrows(g, b, ep1, ep2, body, steps, visited);
    if todo != [] && ep1 == todo[0] {
      assert visited + todo == (visited + [ep1]) + todo[1..];
      assert (todo + [b])[1] == (todo[1..] + [b])[0];
      match body(g, ep1)
      case Done(g') =>
        if g'.Has(ep2) {
          SafeFromExact(g', b, ep2, body, steps - 1, visited + [ep1], todo[1..]);
        }
      case _ =>
    } else if todo != [] {
      assert ep1 != b ==> (visited + [ep1])[|visited|] != (visited + todo)[|visited|];
    }
  }

  /** FOREACH ends having visited exactly the elements of the ring, in order, if and only if the
      body never changes NEXT of the element it is given.  The memory is then what the body leaves
      when it is run on each of them in turn. */
  lemma ForeachExact(g: Graph, b: Link, s: seq<Link>, body: Body, steps: nat)
    requires IsRing(g, b, s) && |s| <= steps
    ensures var r := Foreach(g, b, body, steps);
      (r.Ended? && r.visited == s) <==> LeadsOn(g, b, s, body)
    ensures LeadsOn(g, b, s, body) ==>
      Each(g, s, body).Done? && Foreach(g, b, body, steps) == Ended(Each(g, s, body).graph, s)
  {
    HeadEnds(g, b, s);
    ForeachFromExact(g, b, g.next[b], body, steps, [], s);
    assert [] + s == s;
  }

  /** FOREACH_SAFE does if and only if no turn changes or frees NEXT of the element that comes
      next; what the body does to the current one does not matter.  The same holds of the memory. */
  lemma ForeachSafeExact(g: Graph, b: Link, s: seq<Link>, body: Body, steps: nat)
    requires IsRing(g, b, s) && |s| <= steps
    ensures var r := ForeachSafe(g, b, body, steps);
      (r.Ended? && r.visited == s) <==> Undisturbed(g, b, s, body)
    ensures Undisturbed(g, b, s, body) ==>
      Each(g, s, body).Done? && ForeachSafe(g, b, body, steps) == Ended(Each(g, s, body).graph, s)
  {
    HeadEnds(g, b, s);
    assert ([b] + s)[0] == b;
    CycleNeighbours(g, [b] + s, b);
    SafeFromExact(g, b, g.next[b], body, steps, [], s);
    assert [] + s == s;
  }

  // ----- bodies made of brigade operations -----

  function Runs(body: Link -> seq<Op>): Body {
    (g: Graph, e: Link) => Run(g, body(e))
  }

  /** A tame body meets the condition of FOREACH_SAFE. */
  lemma {:induction false} TameIsUndisturbed(g: Graph, w: World, b: Link, todo: seq<Link>,
                                             body: Link -> seq<Op>)
    requires Inv(g, w) && WellFormed(w) && b in w.rings && EndsWith(w.rings[b], todo)
    requires Tame(w, b, todo, body)
    ensures Undisturbed(g, b, todo, Runs(body))
    decreases |todo|
  {
    hide Inv, WellFormed, Legal, ApplyAll, Run, EndsWith;
    CursorAt(g, w, b, todo);
    if todo != [] {
      TameStep(w, b, todo, body);
      RunKeeps(g, w, body(todo[0]));
      TameIsUndisturbed(Run(g, body(todo[0])).graph, ApplyAll(w, body(todo[0])), b, todo[1..], body);
    }
  }

  /** Running such a body on each element is one long run. */
  lemma {:induction false} EachIsRun(g: Graph, todo: seq<Link>, body: Link -> seq<Op>)
    ensures Each(g, todo, Runs(body)) == Run(g, Flat(todo, body))
    decreases |todo|
  {
    hide Run;
    if todo == [] {
      FlatNothing(body, g);
    } else {
      RunConcat(g, body(todo[0]), Flat(todo[1..], body));
      if Run(g, body(todo[0])).Done? { EachIsRun(Run(g, body(todo[0])).graph, todo[1..], body); }
    }
  }

  /** So FOREACH_SAFE with a tame body visits what the brigade held and leaves the memory that all
      its operations leave, one after the other. */
  lemma TameForeachSafe(g: Graph, w: World, b: Link, body: Link -> seq<Op>, steps: nat)
    requires Inv(g, w) && WellFormed(w) && b in w.rings && |w.rings[b]| <= steps
    requires Tame(w, b, w.rings[b], body)
    ensures Run(g, Flat(w.rings[b], body)).Done?
    ensures ForeachSafe(g, b, Runs(body), steps)
         == Ended(Run(g, Flat(w.rings[b], body)).graph, w.rings[b])
  {
    WholeEnds(w.rings[b]);
    TameIsUndisturbed(g, w, b, w.rings[b], body);
    InvRing(g, w, b);
    ForeachSafeExact(g, b, w.rings[b], Runs(body), steps);
    EachIsRun(g, w.rings[b], body);
  }

  /** A body that deletes the bucket after the one it is given does not meet the condition: the loop reads NEXT of
      freed memory. */
  lemma DeletingNextFails(g: Graph, w: World, b: Link, body: Body, steps: nat)
    requires Inv(g, w) && b in w.rings && |w.rings[b]| > 1 && steps > 0
    requires body(g, w.rings[b][0]) == Exec(g, Delete(w.rings[b][1]))
    ensures ForeachSafe(g, b, body, steps) == Failed
  {
    var s := w.rings[b];
    HeadEnds(g, b, s);
    CursorAt(g, w, b, s);
    BucketIsNoHead(w, b, s[1]);
    ExecDelete(g, w, s[1]);
  }

  lemma {:induction false} IdleIsUndisturbed(g: Graph, b: Link, todo: seq<Link>, body: Body)
    requires g.Has(b)
    requires forall k :: 0 <= k < |todo| ==>
      && g.Has(todo[k]) && g.next[todo[k]] == (todo + [b])[k + 1] && body(g, todo[k]) == Done(g)
    ensures Undisturbed(g, b, todo, body)
    decreases |todo|
  {
    if todo != [] {
      assert forall k :: 0 <= k < |todo[1..]| ==>
        todo[1..][k] == todo[k + 1] && (todo[1..] + [b])[k + 1] == (todo + [b])[k + 2];
      IdleIsUndisturbed(g, b, todo[1..], body);
    }
  }

  /** A body that only removes the bucket after the one it is given does meet it: that bucket
      keeps its links, so the loop visits it although it is no longer in the brigade. */
  lemma RemovedNextIsVisited(g: Graph, w: World, b: Link, body: Body, steps: nat)
    requires Inv(g, w) && b in w.rings && 1 < |w.rings[b]| <= steps
    requires body(g, w.rings[b][0]) == Exec(g, Remove(w.rings[b][1])) && body(g, w.rings[b][0]).Done?
    requires forall e :: e in w.rings[b][1..] ==>
      body(body(g, w.rings[b][0]).graph, e) == body(g, w.rings[b][0])
    ensures var r := ForeachSafe(g, b, body, steps); r.Ended? && r.visited == w.rings[b]
  {
    var s := w.rings[b];
    var g' := Unsplice(g, s[1], s[1]);
    HeadEnds(g, b, s);
    NextsKept(g, b, s);
    forall k | 0 <= k < |s[1..]| ensures body(g', s[1..][k]) == Done(g') { assert s[1..][k] in s[1..]; }
    IdleIsUndisturbed(g', b, s[1..], body);
    RingAt(g, b, s, 0);
    ForeachSafeExact(g, b, s, body, steps);
  }

  lemma NextsKept(g: Graph, b: Link, s: seq<Link>)
    requires IsRing(g, b, s) && |s| > 1
    ensures UnspliceOk(g, s[1], s[1])
    ensures var g' := Unsplice(g, s[1], s[1]);
      && g'.Has(b)
      && forall k :: 0 <= k < |s[1..]| ==>
           g'.Has(s[1..][k]) && g'.next[s[1..][k]] == (s[1..] + [b])[k + 1]
  {
    RingAt(g, b, s, 1);
    RemoveRing(g, b, s, 1);
    HeadEnds(g, b, s);
    forall k | 0 <= k < |s[1..]|
      ensures g.Has(s[1..][k]) && g.next[s[1..][k]] == (s[1..] + [b])[k + 1] && s[1..][k] != s[0]
    {
      RingAt(g, b, s, k + 1);
    }
  }

  // ----- why the plain FOREACH will not do -----

  /** After such a move the current bucket leads to the head of the other brigade, so a loop that
      goes on from NEXT of the current bucket has left the brigade it was walking. */
  lemma MoveDerailsForeach(g: Graph, w: World, b: Link, d: Link)
    requires Inv(g, w) && b in w.rings && d in w.rings && b != d && w.rings[b] != []
    ensures var e := w.rings[b][0]; var r := Run(g, MoveTo(d)(e));
      r.Done? && r.graph.Has(e) && r.graph.next[e] == d && IsRing(r.graph, d, w.rings[d] + [e])
  {
    var e := w.rings[b][0];
    HeadEnds(g, b, w.rings[b]);
    MoveFirstBucket(w, b, d);
    RunKeeps(g, w, MoveTo(d)(e));
    var r, w' := Run(g, MoveTo(d)(e)), ApplyAll(w, MoveTo(d)(e));
    assert w'.rings[d] == w.rings[d] + [e];
    var c := [d] + w'.rings[d];
    assert Last(c) == e && e in c;
    assert IsRing(r.graph, d, w'.rings[d]);
    CycleNeighbours(r.graph, c, e);
  }

  /** The same operations on the head of the other brigade itself. */
  lemma SentinelMove(g: Graph, d: Link, t: seq<Link>)
    requires IsRing(g, d, t)
    ensures Run(g, MoveTo(d)(d)).Done? && Run(g, MoveTo(d)(d)).graph.SelfLinked(d)
  {
    assert ([d] + t)[0] == d;
    CycleNeighbours(g, [d] + t, d);
    TwoRun(g, Remove(d), InsertTail(d, d));
  }

  lemma SentinelMoveAgain(g: Graph, d: Link)
    requires g.SelfLinked(d)
    ensures Run(g, MoveTo(d)(d)) == Done(g)
  {
    TwoRun(g, Remove(d), InsertTail(d, d));
  }

  lemma {:induction false} StuckAt(g: Graph, b: Link, d: Link, steps: nat, visited: seq<Link>)
    requires g.SelfLinked(d) && b != d
    ensures ForeachFrom(g, b, d, Runs(MoveTo(d)), steps, visited) == Running
    decreases steps
  {
    if steps > 0 {
      SentinelMoveAgain(g, d);
      StuckAt(g, b, d, steps - 1, visited + [d]);
    }
  }

  /** FOREACH with a body that moves the current bucket to another brigade goes from the first
      bucket to the head of that brigade, moves it in its turn, and stays there for ever. */
  lemma MovingForeachNeverEnds(g: Graph, w: World, b: Link, d: Link, steps: nat)
    requires Inv(g, w) && b in w.rings && d in w.rings && b != d && w.rings[b] != []
    ensures Foreach(g, b, Runs(MoveTo(d)), steps) == Running
  {
    var e := w.rings[b][0];
    AccessorsExact(g, w, b);
    BucketIsNoHead(w, b, e);
    if steps > 0 {
      MoveDerailsForeach(g, w, b, d);
      var g1 := Run(g, MoveTo(d)(e)).graph;
      if steps > 1 {
        SentinelMove(g1, d, w.rings[d] + [e]);
        StuckAt(Run(g1, MoveTo(d)(d)).graph, b, d, steps - 2, [] + [e] + [d]);
      }
      assert ForeachFrom(g1, b, d, Runs(MoveTo(d)), steps - 1, [] + [e]) == Running;
    }
  }
}
