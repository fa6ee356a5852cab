/** Hooks: a list of registered callbacks run over a state, under three stopping rules, with a
    probe before and after every call.

    A callback is a function from the state it is called in to the state it leaves and the value
    it returns; the arguments, the same in every call of a run, are part of it. */
module Hooks {
  import opened Basics

  /** One registered hook: the link structure that registration fills in. */
  datatype Hook<!S, +R> = Hook(
    pFunc: S -> (S, R),
    szName: string,
    predecessors: seq<string>,
    successors: seq<string>,
    order: int)

  datatype Probe<+R> =
    | Entry
    | Invoke(src: string)
    | Complete(src: string, rv: R)
    | Return(rv: R)

  // ----- what a run does -----

  /** The state after the first `n` hooks have been called, and what hook `i` returns. */
  function StateAt<S, R>(hooks: seq<Hook<S, R>>, s: S, n: nat): S
    requires n <= |hooks|
  {
    if n == 0 then s else hooks[n - 1].pFunc(StateAt(hooks, s, n - 1)).0
  }

  function ResultAt<S, R>(hooks: seq<Hook<S, R>>, s: S, i: nat): R
    requires i < |hooks|
  {
    hooks[i].pFunc(StateAt(hooks, s, i)).1
  }

  /** The first hook, from `i` on, whose result is not among `passes`; `|hooks|` if none. */
  function Stop<S, R(==)>(hooks: seq<Hook<S, R>>, s: S, passes: set<R>, i: nat): (k: nat)
    requires i <= |hooks|
    ensures i <= k <= |hooks|
    ensures k < |hooks| ==> ResultAt(hooks, s, k) !in passes
    ensures forall j :: i <= j < k ==> ResultAt(hooks, s, j) in passes
    decreases |hooks| - i
  {
    if i == |hooks| || ResultAt(hooks, s, i) !in passes then i else Stop(hooks, s, passes, i + 1)
  }

  /** How many hooks a run calls: all up to and including the one that stops it. */
  function Calls<S, R(==)>(hooks: seq<Hook<S, R>>, s: S, passes: set<R>): (n: nat)
    ensures n <= |hooks|
  {
    var k := Stop(hooks, s, passes, 0);
    if k < |hooks| then k + 1 else k
  }

  /** What a run returns: the value that stopped it, or `otherwise`. */
  function Value<S, R(==)>(hooks: seq<Hook<S, R>>, s: S, passes: set<R>, otherwise: R): R {
    var k := Stop(hooks, s, passes, 0);
    if k < |hooks| then ResultAt(hooks, s, k) else otherwise
  }

  /** The probes around the first `n` calls. */
  function CallProbes<S, R>(hooks: seq<Hook<S, R>>, s: S, n: nat): seq<Probe<R>>
    requires n <= |hooks|
  {
    if n == 0 then [] else
      CallProbes(hooks, s, n - 1)
      + [Invoke(hooks[n - 1].szName), Complete(hooks[n - 1].szName, ResultAt(hooks, s, n - 1))]
  }

  /** The probes of a VOID run, in which every value is 0. */
  function VoidProbes<S, R>(hooks: seq<Hook<S, R>>, zero: R, n: nat): seq<Probe<R>>
    requires n <= |hooks|
  {
    if n == 0 then [] else
      VoidProbes(hooks, zero, n - 1)
      + [Invoke(hooks[n - 1].szName), Complete(hooks[n - 1].szName, zero)]
  }

  /** One call as an observer sees it: who was called, in which state, and what came back. */
  datatype Call<+S, +R> = Call(szName: string, before: S, after: S, rv: R)

  function Trace<S, R>(hooks: seq<Hook<S, R>>, s: S, n: nat): (t: seq<Call<S, R>>)
    requires n <= |hooks|
    ensures |t| == n
  {
    if n == 0 then [] else
      Trace(hooks, s, n - 1)
      + [Call(hooks[n - 1].szName, StateAt(hooks, s, n - 1), StateAt(hooks, s, n), ResultAt(hooks, s, n - 1))]
  }

  // ----- what a run is, seen from the calls alone -----

  /** The calls are calls of the first of the hooks, in order: the first one in the state `s`,
      every other in the state the one before it left; `state` is what the last one left. */
  ghost predicate InTurn<S, R>(hooks: seq<Hook<S, R>>, s: S, calls: seq<Call<S, R>>, state: S) {
    && |calls| <= |hooks|
    && (forall i :: 0 <= i < |calls| ==>
          && calls[i].szName == hooks[i].szName
          && hooks[i].pFunc(calls[i].before) == (calls[i].after, calls[i].rv))
    && (forall i, j :: 0 <= i && j == i + 1 && j < |calls| ==> calls[j].before == calls[i].after)
    && (if calls == [] then state == s else s == calls[0].before && state == Last(calls).after)
  }

  /** The calls go on while results pass, and no further. */
  ghost predicate StopInTime<S, R>(hooks: seq<Hook<S, R>>, calls: seq<Call<S, R>>, passes: set<R>) {
    && (forall i :: 0 <= i < |calls| - 1 ==> calls[i].rv in passes)
    && (|calls| < |hooks| ==> calls != [] && Last(calls).rv !in passes)
  }

  /** What such calls return. */
  ghost function Returned<S, R>(calls: seq<Call<S, R>>, passes: set<R>, otherwise: R): R {
    if calls != [] && Last(calls).rv !in passes then Last(calls).rv else otherwise
  }

  lemma OneMoreInTurn<S, R>(hooks: seq<Hook<S, R>>, s: S, calls: seq<Call<S, R>>, state: S, c: Call<S, R>)
    requires InTurn(hooks, s, calls, state) && |calls| < |hooks|
    requires c.szName == hooks[|calls|].szName && c.before == state
    requires hooks[|calls|].pFunc(state) == (c.after, c.rv)
    ensures InTurn(hooks, s, calls + [c], c.after)
  {
    assert Last(calls + [c]) == c;
  }

  lemma OneLessInTurn<S, R>(hooks: seq<Hook<S, R>>, s: S, calls: seq<Call<S, R>>, state: S)
    requires InTurn(hooks, s, calls, state) && calls != []
    ensures InTurn(hooks, s, calls[..|calls| - 1], Last(calls).before)
  {
    var fewer := calls[..|calls| - 1];
    if fewer != [] { assert Last(fewer) == calls[|calls| - 2]; }
  }

  lemma {:induction false} TraceInTurn<S, R>(hooks: seq<Hook<S, R>>, s: S, n: nat)
    requires n <= |hooks|
    ensures InTurn(hooks, s, Trace(hooks, s, n), StateAt(hooks, s, n))
  {
    if n > 0 {
      TraceInTurn(hooks, s, n - 1);
      var c := Trace(hooks, s, n)[n - 1];
      OneMoreInTurn(hooks, s, Trace(hooks, s, n - 1), StateAt(hooks, s, n - 1), c);
    }
  }

  lemma {:induction false} InTurnIsTrace<S, R>(hooks: seq<Hook<S, R>>, s: S,
                                               calls: seq<Call<S, R>>, state: S)
    requires InTurn(hooks, s, calls, state)
    ensures calls == Trace(hooks, s, |calls|) && state == StateAt(hooks, s, |calls|)
    decreases |calls|
  {
    if calls != [] {
      var n := |calls| - 1;
      OneLessInTurn(hooks, s, calls, state);
      InTurnIsTrace(hooks, s, calls[..n], calls[n].before);
    }
  }

  lemma {:induction false} TraceAt<S, R>(hooks: seq<Hook<S, R>>, s: S, n: nat, i: nat)
    requires i < n <= |hooks|
    ensures Trace(hooks, s, n)[i].rv == ResultAt(hooks, s, i)
  {
    if i < n - 1 { TraceAt(hooks, s, n - 1, i); }
  }

  /** There is exactly one run for every stopping rule. */
  lemma RunExact<S, R>(hooks: seq<Hook<S, R>>, s: S, passes: set<R>, otherwise: R,
                       calls: seq<Call<S, R>>, state: S)
    ensures InTurn(hooks, s, calls, state) && StopInTime(hooks, calls, passes)
       <==> && calls == Trace(hooks, s, Calls(hooks, s, passes))
            && state == StateAt(hooks, s, Calls(hooks, s, passes))
    ensures InTurn(hooks, s, calls, state) && StopInTime(hooks, calls, passes)
        ==> Value(hooks, s, passes, otherwise) == Returned(calls, passes, otherwise)
  {
    var n := Calls(hooks, s, passes);
    TraceInTurn(hooks, s, n);
    forall i | 0 <= i < n ensures Trace(hooks, s, n)[i].rv == ResultAt(hooks, s, i) {
      TraceAt(hooks, s, n, i);
    }
    if InTurn(hooks, s, calls, state) && StopInTime(hooks, calls, passes) {
      InTurnIsTrace(hooks, s, calls, state);
      forall i | 0 <= i < |calls| ensures calls[i].rv == ResultAt(hooks, s, i) {
        TraceAt(hooks, s, |calls|, i);
      }
    }
  }

  // ----- one call of a runner -----

  lemma NoCall<S, R>(hooks: seq<Hook<S, R>>, s: S, passes: set<R>)
    ensures StateAt(hooks, s, 0) == s && Trace(hooks, s, 0) == [] && CallProbes(hooks, s, 0) == []
    ensures Stop(hooks, s, passes, |hooks|) == |hooks|
  {
  }

  lemma OneCall<S, R>(hooks: seq<Hook<S, R>>, s: S, passes: set<R>, n: nat)
    requires n < |hooks|
    ensures var h := hooks[n]; var before := StateAt(hooks, s, n); var r := h.pFunc(before);
      && StateAt(hooks, s, n + 1) == r.0 && ResultAt(hooks, s, n) == r.1
      && Trace(hooks, s, n + 1) == Trace(hooks, s, n) + [Call(h.szName, before, r.0, r.1)]
      && CallProbes(hooks, s, n + 1)
      == CallProbes(hooks, s, n) + [Invoke(h.szName), Complete(h.szName, r.1)]
      && Stop(hooks, s, passes, n) == if r.1 in passes then Stop(hooks, s, passes, n + 1) else n
  {
  }

  // ----- the registered hooks and the runners -----

  class HookPoint<!S, R(==)> {
    /** `None` until the first registration. */
    var link: Option<seq<Hook<S, R>>>

    constructor ()
      ensures link == None
    {
      link := None;
    }

    function Registered(): seq<Hook<S, R>>
      reads this
    {
      if link.None? then [] else link.value
    }

    method Register(pf: S -> (S, R), pre: seq<string>, succ: seq<string>, order: int, current: string)
      modifies this
      ensures link.Some?
      ensures Registered() == old(Registered()) + [Hook(pf, current, pre, succ, order)]
    {
      if link.None? {
        link := Some([]);
      }
      link := Some(link.value + [Hook(pf, current, pre, succ, order)]);
    }

    /** VOID: every hook is called, whatever the hooks return. */
    method RunVoid(s: S, zero: R) returns (state: S, probes: seq<Probe<R>>, calls: seq<Call<S, R>>)
      ensures |calls| == |Registered()| && InTurn(Registered(), s, calls, state)
      ensures calls == Trace(Registered(), s, |Registered()|)
      ensures state == StateAt(Registered(), s, |Registered()|)
      ensures probes == [Entry] + VoidProbes(Registered(), zero, |Registered()|) + [Return(zero)]
    {
      hide InTurn;
      state, calls, probes := s, [], [Entry];
      if link.Some? {
        var pHook := link.value;
        var n := 0;
        while n < |pHook|
          invariant n <= |pHook|
          invariant state == StateAt(pHook, s, n) && calls == Trace(pHook, s, n)
          invariant probes == [Entry] + VoidProbes(pHook, zero, n)
        {
          var before := state;
          probes := probes + [Invoke(pHook[n].szName)];
          var r := pHook[n].pFunc(state);
          state := r.0;
          probes := probes + [Complete(pHook[n].szName, zero)];
          calls := calls + [Call(pHook[n].szName, before, state, r.1)];
          n := n + 1;
          assert probes == [Entry] + VoidProbes(pHook, zero, n);
        }
      }
      probes := probes + [Return(zero)];
      TraceInTurn(Registered(), s, |Registered()|);
    }

    /** RUN_ALL: until a hook returns something other than `ok` and `decline`. */
    method RunAll(s: S, ok: R, decline: R)
      returns (rv: R, state: S, probes: seq<Probe<R>>, calls: seq<Call<S, R>>)
      ensures InTurn(Registered(), s, calls, state) && StopInTime(Registered(), calls, {ok, decline})
      ensures rv == Returned(calls, {ok, decline}, ok) == Value(Registered(), s, {ok, decline}, ok)
      ensures var n := Calls(Registered(), s, {ok, decline});
        && state == StateAt(Registered(), s, n)
        && calls == Trace(Registered(), s, n)
        && probes == [Entry] + CallProbes(Registered(), s, n) + [Return(rv)]
    {
      hide InTurn, StopInTime, Returned, StateAt, ResultAt, Trace, CallProbes, Stop;
      NoCall(Registered(), s, {ok, decline});
      rv, state, calls, probes := ok, s, [], [Entry];
      if link.Some? {
        var pHook := link.value;
        var n := 0;
        while n < |pHook|
          invariant n <= |pHook| && rv == ok
          invariant Stop(pHook, s, {ok, decline}, n) == Stop(pHook, s, {ok, decline}, 0)
          invariant state == StateAt(pHook, s, n) && calls == Trace(pHook, s, n)
          invariant probes == [Entry] + CallProbes(pHook, s, n)
        {
          OneCall(pHook, s, {ok, decline}, n);
          var before := state;
          probes := probes + [Invoke(pHook[n].szName)];
          var r := pHook[n].pFunc(state);
          state, rv := r.0, r.1;
          probes := probes + [Complete(pHook[n].szName, rv)];
          calls := calls + [Call(pHook[n].szName, before, state, rv)];
          n := n + 1;
          assert probes == [Entry] + CallProbes(pHook, s, n);
          if rv != ok && rv != decline { break; }
          rv := ok;
        }
      }
      probes := probes + [Return(rv)];
      RunExact(Registered(), s, {ok, decline}, ok, calls, state);
    }

    /** RUN_FIRST: until a hook returns something other than `decline`. */
    method RunFirst(s: S, decline: R)
      returns (rv: R, state: S, probes: seq<Probe<R>>, calls: seq<Call<S, R>>)
      ensures InTurn(Registered(), s, calls, state) && StopInTime(Registered(), calls, {decline})
      ensures rv == Returned(calls, {decline}, decline) == Value(Registered(), s, {decline}, decline)
      ensures var n := Calls(Registered(), s, {decline});
        && state == StateAt(Registered(), s, n)
        && calls == Trace(Registered(), s, n)
        && probes == [Entry] + CallProbes(Registered(), s, n) + [Return(rv)]
    {
      hide InTurn, StopInTime, Returned, StateAt, ResultAt, Trace, CallProbes, Stop;
      NoCall(Registered(), s, {decline});
      rv, state, calls, probes := decline, s, [], [Entry];
      if link.Some? {
        var pHook := link.value;
        var n := 0;
        while n < |pHook|
          invariant n <= |pHook| && rv == decline
          invariant Stop(pHook, s, {decline}, n) == Stop(pHook, s, {decline}, 0)
          invariant state == StateAt(pHook, s, n) && calls == Trace(pHook, s, n)
          invariant probes == [Entry] + CallProbes(pHook, s, n)
        {
          OneCall(pHook, s, {decline}, n);
          var before := state;
          probes := probes + [Invoke(pHook[n].szName)];
          var r := pHook[n].pFunc(state);
          state, rv := r.0, r.1;
          probes := probes + [Complete(pHook[n].szName, rv)];
          calls := calls + [Call(pHook[n].szName, before, state, rv)];
          n := n + 1;
          assert probes == [Entry] + CallProbes(pHook, s, n);
          if rv != decline { break; }
        }
      }
      probes := probes + [Return(rv)];
      RunExact(Registered(), s, {decline}, decline, calls, state);
    }

    /** The RUN_ALL of an optional hook: early returns instead of `break`, no reset of `rv`, no
        probes.  It makes the same calls and returns the same value as RUN_ALL. */
    method RunAllOptional(s: S, ok: R, decline: R)
      returns (result: R, state: S, calls: seq<Call<S, R>>)
      ensures InTurn(Registered(), s, calls, state) && StopInTime(Registered(), calls, {ok, decline})
      ensures result == Returned(calls, {ok, decline}, ok) == Value(Registered(), s, {ok, decline}, ok)
      ensures var n := Calls(Registered(), s, {ok, decline});
        state == StateAt(Registered(), s, n) && calls == Trace(Registered(), s, n)
    {
      hide InTurn, StopInTime, Returned, StateAt, ResultAt, Trace, CallProbes, Stop;
      NoCall(Registered(), s, {ok, decline});
      state, calls := s, [];
      if link.None? {
        RunExact(Registered(), s, {ok, decline}, ok, calls, state);
        return ok, state, calls;
      }
      var pHook := link.value;
      var n := 0;
      while n < |pHook|
        invariant n <= |pHook|
        invariant Stop(pHook, s, {ok, decline}, n) == Stop(pHook, s, {ok, decline}, 0)
        invariant state == StateAt(pHook, s, n) && calls == Trace(pHook, s, n)
      {
        OneCall(pHook, s, {ok, decline}, n);
        var before := state;
        var r := pHook[n].pFunc(state);
        var rv := r.1;
        state := r.0;
        calls := calls + [Call(pHook[n].szName, before, state, rv)];
        n := n + 1;
        if rv != ok && rv != decline {
          RunExact(Registered(), s, {ok, decline}, ok, calls, state);
          return rv, state, calls;
        }
      }
      RunExact(Registered(), s, {ok, decline}, ok, calls, state);
      return ok, state, calls;
    }
  }
}
