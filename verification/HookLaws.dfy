/** Laws about hook runs: how the three stopping rules nest, what a returned value says about
    the hooks, what the probes look like, and what registering another hook can change. */
module HookLaws {
  import opened Basics
  import opened Hooks

  // ----- the calls of the three rules -----

  lemma {:induction false} TracePrefix<S, R>(hooks: seq<Hook<S, R>>, s: S, n: nat, m: nat)
    requires n <= m <= |hooks|
    ensures Trace(hooks, s, n) <= Trace(hooks, s, m)
  {
    if n < m {
      TracePrefix(hooks, s, n, m - 1);
    }
  }

  /** A rule that lets more values pass stops no earlier. */
  lemma StopMonotone<S, R>(hooks: seq<Hook<S, R>>, s: S, p: set<R>, q: set<R>, i: nat)
    requires p <= q && i <= |hooks|
    ensures Stop(hooks, s, p, i) <= Stop(hooks, s, q, i)
    decreases |hooks| - i
  {
  }

  /** RUN_FIRST's calls are a prefix of RUN_ALL's, which are a prefix of VOID's: the same hooks,
      in the same states, with the same results. */
  lemma RunsNest<S, R>(hooks: seq<Hook<S, R>>, s: S, ok: R, decline: R)
    ensures Trace(hooks, s, Calls(hooks, s, {decline})) <= Trace(hooks, s, Calls(hooks, s, {ok, decline}))
    ensures Trace(hooks, s, Calls(hooks, s, {ok, decline})) <= Trace(hooks, s, |hooks|)
  {
    StopMonotone(hooks, s, {decline}, {ok, decline}, 0);
    TracePrefix(hooks, s, Calls(hooks, s, {decline}), Calls(hooks, s, {ok, decline}));
    TracePrefix(hooks, s, Calls(hooks, s, {ok, decline}), |hooks|);
  }

  /** RUN_FIRST and RUN_ALL make the same calls unless RUN_FIRST is stopped by `ok` with hooks
      still to come; so they always do when `ok` and `decline` are the same value. */
  lemma SameCallsIff<S, R>(hooks: seq<Hook<S, R>>, s: S, ok: R, decline: R)
    ensures Calls(hooks, s, {decline}) == Calls(hooks, s, {ok, decline})
       <==> (var k := Stop(hooks, s, {decline}, 0);
             k + 1 >= |hooks| || ResultAt(hooks, s, k) != ok)
  {
  }

  lemma OkIsDecline<S, R>(hooks: seq<Hook<S, R>>, s: S, ok: R)
    ensures Calls(hooks, s, {ok}) == Calls(hooks, s, {ok, ok})
    ensures Value(hooks, s, {ok}, ok) == Value(hooks, s, {ok, ok}, ok)
  {
  }

  // ----- what the value says -----

  /** The last hook called is the only one whose result may stop the run, every hook before it
      passed, and a run that is not stopped called every hook. */
  lemma CallsExact<S, R>(hooks: seq<Hook<S, R>>, s: S, passes: set<R>, n: nat)
    requires n <= |hooks|
    ensures n == Calls(hooks, s, passes)
       <==> && (forall i :: 0 <= i < n - 1 ==> ResultAt(hooks, s, i) in passes)
            && (n < |hooks| ==> n > 0 && ResultAt(hooks, s, n - 1) !in passes)
  {
  }

  /** RUN_ALL returns `ok` exactly when every hook returned `ok` or `decline` (also when there
      is none), and never returns `decline` otherwise. */
  lemma AllReturnsOkIff<S, R>(hooks: seq<Hook<S, R>>, s: S, ok: R, decline: R)
    ensures Value(hooks, s, {ok, decline}, ok) == ok
       <==> forall i :: 0 <= i < |hooks| ==> ResultAt(hooks, s, i) in {ok, decline}
    ensures ok != decline ==> Value(hooks, s, {ok, decline}, ok) != decline
  {
  }

  /** RUN_FIRST returns `decline` exactly when every hook declined. */
  lemma FirstReturnsDeclineIff<S, R>(hooks: seq<Hook<S, R>>, s: S, decline: R)
    ensures Value(hooks, s, {decline}, decline) == decline
       <==> forall i :: 0 <= i < |hooks| ==> ResultAt(hooks, s, i) == decline
  {
  }

  // ----- probes -----

  /** One INVOKE and one COMPLETE per call made, in the order of the calls, with the name of the
      hook called and the value it returned. */
  lemma CallProbesAt<S, R>(hooks: seq<Hook<S, R>>, s: S, calls: seq<Call<S, R>>, state: S, i: nat)
    requires InTurn(hooks, s, calls, state) && i < |calls|
    ensures var p := CallProbes(hooks, s, |calls|);
      && |p| == 2 * |calls|
      && p[2 * i] == Invoke(calls[i].szName)
      && p[2 * i + 1] == Complete(calls[i].szName, calls[i].rv)
  {
    InTurnIsTrace(hooks, s, calls, state);
    TraceAt(hooks, s, |calls|, i);
    ProbesAt(hooks, s, |calls|, i);
  }

  lemma {:induction false} ProbesAt<S, R>(hooks: seq<Hook<S, R>>, s: S, n: nat, i: nat)
    requires i < n <= |hooks|
    ensures |CallProbes(hooks, s, n)| == 2 * n
    ensures CallProbes(hooks, s, n)[2 * i] == Invoke(hooks[i].szName)
    ensures CallProbes(hooks, s, n)[2 * i + 1] == Complete(hooks[i].szName, ResultAt(hooks, s, i))
  {
    CallProbesLength(hooks, s, n - 1);
    if i < n - 1 {
      ProbesAt(hooks, s, n - 1, i);
    }
  }

  lemma {:induction false} CallProbesLength<S, R>(hooks: seq<Hook<S, R>>, s: S, n: nat)
    requires n <= |hooks|
    ensures |CallProbes(hooks, s, n)| == 2 * n
  {
    if n > 0 { CallProbesLength(hooks, s, n - 1); }
  }

  lemma {:induction false} VoidProbesAt<S, R>(hooks: seq<Hook<S, R>>, zero: R, n: nat, i: nat)
    requires i < n <= |hooks|
    ensures |VoidProbes(hooks, zero, n)| == 2 * n
    ensures VoidProbes(hooks, zero, n)[2 * i] == Invoke(hooks[i].szName)
    ensures VoidProbes(hooks, zero, n)[2 * i + 1] == Complete(hooks[i].szName, zero)
  {
    if n > 1 { VoidProbesAt(hooks, zero, n - 1, if i < n - 1 then i else 0); }
  }

  /** A probe sequence in which every INVOKE is closed by the COMPLETE of the same hook before
      anything else happens. */
  predicate Balanced<R>(probes: seq<Probe<R>>) {
    probes == [] || (
      && |probes| >= 2 && probes[0].Invoke? && probes[1].Complete?
      && probes[0].src == probes[1].src && Balanced(probes[2..]))
  }

  lemma {:induction false} BalancedConcat<R>(p: seq<Probe<R>>, q: seq<Probe<R>>)
    requires Balanced(p) && Balanced(q)
    ensures Balanced(p + q)
    decreases |p|
  {
    if p == [] {
      assert p + q == q;
    } else {
      BalancedConcat(p[2..], q);
      assert (p + q)[2..] == p[2..] + q;
    }
  }

  lemma {:induction false} CallProbesBalanced<S, R>(hooks: seq<Hook<S, R>>, s: S, n: nat)
    requires n <= |hooks|
    ensures Balanced(CallProbes(hooks, s, n))
  {
    if n > 0 {
      CallProbesBalanced(hooks, s, n - 1);
      var last: seq<Probe<R>> :=
        [Invoke(hooks[n - 1].szName), Complete(hooks[n - 1].szName, ResultAt(hooks, s, n - 1))];
      assert last[2..] == [];
      BalancedConcat(CallProbes(hooks, s, n - 1), last);
    }
  }

  lemma {:induction false} VoidProbesBalanced<S, R>(hooks: seq<Hook<S, R>>, zero: R, n: nat)
    requires n <= |hooks|
    ensures Balanced(VoidProbes(hooks, zero, n))
  {
    if n > 0 {
      VoidProbesBalanced(hooks, zero, n - 1);
      var last: seq<Probe<R>> := [Invoke(hooks[n - 1].szName), Complete(hooks[n - 1].szName, zero)];
      assert last[2..] == [];
      BalancedConcat(VoidProbes(hooks, zero, n - 1), last);
    }
  }

  // ----- registering another hook -----

  /** A run that some hook stops is not changed by hooks registered after that one; otherwise
      the new hook is called last, in the state the others left. */
  lemma RegisteredLast<S, R>(hooks: seq<Hook<S, R>>, h: Hook<S, R>, s: S, passes: set<R>,
                             calls: seq<Call<S, R>>, state: S)
    requires InTurn(hooks, s, calls, state) && StopInTime(hooks, calls, passes)
    ensures var more := hooks + [h]; var r := h.pFunc(state);
      var all := calls + [Call(h.szName, state, r.0, r.1)];
      if calls != [] && Last(calls).rv !in passes
      then InTurn(more, s, calls, state) && StopInTime(more, calls, passes)
      else |calls| == |hooks| && InTurn(more, s, all, r.0) && StopInTime(more, all, passes)
  {
    var r := h.pFunc(state);
    assert InTurn(hooks + [h], s, calls, state);
    if |calls| == |hooks| { OneMoreInTurn(hooks + [h], s, calls, state, Call(h.szName, state, r.0, r.1)); }
  }

  /** The value it returns. */
  lemma RegisteredLastValue<S, R>(hooks: seq<Hook<S, R>>, h: Hook<S, R>, s: S, passes: set<R>, otherwise: R)
    ensures var k := Stop(hooks, s, passes, 0); var r := h.pFunc(StateAt(hooks, s, |hooks|)).1;
      Value(hooks + [h], s, passes, otherwise) ==
        if k < |hooks| then Value(hooks, s, passes, otherwise)
        else if r in passes then otherwise else r
  {
    var n := Calls(hooks, s, passes);
    var calls, state := Trace(hooks, s, n), StateAt(hooks, s, n);
    RunExact(hooks, s, passes, otherwise, calls, state);
    RegisteredLast(hooks, h, s, passes, calls, state);
    var r := h.pFunc(state);
    RunExact(hooks + [h], s, passes, otherwise, calls, state);
    RunExact(hooks + [h], s, passes, otherwise, calls + [Call(h.szName, state, r.0, r.1)], r.0);
    if n > 0 { TraceAt(hooks, s, n, n - 1); }
  }
}
