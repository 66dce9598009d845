/** What each construct of a program leaves in the trail and in the contexts, event by event
    and field by field (ota_core/policy/l0b.py, ota_core/policy/__init__.py). */
module RunMeaning {
  import opened Outcomes
  import opened RunPolicy

  /** The trail only grows. */
  lemma {:induction false} TrailGrows(p: Program, st: State)
    requires ActiveOk(st)
    ensures st.log <= Exec(p, st).0.log
    decreases p, 0
  {
    match p
    case Then(a, b) =>
      var (s, raised) := Exec(a, st);
      TrailGrows(a, st);
      if !raised {
        TrailGrows(b, s);
        Longer(st.log, s.log, Exec(b, s).0.log);
      }
    case Catch(a) => TrailGrows(a, st);
    case Run(enforcer, d, traceValid, body) =>
      if traceValid {
        RunEnds(enforcer, d, body, st);
      }
    case Verb(name, route, adapter) =>
      if st.active.Some? {
        VerbEnds(name, route, adapter, st);
      } else {
        DispatchGrows(route, adapter, st);
      }
    case _ =>
  }

  lemma Longer<T>(a: seq<T>, b: seq<T>, c: seq<T>)
    requires a <= b <= c
    ensures a <= c
  {
  }

  lemma OneLonger<T>(a: seq<T>, b: seq<T>, x: T)
    requires a <= b
    ensures a <= b + [x]
  {
  }

  // ---------- Runs ----------

  /** A run enters with a fresh context, all counters zero, as the active one. */
  lemma OpenMeans(st: State, enforcer: nat, d: Declaration)
    ensures var (s, run) := (OpenRun(st, enforcer, d), |st.runs|);
            && |s.runs| == run + 1 && s.runs[..run] == st.runs
            && s.runs[run] == Context(d, Usage(0, 0, 0.0), 0)
            && s.active == Some(Active(enforcer, run)) && s.nextId == st.nextId
            && s.log == st.log + [RunStarted(run)]
  {
  }

  /** A run of a valid trace starts with its start event, raises exactly when its body does,
      and ends with the completed event of that run, with its counters, if the body ended
      normally, and with its failed event if it raised. */
  lemma {:induction false} RunEnds(enforcer: nat, d: Declaration, body: Program, st: State)
    requires ActiveOk(st)
    ensures var run := |st.runs|;
            var (inner, bodyRaised) := Exec(body, OpenRun(st, enforcer, d));
            var (s, raised) := Exec(Run(enforcer, d, true, body), st);
            && (raised <==> bodyRaised) && s.runs == inner.runs
            && st.log + [RunStarted(run)] <= inner.log
            && (raised ==> s.log == inner.log + [RunFailed(run)])
            && (!raised ==> s.log == inner.log + [RunCompleted(run, inner.runs[run].toolCalls, inner.runs[run].used)])
            && st.log <= s.log
    decreases body, 1
  {
    var entered := OpenRun(st, enforcer, d);
    TrailGrows(body, entered);
    var inner := Exec(body, entered).0;
    assert entered.log == st.log + [RunStarted(|st.runs|)];
    Longer(st.log, entered.log, inner.log);
    OneLonger(st.log, inner.log, Exec(Run(enforcer, d, true, body), st).0.log[|inner.log|]);
  }

  predicate EndsWith(log: seq<Event>, ev: Event) {
    log != [] && log[|log| - 1] == ev
  }

  lemma LastOf(log: seq<Event>, last: Event, ev: Event)
    ensures EndsWith(log + [last], ev) <==> last == ev
  {
  }

  /** How a run ended can be read off its last event. */
  lemma LastEventTells(enforcer: nat, d: Declaration, body: Program, st: State)
    requires ActiveOk(st)
    ensures var run := |st.runs|;
            var (s, raised) := Exec(Run(enforcer, d, true, body), st);
            && (EndsWith(s.log, RunFailed(run)) <==> raised)
            && (EndsWith(s.log, RunCompleted(run, s.runs[run].toolCalls, s.runs[run].used)) <==> !raised)
  {
    RunEnds(enforcer, d, body, st);
    var run := |st.runs|;
    var inner := Exec(body, OpenRun(st, enforcer, d)).0;
    var (s, raised) := Exec(Run(enforcer, d, true, body), st);
    var completed := RunCompleted(run, s.runs[run].toolCalls, s.runs[run].used);
    var last := if raised then RunFailed(run) else completed;
    assert s.log == inner.log + [last];
    LastOf(inner.log, last, RunFailed(run));
    LastOf(inner.log, last, completed);
  }

  /** A run with an invalid trace raises before it starts. */
  lemma InvalidTraceRaises(enforcer: nat, d: Declaration, body: Program, st: State)
    requires ActiveOk(st)
    ensures Exec(Run(enforcer, d, false, body), st) == (st, true)
  {
  }

  // ---------- Verb calls ----------

  /** The approach to the adapter and, if it is reached, the adapter's own program. */
  ghost function Dispatched(route: Route, adapter: Program, st: State): (r: (State, bool))
    requires ActiveOk(st)
  {
    var (s, ok) := Approach(st, route);
    if ok then Exec(adapter, s) else (s, true)
  }

  lemma {:induction false} DispatchGrows(route: Route, adapter: Program, st: State)
    requires ActiveOk(st)
    ensures st.log <= Dispatched(route, adapter, st).0.log
    decreases adapter, 1
  {
    ApproachMeans(st, route);
    var (s, ok) := Approach(st, route);
    if ok {
      TrailGrows(adapter, s);
      Longer(st.log, s.log, Exec(adapter, s).0.log);
    }
  }

  /** Inside a run a verb call is counted on the run, begins with its invoked event, raises
      exactly when the dispatch does, and ends with the finished event of the same id, which
      says whether it succeeded. */
  lemma {:induction false} VerbEnds(name: string, route: Route, adapter: Program, st: State)
    requires ActiveOk(st) && st.active.Some?
    ensures var run, id := st.active.value.run, st.nextId;
            var (inner, failed) := Dispatched(route, adapter, Invoke(st, run, name));
            var (s, raised) := Exec(Verb(name, route, adapter), st);
            && (raised <==> failed) && s.runs == inner.runs
            && st.log + [Invoked(run, id, name)] <= inner.log
            && s.log == inner.log + [Finished(run, id, !raised)]
            && st.log <= s.log
    decreases adapter, 2
  {
    var run := st.active.value.run;
    var begun := Invoke(st, run, name);
    DispatchGrows(route, adapter, begun);
    var (inner, failed) := Dispatched(route, adapter, begun);
    assert begun.log == st.log + [Invoked(run, st.nextId, name)];
    Longer(st.log, begun.log, inner.log);
    OneLonger(st.log, inner.log, Finished(run, st.nextId, !failed));
  }

  /** Outside a run a verb call is its dispatch and nothing else. */
  lemma VerbOutside(name: string, route: Route, adapter: Program, st: State)
    requires ActiveOk(st) && st.active.None?
    ensures Exec(Verb(name, route, adapter), st) == Dispatched(route, adapter, st)
  {
  }

  /** An invocation counts one call on its run and touches nothing else in any context. */
  lemma InvokeMeans(st: State, run: nat, verb: string)
    requires run < |st.runs|
    ensures var s := Invoke(st, run, verb);
            && |s.runs| == |st.runs| && s.nextId == st.nextId + 1 && s.active == st.active
            && s.log == st.log + [Invoked(run, st.nextId, verb)]
            && s.runs[run].toolCalls == st.runs[run].toolCalls + 1
            && s.runs[run].used == st.runs[run].used && s.runs[run].declared == st.runs[run].declared
            && forall r :: 0 <= r < |st.runs| && r != run ==> s.runs[r] == st.runs[r]
  {
  }

  /** What stands between a verb and its adapter, and the event that each refusal leaves. */
  lemma ApproachMeans(st: State, route: Route)
    requires ActiveOk(st)
    ensures var (s, reached) := Approach(st, route);
            && s.runs == st.runs && s.active == st.active && s.nextId == st.nextId && st.log <= s.log
            && (!route.Bound? ==> !reached && s.log == st.log)
            && (route.Bound? && st.active.None? ==>
                  reached && s.log == st.log + [AdapterCalled(None, route.integration, route.required)])
            && (route.Bound? && st.active.Some? ==>
                  var run := st.active.value.run;
                  var d := st.runs[run].declared;
                  var known := if route.integration in d.scopes then d.scopes[route.integration] else {};
                  if d.allowed != {} && route.integration !in d.allowed then
                    !reached && s.log == st.log + [Blocked(run, route.integration)]
                  else if exists scope :: scope in route.required && scope !in known then
                    && !reached && |s.log| == |st.log| + 1 && s.log[|st.log|].ScopeEscalation?
                    && s.log[|st.log|].run == run && s.log[|st.log|].integration == route.integration
                    && forall scope :: scope in s.log[|st.log|].missing <==> scope in route.required && scope !in known
                  else
                    reached && s.log == st.log + [AdapterCalled(Some(run), route.integration, route.required)])
  {
    if route.Bound? && st.active.Some? {
      var d := st.runs[st.active.value.run].declared;
      var missing := Missing(route.required, DeclaredScopes(d, route.integration));
      if missing != [] {
        assert missing[0] in missing;
      }
    }
  }

  // ---------- Model usage ----------

  /** The enforcer asked is the one of the active run. */
  predicate Owns(st: State, enforcer: nat) {
    st.active.Some? && st.active.value.enforcer == enforcer
  }

  predicate OverInput(c: Context, amount: Usage) {
    c.declared.budget.Some? && c.declared.budget.value.maxInput.Some?
    && c.used.input + amount.input > c.declared.budget.value.maxInput.value
  }

  predicate OverOutput(c: Context, amount: Usage) {
    c.declared.budget.Some? && c.declared.budget.value.maxOutput.Some?
    && c.used.output + amount.output > c.declared.budget.value.maxOutput.value
  }

  predicate OverUsd(c: Context, amount: Usage) {
    c.declared.budget.Some? && c.declared.budget.value.maxUsd.Some?
    && c.used.usd + amount.usd > c.declared.budget.value.maxUsd.value
  }

  /** A reservation is refused exactly outside a run of its enforcer and when it would exceed
      a limit, and then the event names the first such limit: input, output, cost. */
  lemma ReserveMeans(st: State, enforcer: nat, amount: Usage)
    requires ActiveOk(st)
    ensures var (s, raised) := ReserveStep(st, enforcer, amount);
            if !Owns(st, enforcer) then raised && s == st
            else
              var run := st.active.value.run;
              var c := st.runs[run];
              if OverInput(c, amount) then raised && s == st.(log := st.log + [BudgetExceeded(run, InputTokens)])
              else if OverOutput(c, amount) then raised && s == st.(log := st.log + [BudgetExceeded(run, OutputTokens)])
              else if OverUsd(c, amount) then raised && s == st.(log := st.log + [BudgetExceeded(run, Usd)])
              else !raised && s == st
  {
  }

  /** Recording adds the three amounts to the active run's counters and reports them. */
  lemma RecordMeans(st: State, enforcer: nat, amount: Usage)
    requires ActiveOk(st)
    ensures var (s, raised) := RecordStep(st, enforcer, amount);
            if !Owns(st, enforcer) then raised && s == st
            else
              var run := st.active.value.run;
              var (was, now) := (st.runs[run], s.runs[run]);
              && !raised && |s.runs| == |st.runs| && s.active == st.active && s.nextId == st.nextId
              && s.log == st.log + [ModelResponse(run, amount)]
              && now.used.input == was.used.input + amount.input
              && now.used.output == was.used.output + amount.output
              && now.used.usd == was.used.usd + amount.usd
              && now.declared == was.declared && now.toolCalls == was.toolCalls
              && forall r :: 0 <= r < |st.runs| && r != run ==> s.runs[r] == st.runs[r]
  {
  }

  // ---------- Sequences and handlers ----------

  /** A handler ends what raises in it, and neither raising nor skipping changes the state. */
  lemma ExceptionsEnd(a: Program, st: State)
    requires ActiveOk(st)
    ensures Exec(Raise, st) == (st, true) && Exec(Skip, st) == (st, false)
    ensures Exec(Catch(a), st) == (Exec(a, st).0, false)
  {
  }

  /** Exceptions pass through a sequence and skip what follows. */
  lemma ExceptionsPass(a: Program, b: Program, st: State)
    requires ActiveOk(st)
    ensures Exec(a, st).1 ==> Exec(Then(a, b), st) == Exec(a, st)
    ensures !Exec(a, st).1 ==> Exec(Then(a, b), st) == Exec(b, Exec(a, st).0)
  {
  }
}
