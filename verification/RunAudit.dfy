/** What the audit trail of every program shows: proper nesting, one end for every start,
    counters that equal the events, and no adapter call that its run's policy forbids. */
module RunAudit {
  import opened Outcomes
  import opened RunPolicy

  // ---------- Nesting ----------

  datatype Frame = RunFrame(run: nat) | CallFrame(run: nat, id: nat)

  /** The innermost open run. */
  ghost function TopRun(stack: seq<Frame>): Option<nat> {
    if stack == [] then None
    else if stack[|stack| - 1].RunFrame? then Some(stack[|stack| - 1].run)
    else TopRun(stack[..|stack| - 1])
  }

  /** Reading one event against the open frames; None when it does not fit.  Every event
      belongs to the innermost open run, and only the innermost frame can be closed. */
  ghost function Read(stack: seq<Frame>, ev: Event): Option<seq<Frame>> {
    match ev
    case RunStarted(run) => Some(stack + [RunFrame(run)])
    case RunCompleted(run, _, _) => Close(stack, RunFrame(run))
    case RunFailed(run) => Close(stack, RunFrame(run))
    case Invoked(run, id, _) => if TopRun(stack) == Some(run) then Some(stack + [CallFrame(run, id)]) else None
    case Finished(run, id, _) => Close(stack, CallFrame(run, id))
    case AdapterCalled(run, _, _) => if TopRun(stack) == run then Some(stack) else None
    case _ => if TopRun(stack) == Some(ev.run) then Some(stack) else None
  }

  ghost function Close(stack: seq<Frame>, f: Frame): Option<seq<Frame>> {
    if stack != [] && stack[|stack| - 1] == f then Some(stack[..|stack| - 1]) else None
  }

  ghost function ReadAll(log: seq<Event>): Option<seq<Frame>> {
    if log == [] then Some([])
    else
      match ReadAll(log[..|log| - 1])
      case None => None
      case Some(stack) => Read(stack, log[|log| - 1])
  }

  lemma ReadStep(log: seq<Event>, ev: Event)
    ensures ReadAll(log + [ev]) == match ReadAll(log) case None => None case Some(stack) => Read(stack, ev)
  {
    assert (log + [ev])[..|log|] == log;
  }

  // ---------- Counting ----------

  ghost function Count(log: seq<Event>, hit: Event -> bool): nat {
    if log == [] then 0 else Count(log[..|log| - 1], hit) + if hit(log[|log| - 1]) then 1 else 0
  }

  ghost function Starts(run: nat): Event -> bool { (ev: Event) => ev.RunStarted? && ev.run == run }
  ghost function Ends(run: nat): Event -> bool { (ev: Event) => (ev.RunCompleted? || ev.RunFailed?) && ev.run == run }
  ghost function Invocations(run: nat): Event -> bool { (ev: Event) => ev.Invoked? && ev.run == run }
  ghost function Begins(id: nat): Event -> bool { (ev: Event) => ev.Invoked? && ev.id == id }
  ghost function Finishes(id: nat): Event -> bool { (ev: Event) => ev.Finished? && ev.id == id }

  /** The model usage that a run's events report. */
  ghost function Reported(log: seq<Event>, run: nat): Usage {
    if log == [] then NOTHING
    else
      var ev := log[|log| - 1];
      var before := Reported(log[..|log| - 1], run);
      if ev.ModelResponse? && ev.run == run then Add(before, ev.amount) else before
  }

  /** One more event, for every run and every invocation at once. */
  lemma LogStep(log: seq<Event>, ev: Event)
    ensures forall run: nat ::
              Count(log + [ev], Starts(run)) == Count(log, Starts(run)) + if Starts(run)(ev) then 1 else 0
    ensures forall id: nat :: Count(log + [ev], Begins(id)) == Count(log, Begins(id)) + if Begins(id)(ev) then 1 else 0
    ensures forall run: nat ::
              Count(log + [ev], Invocations(run))
              == Count(log, Invocations(run)) + if Invocations(run)(ev) then 1 else 0
    ensures forall run: nat ::
              Reported(log + [ev], run)
              == if ev.ModelResponse? && ev.run == run then Add(Reported(log, run), ev.amount) else Reported(log, run)
  {
    assert (log + [ev])[..|log|] == log;
  }

  ghost function OpenRuns(stack: seq<Frame>, run: nat): nat {
    if stack == [] then 0
    else OpenRuns(stack[..|stack| - 1], run) + if stack[|stack| - 1] == RunFrame(run) then 1 else 0
  }

  ghost function OpenCalls(stack: seq<Frame>, id: nat): nat {
    if stack == [] then 0
    else OpenCalls(stack[..|stack| - 1], id)
         + if stack[|stack| - 1].CallFrame? && stack[|stack| - 1].id == id then 1 else 0
  }

  lemma PushCounts(stack: seq<Frame>, f: Frame, run: nat, id: nat)
    ensures OpenRuns(stack + [f], run) == OpenRuns(stack, run) + if f == RunFrame(run) then 1 else 0
    ensures OpenCalls(stack + [f], id) == OpenCalls(stack, id) + if f.CallFrame? && f.id == id then 1 else 0
  {
    assert (stack + [f])[..|stack|] == stack;
  }

  /** What an event opens and closes shows in the frames. */
  ghost predicate Balanced(before: seq<Frame>, after: seq<Frame>, ev: Event, run: nat, id: nat) {
    && OpenRuns(after, run) + (if Ends(run)(ev) then 1 else 0)
       == OpenRuns(before, run) + (if Starts(run)(ev) then 1 else 0)
    && OpenCalls(after, id) + (if Finishes(id)(ev) then 1 else 0)
       == OpenCalls(before, id) + (if Begins(id)(ev) then 1 else 0)
  }

  lemma OpeningBalanced(stack: seq<Frame>, ev: Event, f: Frame, run: nat, id: nat)
    requires (ev.RunStarted? && f == RunFrame(ev.run)) || (ev.Invoked? && f == CallFrame(ev.run, ev.id))
    ensures Balanced(stack, stack + [f], ev, run, id)
  {
    PushCounts(stack, f, run, id);
  }

  lemma ClosingBalanced(stack: seq<Frame>, ev: Event, f: Frame, run: nat, id: nat)
    requires ((ev.RunCompleted? || ev.RunFailed?) && f == RunFrame(ev.run))
             || (ev.Finished? && f == CallFrame(ev.run, ev.id))
    requires Close(stack, f).Some?
    ensures Balanced(stack, Close(stack, f).value, ev, run, id)
  {
    var init := stack[..|stack| - 1];
    assert stack == init + [f];
    PushCounts(init, f, run, id);
  }

  lemma ReadBalanced(stack: seq<Frame>, ev: Event, run: nat, id: nat)
    requires Read(stack, ev).Some?
    ensures Balanced(stack, Read(stack, ev).value, ev, run, id)
  {
    match ev
    case RunStarted(r) => OpeningBalanced(stack, ev, RunFrame(r), run, id);
    case RunCompleted(r, _, _) => ClosingBalanced(stack, ev, RunFrame(r), run, id);
    case RunFailed(r) => ClosingBalanced(stack, ev, RunFrame(r), run, id);
    case Invoked(r, i, _) => OpeningBalanced(stack, ev, CallFrame(r, i), run, id);
    case Finished(r, i, _) => ClosingBalanced(stack, ev, CallFrame(r, i), run, id);
    case _ =>
  }

  lemma CountStep(log: seq<Event>, ev: Event, hit: Event -> bool)
    ensures Count(log + [ev], hit) == Count(log, hit) + if hit(ev) then 1 else 0
  {
    assert (log + [ev])[..|log|] == log;
  }

  /** In a well-nested trail every start is ended or still open, and every invocation too. */
  lemma {:induction false} StartsAreEndsPlusOpen(log: seq<Event>, run: nat, id: nat)
    requires ReadAll(log).Some?
    ensures Count(log, Starts(run)) == Count(log, Ends(run)) + OpenRuns(ReadAll(log).value, run)
    ensures Count(log, Begins(id)) == Count(log, Finishes(id)) + OpenCalls(ReadAll(log).value, id)
  {
    if log != [] {
      var init, ev := log[..|log| - 1], log[|log| - 1];
      assert log == init + [ev];
      ReadStep(init, ev);
      StartsAreEndsPlusOpen(init, run, id);
      ReadBalanced(ReadAll(init).value, ev, run, id);
      CountStep(init, ev, Starts(run));
      CountStep(init, ev, Ends(run));
      CountStep(init, ev, Begins(id));
      CountStep(init, ev, Finishes(id));
    }
  }

  lemma {:induction false} TopIsOpen(stack: seq<Frame>)
    ensures TopRun(stack).Some? ==> OpenRuns(stack, TopRun(stack).value) >= 1
  {
    if stack != [] && !stack[|stack| - 1].RunFrame? {
      TopIsOpen(stack[..|stack| - 1]);
    }
  }

  // ---------- The invariant ----------

  /** Every context started once, and its counters are what its events say. */
  ghost predicate Accounts(st: State) {
    && (forall run: nat :: Count(st.log, Starts(run)) == if run < |st.runs| then 1 else 0)
    && (forall id: nat :: Count(st.log, Begins(id)) == if id < st.nextId then 1 else 0)
    && forall run :: 0 <= run < |st.runs| ==>
         st.runs[run].toolCalls == Count(st.log, Invocations(run)) && st.runs[run].used == Reported(st.log, run)
  }

  /** A completion event reports the counters its context has for good. */
  ghost predicate CompletionsExact(st: State) {
    forall i :: 0 <= i < |st.log| && st.log[i].RunCompleted? ==>
                  && st.log[i].run < |st.runs|
                  && st.log[i].toolCalls == st.runs[st.log[i].run].toolCalls
                  && st.log[i].used == st.runs[st.log[i].run].used
  }

  /** An adapter was called inside a run only with the integration allowed and every
      required scope declared. */
  ghost predicate CallsPermitted(st: State) {
    forall i :: 0 <= i < |st.log| && st.log[i].AdapterCalled? && st.log[i].caller.Some? ==>
                  && st.log[i].caller.value < |st.runs|
                  && Permitted(st.runs[st.log[i].caller.value].declared, st.log[i].integration, st.log[i].required)
  }

  ghost predicate Permitted(d: Declaration, integration: string, required: seq<string>) {
    IntegrationAllowed(d, integration) && forall s :: s in required ==> s in DeclaredScopes(d, integration)
  }

  ghost predicate Inv(st: State, stack: seq<Frame>) {
    && ActiveOk(st)
    && ReadAll(st.log) == Some(stack)
    && TopRun(stack) == ActiveRun(st)
    && Accounts(st)
    && CompletionsExact(st)
    && CallsPermitted(st)
  }

  /** An open run has no end event yet. */
  lemma OpenNotEnded(st: State, stack: seq<Frame>, run: nat)
    requires Inv(st, stack) && OpenRuns(stack, run) >= 1
    ensures Count(st.log, Ends(run)) == 0
    ensures forall i :: 0 <= i < |st.log| && st.log[i].RunCompleted? ==> st.log[i].run != run
  {
    StartsAreEndsPlusOpen(st.log, run, 0);
    NoneCounted(st.log, Ends(run));
  }

  lemma {:induction false} NoneCounted(log: seq<Event>, hit: Event -> bool)
    requires Count(log, hit) == 0
    ensures forall i :: 0 <= i < |log| ==> !hit(log[i])
  {
    if log != [] {
      NoneCounted(log[..|log| - 1], hit);
    }
  }

  // ---------- Every step keeps it ----------

  /** An event that opens, closes, counts and reports nothing. */
  predicate Plain(ev: Event) {
    ev.Blocked? || ev.ScopeEscalation? || ev.BudgetExceeded? || ev.AdapterCalled?
  }

  lemma AccountsKept(st: State, ev: Event)
    requires Accounts(st) && !ev.RunStarted? && !ev.Invoked? && !ev.ModelResponse?
    ensures Accounts(Emit(st, ev))
  {
    LogStep(st.log, ev);
  }

  lemma CompletionsKept(st: State, ev: Event)
    requires CompletionsExact(st)
    requires ev.RunCompleted? ==>
               ev.run < |st.runs| && ev.toolCalls == st.runs[ev.run].toolCalls && ev.used == st.runs[ev.run].used
    ensures CompletionsExact(Emit(st, ev))
  {
  }

  lemma CallsKept(st: State, ev: Event)
    requires CallsPermitted(st)
    requires ev.AdapterCalled? && ev.caller.Some? ==>
               ev.caller.value < |st.runs| && Permitted(st.runs[ev.caller.value].declared, ev.integration, ev.required)
    ensures CallsPermitted(Emit(st, ev))
  {
  }

  /** The active context is no part of the accounts. */
  lemma ActiveIrrelevant(st: State, active: Option<Active>)
    requires Accounts(st) && CompletionsExact(st) && CallsPermitted(st)
    ensures var t := st.(active := active); Accounts(t) && CompletionsExact(t) && CallsPermitted(t)
  {
  }

  lemma PlainStep(st: State, stack: seq<Frame>, ev: Event)
    requires Inv(st, stack) && Plain(ev) && Read(stack, ev) == Some(stack)
    requires ev.AdapterCalled? && ev.caller.Some? ==>
               ev.caller.value < |st.runs| && Permitted(st.runs[ev.caller.value].declared, ev.integration, ev.required)
    ensures Inv(Emit(st, ev), stack)
  {
    ReadStep(st.log, ev);
    AccountsKept(st, ev);
    CompletionsKept(st, ev);
    CallsKept(st, ev);
  }

  lemma OpenStep(st: State, stack: seq<Frame>, enforcer: nat, d: Declaration)
    requires Inv(st, stack)
    ensures Inv(OpenRun(st, enforcer, d), stack + [RunFrame(|st.runs|)])
  {
    var ev := RunStarted(|st.runs|);
    ReadStep(st.log, ev);
    LogStep(st.log, ev);
    NeverStarted(st, stack, |st.runs|);
  }

  /** A run that never started has no events. */
  lemma NeverStarted(st: State, stack: seq<Frame>, run: nat)
    requires Inv(st, stack) && run >= |st.runs|
    ensures Count(st.log, Invocations(run)) == 0 && Reported(st.log, run) == NOTHING
  {
    UnstartedSilent(st.log, run);
  }

  lemma {:induction false} UnstartedSilent(log: seq<Event>, run: nat)
    requires ReadAll(log).Some? && Count(log, Starts(run)) == 0
    ensures Count(log, Invocations(run)) == 0 && Reported(log, run) == NOTHING
  {
    if log != [] {
      var init, ev := log[..|log| - 1], log[|log| - 1];
      UnstartedSilent(init, run);
      StartsAreEndsPlusOpen(init, run, 0);
      TopIsOpen(ReadAll(init).value);
    }
  }

  lemma CloseStep(st: State, stack: seq<Frame>, run: nat, raised: bool, outer: Option<Active>)
    requires Inv(st, stack + [RunFrame(run)]) && run < |st.runs|
    requires outer.Some? ==> outer.value.run < |st.runs|
    requires TopRun(stack) == if outer.Some? then Some(outer.value.run) else None
    ensures Inv(CloseRun(st, run, raised, outer), stack)
  {
    var c := st.runs[run];
    CloseWith(st, stack, run, if raised then RunFailed(run) else RunCompleted(run, c.toolCalls, c.used), outer);
  }

  lemma CloseWith(st: State, stack: seq<Frame>, run: nat, ev: Event, outer: Option<Active>)
    requires Inv(st, stack + [RunFrame(run)]) && run < |st.runs|
    requires ev == RunFailed(run) || ev == RunCompleted(run, st.runs[run].toolCalls, st.runs[run].used)
    requires outer.Some? ==> outer.value.run < |st.runs|
    requires TopRun(stack) == if outer.Some? then Some(outer.value.run) else None
    ensures Inv(Emit(st, ev).(active := outer), stack)
  {
    assert (stack + [RunFrame(run)])[..|stack|] == stack;
    ReadStep(st.log, ev);
    AccountsKept(st, ev);
    CompletionsKept(st, ev);
    CallsKept(st, ev);
    ActiveIrrelevant(Emit(st, ev), outer);
  }

  lemma InvokeStep(st: State, stack: seq<Frame>, verb: string)
    requires Inv(st, stack) && st.active.Some?
    ensures var run := st.active.value.run;
            Inv(Invoke(st, run, verb), stack + [CallFrame(run, st.nextId)])
  {
    var run := st.active.value.run;
    var ev := Invoked(run, st.nextId, verb);
    TopIsOpen(stack);
    OpenNotEnded(st, stack, run);
    ReadStep(st.log, ev);
    assert (stack + [CallFrame(run, st.nextId)])[..|stack|] == stack;
    LogStep(st.log, ev);
  }

  lemma FinishStep(st: State, stack: seq<Frame>, run: nat, id: nat, succeeded: bool)
    requires Inv(st, stack + [CallFrame(run, id)]) && TopRun(stack) == ActiveRun(st)
    ensures Inv(Emit(st, Finished(run, id, succeeded)), stack)
  {
    var ev := Finished(run, id, succeeded);
    assert (stack + [CallFrame(run, id)])[..|stack|] == stack;
    ReadStep(st.log, ev);
    AccountsKept(st, ev);
  }

  lemma RecordKeeps(st: State, stack: seq<Frame>, enforcer: nat, amount: Usage)
    requires Inv(st, stack)
    ensures Inv(RecordStep(st, enforcer, amount).0, stack)
  {
    var owner := RunOf(st, enforcer);
    if owner.Some? {
      var run := owner.value;
      var ev := ModelResponse(run, amount);
      TopIsOpen(stack);
      OpenNotEnded(st, stack, run);
      ReadStep(st.log, ev);
      LogStep(st.log, ev);
    }
  }

  lemma ReserveKeeps(st: State, stack: seq<Frame>, enforcer: nat, amount: Usage)
    requires Inv(st, stack)
    ensures Inv(ReserveStep(st, enforcer, amount).0, stack)
  {
    var owner := RunOf(st, enforcer);
    if owner.Some? && ReserveStep(st, enforcer, amount).1 {
      var kind := Exceeded(st.runs[owner.value].declared.budget.value, st.runs[owner.value].used, amount).value;
      PlainStep(st, stack, BudgetExceeded(owner.value, kind));
    }
  }

  lemma ApproachKeeps(st: State, stack: seq<Frame>, route: Route)
    requires Inv(st, stack)
    ensures Inv(Approach(st, route).0, stack) && Approach(st, route).0.active == st.active
  {
    if route.Bound? {
      if st.active.Some? {
        var run := st.active.value.run;
        var missing := Missing(route.required, DeclaredScopes(st.runs[run].declared, route.integration));
        if !IntegrationAllowed(st.runs[run].declared, route.integration) {
          PlainStep(st, stack, Blocked(run, route.integration));
        } else if missing != [] {
          PlainStep(st, stack, ScopeEscalation(run, route.integration, missing));
        } else {
          PlainStep(st, stack, AdapterCalled(Some(run), route.integration, route.required));
        }
      } else {
        PlainStep(st, stack, AdapterCalled(None, route.integration, route.required));
      }
    }
  }

  /** Every program keeps the invariant, and leaves exactly the frames open that it found. */
  lemma {:induction false} ExecKeeps(p: Program, st: State, stack: seq<Frame>)
    requires Inv(st, stack)
    ensures Inv(Exec(p, st).0, stack)
    decreases p, 0
  {
    match p
    case Skip =>
    case Raise =>
    case Then(a, b) =>
      ExecKeeps(a, st, stack);
      ExecKeeps(b, Exec(a, st).0, stack);
    case Catch(a) => ExecKeeps(a, st, stack);
    case Run(enforcer, d, traceValid, body) =>
      if traceValid {
        var entered := OpenRun(st, enforcer, d);
        OpenStep(st, stack, enforcer, d);
        ExecKeeps(body, entered, stack + [RunFrame(|st.runs|)]);
        var (s, raised) := Exec(body, entered);
        CloseStep(s, stack, |st.runs|, raised, st.active);
      }
    case Verb(name, route, adapter) => VerbKeeps(name, route, adapter, st, stack);
    case Reserve(enforcer, amount) => ReserveKeeps(st, stack, enforcer, amount);
    case Record(enforcer, amount) => RecordKeeps(st, stack, enforcer, amount);
  }

  lemma {:induction false} VerbKeeps(name: string, route: Route, adapter: Program, st: State, stack: seq<Frame>)
    requires Inv(st, stack)
    ensures Inv(Exec(Verb(name, route, adapter), st).0, stack)
    decreases adapter, 2
  {
    if st.active.Some? {
      var run := st.active.value.run;
      var begun, inner := Invoke(st, run, name), stack + [CallFrame(run, st.nextId)];
      InvokeStep(st, stack, name);
      DispatchKeeps(route, adapter, begun, inner);
      var (s, raised) := ExecDispatch(route, adapter, begun);
      FinishStep(s, stack, run, st.nextId, !raised);
    } else {
      DispatchKeeps(route, adapter, st, stack);
    }
  }

  /** The approach to an adapter and, if it is reached, the adapter's own program. */
  ghost function ExecDispatch(route: Route, adapter: Program, st: State): (r: (State, bool))
    requires ActiveOk(st)
  {
    var (s, ok) := Approach(st, route);
    if ok then Exec(adapter, s) else (s, true)
  }

  lemma {:induction false} DispatchKeeps(route: Route, adapter: Program, st: State, stack: seq<Frame>)
    requires Inv(st, stack)
    ensures Inv(ExecDispatch(route, adapter, st).0, stack) && ExecDispatch(route, adapter, st).0.active == st.active
    decreases adapter, 1
  {
    ApproachKeeps(st, stack, route);
    var (s, ok) := Approach(st, route);
    if ok {
      ExecKeeps(adapter, s, stack);
    }
  }

  // ---------- Whole programs ----------

  const START := State(None, [], 0, [])

  lemma StartHolds()
    ensures Inv(START, [])
  {
  }

  /** The trail of a whole program: properly nested with nothing left open; one start and one
      end per run; one end per invocation, of the same run and id; completion events with
      exact counters; adapters called only as their run permits. */
  lemma WholeProgram(p: Program)
    ensures var st := Exec(p, START).0;
            && ReadAll(st.log) == Some([])
            && (forall run: nat :: run < |st.runs| ==> Count(st.log, Starts(run)) == Count(st.log, Ends(run)) == 1)
            && (forall id: nat :: id < st.nextId ==> Count(st.log, Begins(id)) == Count(st.log, Finishes(id)) == 1)
            && (forall i :: 0 <= i < |st.log| && st.log[i].RunCompleted? ==>
                  && st.log[i].toolCalls == Count(st.log, Invocations(st.log[i].run))
                  && st.log[i].used == Reported(st.log, st.log[i].run))
            && CallsPermitted(st)
  {
    StartHolds();
    ExecKeeps(p, START, []);
    var st := Exec(p, START).0;
    forall run: nat | run < |st.runs| ensures Count(st.log, Starts(run)) == Count(st.log, Ends(run)) == 1 {
      StartsAreEndsPlusOpen(st.log, run, 0);
    }
    forall id: nat | id < st.nextId ensures Count(st.log, Begins(id)) == Count(st.log, Finishes(id)) == 1 {
      StartsAreEndsPlusOpen(st.log, 0, id);
    }
  }

  /** Inside a run an adapter is reached exactly when the run's policy permits it. */
  lemma ReachedIffPermitted(st: State, integration: string, required: seq<string>)
    requires ActiveOk(st)
    ensures Approach(st, Bound(integration, required)).1
            <==> st.active.None? || Permitted(st.runs[st.active.value.run].declared, integration, required)
  {
    if st.active.Some? {
      var missing := Missing(required, DeclaredScopes(st.runs[st.active.value.run].declared, integration));
      if missing != [] {
        assert missing[0] in missing;
      }
    }
  }

  // ---------- Budgets ----------

  predicate AtMost(a: Usage, b: Usage) {
    a.input <= b.input && a.output <= b.output && a.usd <= b.usd
  }

  predicate Covered(a: Program, b: Program)
    requires a.Reserve? && b.Record?
  {
    a.enforcer == b.enforcer && AtMost(b.amount, a.amount)
  }

  /** Reserves, and then records once and at most that, after anything that records nothing
      else on the same run: `reserve; record` or `reserve; call; record`. */
  predicate Paid(p: Program)
    decreases p, 0
  {
    && p.Then? && p.first.Reserve?
    && ((p.second.Record? && Covered(p.first, p.second))
        || (p.second.Then? && p.second.second.Record? && Covered(p.first, p.second.second) && Quiet(p.second.first)))
  }

  /** Records nothing on the run it is in; runs nested in it keep the discipline. */
  predicate Quiet(p: Program)
    decreases p, 1
  {
    match p
    case Then(a, b) => Quiet(a) && Quiet(b)
    case Catch(a) => Quiet(a)
    case Run(_, _, _, body) => Disciplined(body)
    case Verb(_, _, adapter) => Quiet(adapter)
    case Record(_, _) => false
    case _ => true
  }

  /** Model usage is recorded only after reserving at least as much. */
  predicate Disciplined(p: Program)
    decreases p, 1
  {
    match p
    case Then(a, b) => Paid(p) || (Disciplined(a) && Disciplined(b))
    case Catch(a) => Disciplined(a)
    case Run(_, _, _, body) => Disciplined(body)
    case Verb(_, _, adapter) => Disciplined(adapter)
    case Record(_, _) => false
    case _ => true
  }

  predicate WithinBudget(c: Context) {
    c.declared.budget.Some? ==>
      var b := c.declared.budget.value;
      && (b.maxInput.Some? ==> c.used.input <= b.maxInput.value)
      && (b.maxOutput.Some? ==> c.used.output <= b.maxOutput.value)
      && (b.maxUsd.Some? ==> c.used.usd <= b.maxUsd.value)
  }

  ghost predicate AllWithin(st: State) {
    forall run :: 0 <= run < |st.runs| ==> WithinBudget(st.runs[run])
  }

  // ---------- Contexts that a program leaves alone ----------

  /** The contexts of `st` other than `open` have the same usage in `s`, and all the same
      declaration. */
  ghost predicate Unbilled(st: State, s: State, open: Option<nat>) {
    && |s.runs| >= |st.runs|
    && forall r :: 0 <= r < |st.runs| ==>
         s.runs[r].declared == st.runs[r].declared && (Some(r) != open ==> s.runs[r].used == st.runs[r].used)
  }

  lemma UnbilledOn(st: State, s: State, t: State, open: Option<nat>)
    requires Unbilled(st, s, open) && Unbilled(s, t, open)
    ensures Unbilled(st, t, open)
  {
  }

  /** A nested run bills only itself and newer ones. */
  lemma UnbilledInside(st: State, s: State, t: State)
    requires |s.runs| == |st.runs| + 1 && s.runs[..|st.runs|] == st.runs
    requires Unbilled(s, t, Some(|st.runs|))
    ensures Unbilled(st, t, None)
  {
    forall r | 0 <= r < |st.runs|
      ensures t.runs[r].declared == st.runs[r].declared && t.runs[r].used == st.runs[r].used
    {
      assert s.runs[r] == s.runs[..|st.runs|][r];
    }
  }

  lemma UnbilledMore(st: State, s: State, open: Option<nat>)
    requires Unbilled(st, s, None)
    ensures Unbilled(st, s, open)
  {
  }

  lemma ApproachUnbilled(st: State, route: Route)
    requires ActiveOk(st)
    ensures Unbilled(st, Approach(st, route).0, None) && Approach(st, route).0.runs == st.runs
    ensures Approach(st, route).0.active == st.active
  {
  }

  /** A program bills only the run it is in, and a quiet one not even that. */
  lemma {:induction false} OnlyOwnRunBilled(p: Program, st: State)
    requires ActiveOk(st)
    ensures Unbilled(st, Exec(p, st).0, if Quiet(p) then None else ActiveRun(st))
    decreases p, 1
  {
    match p
    case Skip =>
    case Raise =>
    case Then(_, _) => ThenBilled(p, st);
    case Catch(a) => OnlyOwnRunBilled(a, st);
    case Run(enforcer, d, traceValid, body) =>
      if traceValid {
        var entered := OpenRun(st, enforcer, d);
        OnlyOwnRunBilled(body, entered);
        if Quiet(body) {
          UnbilledMore(entered, Exec(body, entered).0, Some(|st.runs|));
        }
        UnbilledInside(st, entered, Exec(body, entered).0);
        UnbilledMore(st, Exec(body, entered).0, ActiveRun(st));
      }
    case Verb(name, route, adapter) =>
      var begun := if st.active.Some? then Invoke(st, st.active.value.run, name) else st;
      ApproachUnbilled(begun, route);
      var (s, ok) := Approach(begun, route);
      if ok {
        OnlyOwnRunBilled(adapter, s);
      }
    case Reserve(enforcer, amount) =>
    case Record(enforcer, amount) =>
  }

  lemma {:induction false} ThenBilled(p: Program, st: State)
    requires ActiveOk(st) && p.Then?
    ensures Unbilled(st, Exec(p, st).0, if Quiet(p) then None else ActiveRun(st))
    decreases p, 0
  {
    var a, b, open := p.first, p.second, if Quiet(p) then None else ActiveRun(st);
    var (s, raised) := Exec(a, st);
    OnlyOwnRunBilled(a, st);
    if Quiet(a) {
      UnbilledMore(st, s, open);
    }
    if !raised {
      OnlyOwnRunBilled(b, s);
      if Quiet(b) {
        UnbilledMore(s, Exec(b, s).0, open);
      }
      UnbilledOn(st, s, Exec(b, s).0, open);
    }
  }

  // ---------- Paying what was reserved ----------

  /** The active run, if the enforcer is its own, can still pay the amount. */
  ghost predicate CanPay(st: State, enforcer: nat, amount: Usage) {
    var run := RunOf(st, enforcer);
    run.Some? && run.value < |st.runs| ==>
      WithinBudget(st.runs[run.value].(used := Add(st.runs[run.value].used, amount)))
  }

  lemma ReservedCanPay(st: State, enforcer: nat, reserved: Usage, amount: Usage)
    requires ActiveOk(st) && !ReserveStep(st, enforcer, reserved).1 && AtMost(amount, reserved)
    ensures CanPay(st, enforcer, amount) && ReserveStep(st, enforcer, reserved).0 == st
  {
  }

  /** A quiet program does not use up what was reserved. */
  lemma StillCanPay(st: State, s: State, enforcer: nat, amount: Usage)
    requires CanPay(st, enforcer, amount) && Unbilled(st, s, None) && s.active == st.active && ActiveOk(st)
    ensures CanPay(s, enforcer, amount)
  {
  }

  lemma RecordWithin(st: State, enforcer: nat, amount: Usage)
    requires ActiveOk(st) && AllWithin(st) && CanPay(st, enforcer, amount)
    ensures AllWithin(RecordStep(st, enforcer, amount).0)
  {
  }

  /** Under that discipline no run ever exceeds its budget. */
  lemma {:induction false} BudgetsHold(p: Program, st: State)
    requires ActiveOk(st) && AllWithin(st) && (Disciplined(p) || Quiet(p))
    ensures AllWithin(Exec(p, st).0)
    decreases p, 1
  {
    match p
    case Then(a, b) =>
      if Paid(p) {
        PaidHolds(p, st);
      } else {
        BudgetsHold(a, st);
        BudgetsHold(b, Exec(a, st).0);
      }
    case Catch(a) => BudgetsHold(a, st);
    case Run(enforcer, d, traceValid, body) =>
      if traceValid {
        BudgetsHold(body, OpenRun(st, enforcer, d));
      }
    case Verb(name, route, adapter) =>
      var begun := if st.active.Some? then Invoke(st, st.active.value.run, name) else st;
      var (s, ok) := Approach(begun, route);
      if ok {
        BudgetsHold(adapter, s);
      }
    case _ =>
  }

  lemma {:induction false} PaidHolds(p: Program, st: State)
    requires ActiveOk(st) && AllWithin(st) && Paid(p)
    ensures AllWithin(Exec(p, st).0)
    decreases p, 0
  {
    var a, b := p.first, p.second;
    if ReserveStep(st, a.enforcer, a.amount).1 {
      assert Exec(p, st).0.runs == st.runs;
    } else if b.Record? {
      ReservedCanPay(st, a.enforcer, a.amount, b.amount);
      RecordWithin(st, b.enforcer, b.amount);
    } else {
      ReservedCanPay(st, a.enforcer, a.amount, b.second.amount);
      assert Exec(p, st) == Exec(b, st);
      MiddleHolds(b.first, b.second, st);
    }
  }

  lemma {:induction false} MiddleHolds(middle: Program, record: Program, st: State)
    requires ActiveOk(st) && AllWithin(st) && Quiet(middle)
    requires record.Record? && CanPay(st, record.enforcer, record.amount)
    ensures AllWithin(Exec(Then(middle, record), st).0)
    decreases middle, 2
  {
    var (s, raised) := Exec(middle, st);
    BudgetsHold(middle, st);
    OnlyOwnRunBilled(middle, st);
    if !raised {
      StillCanPay(st, s, record.enforcer, record.amount);
      RecordWithin(s, record.enforcer, record.amount);
    }
  }
}
