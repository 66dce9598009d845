/** Programs of nested routine runs, verb calls, model usage and exceptions, and what they
    do under the L0b enforcer (ota_core/policy/l0b.py, the verb wrapper of
    ota_core/policy/__init__.py and ota_connect/binding/dispatch.py). */
module RunPolicy {
  import opened Outcomes

  // ---------- Programs ----------

  type TokenLimit = n: int | n > 0 witness 1
  type UsdLimit = x: real | x > 0.0 witness 1.0

  datatype Budget = Budget(maxInput: Option<TokenLimit>, maxOutput: Option<TokenLimit>, maxUsd: Option<UsdLimit>)

  /** What a run's context declares. */
  datatype Declaration = Declaration(
    allowed: set<string>,                   // empty: every integration
    scopes: map<string, set<string>>,
    budget: Option<Budget>)

  datatype Usage = Usage(input: int, output: int, usd: real)

  /** What dispatch finds for a verb: a failure before any adapter, or an adapter. */
  datatype Route =
    | NotConfigured
    | NoBinding
    | LoadFails
    | Bound(integration: string, required: seq<string>)

  datatype Program =
    | Skip
    | Raise
    | Then(first: Program, second: Program)
    | Catch(body: Program)
    | Run(enforcer: nat, declared: Declaration, traceValid: bool, body: Program)
    | Verb(name: string, route: Route, adapter: Program)
    | Reserve(enforcer: nat, amount: Usage)
    | Record(enforcer: nat, amount: Usage)

  // ---------- State ----------

  /** A context object: what it declares and its counters. */
  datatype Context = Context(declared: Declaration, used: Usage, toolCalls: int)

  datatype Active = Active(enforcer: nat, run: nat)

  datatype Event =
    | RunStarted(run: nat)
    | RunCompleted(run: nat, toolCalls: int, used: Usage)
    | RunFailed(run: nat)
    | Invoked(run: nat, id: nat, verb: string)
    | Finished(run: nat, id: nat, succeeded: bool)
    | Blocked(run: nat, integration: string)
    | ScopeEscalation(run: nat, integration: string, missing: seq<string>)
    | BudgetExceeded(run: nat, kind: Kind)
    | ModelResponse(run: nat, amount: Usage)
    | AdapterCalled(caller: Option<nat>, integration: string, required: seq<string>)  // an effect, not an audit event

  datatype Kind = InputTokens | OutputTokens | Usd

  datatype State = State(active: Option<Active>, runs: seq<Context>, nextId: nat, log: seq<Event>)

  predicate ActiveOk(st: State) {
    st.active.Some? ==> st.active.value.run < |st.runs|
  }

  function ActiveRun(st: State): Option<nat> {
    if st.active.Some? then Some(st.active.value.run) else None
  }

  function Emit(st: State, ev: Event): State {
    st.(log := st.log + [ev])
  }

  const NOTHING := Usage(0, 0, 0.0)

  function Add(a: Usage, b: Usage): Usage {
    Usage(a.input + b.input, a.output + b.output, a.usd + b.usd)
  }

  // ---------- The steps of the code ----------

  function OpenRun(st: State, enforcer: nat, d: Declaration): State {
    State(Some(Active(enforcer, |st.runs|)), st.runs + [Context(d, NOTHING, 0)], st.nextId,
          st.log + [RunStarted(|st.runs|)])
  }

  function CloseRun(st: State, run: nat, raised: bool, outer: Option<Active>): State
    requires run < |st.runs|
  {
    var c := st.runs[run];
    Emit(st, if raised then RunFailed(run) else RunCompleted(run, c.toolCalls, c.used)).(active := outer)
  }

  function Invoke(st: State, run: nat, verb: string): State
    requires run < |st.runs|
  {
    State(st.active, st.runs[run := st.runs[run].(toolCalls := st.runs[run].toolCalls + 1)], st.nextId + 1,
          st.log + [Invoked(run, st.nextId, verb)])
  }

  predicate IntegrationAllowed(d: Declaration, integration: string) {
    d.allowed == {} || integration in d.allowed
  }

  function DeclaredScopes(d: Declaration, integration: string): set<string> {
    if integration in d.scopes then d.scopes[integration] else {}
  }

  function Missing(required: seq<string>, declared: set<string>): (missing: seq<string>)
    ensures forall s :: s in missing <==> s in required && s !in declared
  {
    if required == [] then []
    else (if required[0] in declared then [] else [required[0]]) + Missing(required[1..], declared)
  }

  /** The two policy checks of a run before its adapter is called; false means an exception. */
  function Check(st: State, run: nat, integration: string, required: seq<string>): (State, bool)
    requires run < |st.runs|
  {
    var d := st.runs[run].declared;
    var missing := Missing(required, DeclaredScopes(d, integration));
    if !IntegrationAllowed(d, integration) then (Emit(st, Blocked(run, integration)), false)
    else if missing != [] then (Emit(st, ScopeEscalation(run, integration, missing)), false)
    else (st, true)
  }

  /** Everything dispatch does before the adapter's own code. */
  function Approach(st: State, route: Route): (State, bool)
    requires ActiveOk(st)
  {
    if !route.Bound? then (st, false)
    else
      var (c, ok) :=
        if st.active.Some? then Check(st, st.active.value.run, route.integration, route.required) else (st, true);
      if ok then (Emit(c, AdapterCalled(ActiveRun(st), route.integration, route.required)), true) else (c, false)
  }

  function Exceeded(b: Budget, used: Usage, amount: Usage): Option<Kind> {
    if b.maxInput.Some? && used.input + amount.input > b.maxInput.value then Some(InputTokens)
    else if b.maxOutput.Some? && used.output + amount.output > b.maxOutput.value then Some(OutputTokens)
    else if b.maxUsd.Some? && used.usd + amount.usd > b.maxUsd.value then Some(Usd)
    else None
  }

  /** The run of the active context if it belongs to the enforcer asked. */
  function RunOf(st: State, enforcer: nat): Option<nat> {
    if st.active.Some? && st.active.value.enforcer == enforcer then Some(st.active.value.run) else None
  }

  function ReserveStep(st: State, enforcer: nat, amount: Usage): (State, bool)
    requires ActiveOk(st)
  {
    match RunOf(st, enforcer)
    case None => (st, true)
    case Some(run) =>
      var c := st.runs[run];
      if c.declared.budget.None? then (st, false)
      else
        match Exceeded(c.declared.budget.value, c.used, amount)
        case None => (st, false)
        case Some(kind) => (Emit(st, BudgetExceeded(run, kind)), true)
  }

  function RecordStep(st: State, enforcer: nat, amount: Usage): (State, bool)
    requires ActiveOk(st)
  {
    match RunOf(st, enforcer)
    case None => (st, true)
    case Some(run) =>
      var c := st.runs[run];
      (Emit(st.(runs := st.runs[run := c.(used := Add(c.used, amount))]), ModelResponse(run, amount)), false)
  }

  /** What a program does, and whether it ends with an exception.  The active context is
      always restored, and contexts are never dropped. */
  function Exec(p: Program, st: State): (r: (State, bool))
    requires ActiveOk(st)
    ensures r.0.active == st.active && |r.0.runs| >= |st.runs|
    decreases p
  {
    match p
    case Skip => (st, false)
    case Raise => (st, true)
    case Then(a, b) =>
      var (s, raised) := Exec(a, st);
      if raised then (s, true) else Exec(b, s)
    case Catch(a) => (Exec(a, st).0, false)
    case Run(enforcer, d, traceValid, body) =>
      if !traceValid then (st, true)
      else
        var (s, raised) := Exec(body, OpenRun(st, enforcer, d));
        (CloseRun(s, |st.runs|, raised, st.active), raised)
    case Verb(name, route, adapter) =>
      var begun := if st.active.Some? then Invoke(st, st.active.value.run, name) else st;
      var (s, ok) := Approach(begun, route);
      var (t, raised) := if ok then Exec(adapter, s) else (s, true);
      (if st.active.Some? then Emit(t, Finished(st.active.value.run, st.nextId, !raised)) else t, raised)
    case Reserve(enforcer, amount) => ReserveStep(st, enforcer, amount)
    case Record(enforcer, amount) => RecordStep(st, enforcer, amount)
  }
}
