/** The L0b enforcer, the verb wrapper and dispatch as code that changes state step by step
    (ota_core/policy/l0b.py, ota_core/policy/__init__.py, ota_connect/binding/dispatch.py). */
module Enforcement {
  import opened Outcomes
  import opened RunPolicy
  import opened RunMeaning

  class Runtime {
    var active: Option<Active>      // the context variable
    var runs: seq<Context>          // the context objects created so far
    var nextId: nat                 // fresh invocation ids
    var log: seq<Event>

    constructor ()
      ensures St() == State(None, [], 0, [])
    {
      active, runs, nextId, log := None, [], 0, [];
    }

    function St(): State
      reads this
    {
      State(active, runs, nextId, log)
    }

    method EnforceIntegration(run: nat, integration: string) returns (allowed: bool)
      requires run < |runs|
      modifies this`log
      ensures allowed == IntegrationAllowed(runs[run].declared, integration)
      ensures log == if allowed then old(log) else old(log) + [Blocked(run, integration)]
    {
      var d := runs[run].declared;
      if d.allowed != {} && integration !in d.allowed {
        log := log + [Blocked(run, integration)];
        return false;
      }
      return true;
    }

    method EnforceScopes(run: nat, integration: string, required: seq<string>) returns (granted: bool)
      requires run < |runs|
      modifies this`log
      ensures granted <==> forall s :: s in required ==> s in DeclaredScopes(runs[run].declared, integration)
      ensures var missing := Missing(required, DeclaredScopes(runs[run].declared, integration));
              log == if granted then old(log) else old(log) + [ScopeEscalation(run, integration, missing)]
    {
      var missing := Missing(required, DeclaredScopes(runs[run].declared, integration));
      if missing != [] {
        assert missing[0] in missing;
        log := log + [ScopeEscalation(run, integration, missing)];
        return false;
      }
      return true;
    }

    /** The part of dispatch before the adapter's own code. */
    method ApproachAdapter(route: Route) returns (reached: bool)
      requires ActiveOk(St())
      modifies this`log
      ensures (St(), reached) == Approach(old(St()), route)
    {
      if !route.Bound? {
        return false;
      }
      if active.Some? {
        var run := active.value.run;
        var allowed := EnforceIntegration(run, route.integration);
        if !allowed {
          return false;
        }
        if route.required != [] {
          var granted := EnforceScopes(run, route.integration, route.required);
          if !granted {
            return false;
          }
        }
        ScopesChecked(route.required, DeclaredScopes(runs[run].declared, route.integration));
      }
      log := log + [AdapterCalled(ActiveRun(St()), route.integration, route.required)];
      return true;
    }

    method RecordVerbInvocation(verb: string) returns (id: nat)
      requires ActiveOk(St()) && active.Some?
      modifies this
      ensures id == old(nextId) && St() == Invoke(old(St()), old(active).value.run, verb)
      ensures log == old(log) + [Invoked(old(active).value.run, id, verb)]
    {
      var run := active.value.run;
      runs := runs[run := runs[run].(toolCalls := runs[run].toolCalls + 1)];
      id := nextId;
      nextId := nextId + 1;
      log := log + [Invoked(run, id, verb)];
    }

    method ReserveLlmBudget(enforcer: nat, amount: Usage) returns (raised: bool)
      requires ActiveOk(St())
      modifies this`log
      ensures (St(), raised) == ReserveStep(old(St()), enforcer, amount)
      ensures raised <==> !Owns(St(), enforcer)
                          || var c := runs[active.value.run];
                             OverInput(c, amount) || OverOutput(c, amount) || OverUsd(c, amount)
    {
      var owner := RunOf(St(), enforcer);
      if owner.None? {
        return true;
      }
      var c := runs[owner.value];
      if c.declared.budget.None? {
        return false;
      }
      var b := c.declared.budget.value;
      if b.maxInput.Some? && c.used.input + amount.input > b.maxInput.value {
        log := log + [BudgetExceeded(owner.value, InputTokens)];
        return true;
      }
      if b.maxOutput.Some? && c.used.output + amount.output > b.maxOutput.value {
        log := log + [BudgetExceeded(owner.value, OutputTokens)];
        return true;
      }
      if b.maxUsd.Some? && c.used.usd + amount.usd > b.maxUsd.value {
        log := log + [BudgetExceeded(owner.value, Usd)];
        return true;
      }
      return false;
    }

    method RecordLlmUsage(enforcer: nat, amount: Usage) returns (raised: bool)
      requires ActiveOk(St())
      modifies this
      ensures (St(), raised) == RecordStep(old(St()), enforcer, amount)
      ensures raised <==> !Owns(old(St()), enforcer)
      ensures !raised ==> log == old(log) + [ModelResponse(old(active).value.run, amount)]
    {
      var owner := RunOf(St(), enforcer);
      if owner.None? {
        return true;
      }
      var c := runs[owner.value];
      runs := runs[owner.value := c.(used := Add(c.used, amount))];
      log := log + [ModelResponse(owner.value, amount)];
      return false;
    }

    /** `with enforcer.routine_run(ctx): body`. */
    method RoutineRun(enforcer: nat, d: Declaration, traceValid: bool, body: Program) returns (raised: bool)
      requires ActiveOk(St())
      modifies this
      ensures (St(), raised) == Exec(Run(enforcer, d, traceValid, body), old(St()))
      ensures !traceValid ==> raised && log == old(log)
      ensures traceValid && raised ==> log != [] && log[|log| - 1] == RunFailed(|old(runs)|)
      ensures traceValid && !raised ==>
                && log != [] && |runs| > |old(runs)|
                && log[|log| - 1] == RunCompleted(|old(runs)|, runs[|old(runs)|].toolCalls, runs[|old(runs)|].used)
      decreases body, 1
    {
      var token := active;
      var run := |runs|;
      if !traceValid {
        return true;
      }
      runs := runs + [Context(d, NOTHING, 0)];
      active := Some(Active(enforcer, run));
      log := log + [RunStarted(run)];
      raised := Execute(body);
      if raised {
        log := log + [RunFailed(run)];
      } else {
        log := log + [RunCompleted(run, runs[run].toolCalls, runs[run].used)];
      }
      active := token;
    }

    /** The verb wrapper around a dispatched capability call. */
    method CallVerb(name: string, route: Route, adapter: Program) returns (raised: bool)
      requires ActiveOk(St())
      modifies this
      ensures (St(), raised) == Exec(Verb(name, route, adapter), old(St()))
      ensures old(active).Some? ==>
                log != [] && log[|log| - 1] == Finished(old(active).value.run, old(nextId), !raised)
      decreases adapter, 2
    {
      if active.None? {
        raised := Dispatch(route, adapter);
        return;
      }
      var run := active.value.run;
      var id := RecordVerbInvocation(name);
      raised := Dispatch(route, adapter);
      log := log + [Finished(run, id, !raised)];
    }

    method Dispatch(route: Route, adapter: Program) returns (raised: bool)
      requires ActiveOk(St())
      modifies this
      ensures var (s, ok) := Approach(old(St()), route);
              (St(), raised) == if ok then Exec(adapter, s) else (s, true)
      decreases adapter, 1
    {
      var reached := ApproachAdapter(route);
      if !reached {
        return true;
      }
      raised := Execute(adapter);
    }

    method Execute(p: Program) returns (raised: bool)
      requires ActiveOk(St())
      modifies this
      ensures (St(), raised) == Exec(p, old(St()))
      decreases p, 0
    {
      match p
      case Skip => raised := false;
      case Raise => raised := true;
      case Then(a, b) =>
        raised := Execute(a);
        if !raised {
          raised := Execute(b);
        }
      case Catch(a) =>
        var ignored := Execute(a);
        raised := false;
      case Run(enforcer, d, traceValid, body) => raised := RoutineRun(enforcer, d, traceValid, body);
      case Verb(name, route, adapter) => raised := CallVerb(name, route, adapter);
      case Reserve(enforcer, amount) => raised := ReserveLlmBudget(enforcer, amount);
      case Record(enforcer, amount) => raised := RecordLlmUsage(enforcer, amount);
    }
  }

  lemma ScopesChecked(required: seq<string>, declared: set<string>)
    ensures Missing(required, declared) == [] <==> forall s :: s in required ==> s in declared
  {
    var missing := Missing(required, declared);
    if missing != [] {
      assert missing[0] in missing;
    }
  }
}
