/** The install-time validator (ota_connect/binding/validator.py).  Each method reports an
    issue exactly when the matching predicate of InstallSpec holds of it. */
module Validator {
  import opened Outcomes
  import opened Bindings
  import opened InstallSpec

  method CheckKey(b: Bindings, folders: seq<Folder>, capability: string, key: string) returns (issues: seq<Issue>)
    requires key in b.adapters && Relevant(key, capability)
    ensures forall i :: i in issues <==> Reported(b, folders, capability, i) && AboutKey(i, key)
  {
    issues := [];
    var id := b.adapters[key];
    if id !in KnownIds(folders) {
      return [Undiscoverable(key, id)];
    }
    var bundle := BundleOf(Readable(folders), id);
    if bundle.Some? && !Satisfies(bundle.value, capability) {
      issues := [Unclaimed(id, key, capability)];
    }
  }

  ghost predicate AboutKey(i: Issue, key: string) {
    match i
    case Undiscoverable(k, _) => k == key
    case Unclaimed(_, k, _) => k == key
    case _ => false
  }

  method CheckCapability(b: Bindings, folders: seq<Folder>, capability: string) returns (issues: seq<Issue>)
    requires WellFormed(b)
    ensures forall i :: i in issues <==> Reported(b, folders, capability, i)
  {
    var relevant: seq<string> := [];
    for n := 0 to |b.order|
      invariant forall k :: k in relevant <==> k in b.order[..n] && Relevant(k, capability)
    {
      if Relevant(b.order[n], capability) {
        relevant := relevant + [b.order[n]];
      }
    }
    if relevant == [] {
      return [Unbound(capability)];
    }
    assert relevant[0] in relevant;
    issues := [];
    for n := 0 to |relevant|
      invariant forall i :: i in issues <==>
                  Reported(b, folders, capability, i) && exists k :: k in relevant[..n] && AboutKey(i, k)
    {
      assert relevant[n] in relevant;
      var more := CheckKey(b, folders, capability, relevant[n]);
      issues := issues + more;
      assert relevant[..n + 1] == relevant[..n] + [relevant[n]];
    }
    assert relevant[..|relevant|] == relevant;
  }

  /** `_check_capability_bindings`, in any order of the required capabilities. */
  method CheckCapabilityBindings(required: set<string>, b: Bindings, folders: seq<Folder>)
    returns (r: Result<seq<Issue>, AdapterError>)
    requires WellFormed(b)
    ensures r.Err? <==> DiscoverAll(folders).Err?
    ensures r.Err? ==> r.error == DiscoverAll(folders).error
    ensures r.Ok? ==> forall i :: i in r.value <==> exists c :: c in required && Reported(b, folders, c, i)
  {
    var bundles := DiscoverAll(folders);
    if bundles.Err? {
      return Err(bundles.error);
    }
    var issues: seq<Issue> := [];
    var rest := required;
    while rest != {}
      invariant rest <= required
      invariant forall i :: i in issues <==> exists c :: c in required - rest && Reported(b, folders, c, i)
    {
      var capability :| capability in rest;
      var more := CheckCapability(b, folders, capability);
      issues := issues + more;
      rest := rest - {capability};
    }
    r := Ok(issues);
  }

  method CheckDependency(all: seq<Integration>, d: Dependency) returns (issues: seq<Issue>)
    ensures forall i :: i in issues <==> DependencyReported(all, d, i)
  {
    var integration := IntegrationOf(all, d.id);
    if integration.None? {
      return [UnknownIntegration(d.id)];
    }
    issues := if d.level !in integration.value.levels then [UnsupportedLevel(d.id, d.level)] else [];
    for n := 0 to |d.scopes|
      invariant forall i :: i in issues <==>
                  DependencyReported(all, d, i) && (i.UnknownScope? ==> i.scope in d.scopes[..n])
    {
      assert d.scopes[..n + 1] == d.scopes[..n] + [d.scopes[n]];
      if d.scopes[n] !in integration.value.vocabulary {
        issues := issues + [UnknownScope(d.id, d.scopes[n])];
      }
    }
    assert d.scopes[..|d.scopes|] == d.scopes;
  }

  method CheckIntegrationDependencies(all: seq<Integration>, dependencies: seq<Dependency>) returns (issues: seq<Issue>)
    ensures forall i :: i in issues <==> exists d :: d in dependencies && DependencyReported(all, d, i)
  {
    issues := [];
    for n := 0 to |dependencies|
      invariant forall i :: i in issues <==> exists d :: d in dependencies[..n] && DependencyReported(all, d, i)
    {
      assert dependencies[..n + 1] == dependencies[..n] + [dependencies[n]];
      var more := CheckDependency(all, dependencies[n]);
      issues := issues + more;
    }
    assert dependencies[..|dependencies|] == dependencies;
  }

  /** `validate_routine_install`: a clean report means every required capability and every
      dependency is fine. */
  method ValidateRoutineInstall(
      consumes: set<string>, required: set<string>, b: Bindings, folders: seq<Folder>,
      dependencies: seq<Dependency>, all: seq<Integration>)
    returns (r: Result<seq<Issue>, AdapterError>)
    requires WellFormed(b)
    ensures r.Ok? <==> DiscoverAll(folders).Ok?
    ensures r.Ok? ==> forall i :: i in r.value <==>
                        || (exists c :: c in consumes + required && Reported(b, folders, c, i))
                        || exists d :: d in dependencies && DependencyReported(all, d, i)
    ensures r.Ok? ==>
              (r.value == [] <==>
                 && (forall c :: c in consumes + required ==> CapabilityFine(b, folders, c))
                 && forall d :: d in dependencies ==> DependencyFine(all, d))
  {
    var capabilities := CheckCapabilityBindings(consumes + required, b, folders);
    if capabilities.Err? {
      return capabilities;
    }
    var integrations := CheckIntegrationDependencies(all, dependencies);
    r := Ok(capabilities.value + integrations);
    CleanIffFine(consumes + required, b, folders, dependencies, all, capabilities.value, integrations);
  }

  lemma CleanIffFine(
      required: set<string>, b: Bindings, folders: seq<Folder>, dependencies: seq<Dependency>, all: seq<Integration>,
      issues: seq<Issue>, more: seq<Issue>)
    requires forall i :: i in issues <==> exists c :: c in required && Reported(b, folders, c, i)
    requires forall i :: i in more <==> exists d :: d in dependencies && DependencyReported(all, d, i)
    ensures issues + more == [] <==>
            && (forall c :: c in required ==> CapabilityFine(b, folders, c))
            && forall d :: d in dependencies ==> DependencyFine(all, d)
  {
    if issues + more == [] {
      forall c | c in required ensures CapabilityFine(b, folders, c) {
        assert forall i :: Reported(b, folders, c, i) ==> i in issues;
        NothingReportedIffFine(b, folders, c);
      }
      forall d | d in dependencies ensures DependencyFine(all, d) {
        assert forall i :: DependencyReported(all, d, i) ==> i in more;
        NoDependencyReportedIffFine(all, d);
      }
    } else if issues != [] {
      assert issues[0] in issues;
      var c :| c in required && Reported(b, folders, c, issues[0]);
      NothingReportedIffFine(b, folders, c);
    } else {
      assert more[0] in more;
      var d :| d in dependencies && DependencyReported(all, d, more[0]);
      NoDependencyReportedIffFine(all, d);
    }
  }
}
