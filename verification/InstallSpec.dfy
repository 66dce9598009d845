/** What the install-time validator (ota_connect/binding/validator.py) reports, and what a
    clean report promises the resolver and the adapter registry. */
module InstallSpec {
  import opened Outcomes
  import Text
  import opened Bindings
  import opened Sorting

  // ---------- Adapter discovery (ota_core/integration_source/source.py) ----------

  datatype Manifest = Manifest(adapterId: string, claims: seq<string>, entrypoint: Option<string>)

  /** What one candidate directory holds. */
  datatype Folder = NoManifest | Broken | Good(manifest: Manifest)

  datatype AdapterError = BrokenManifest | DuplicateAdapter | AdapterNotFound | LoadFailed

  predicate Satisfies(m: Manifest, capability: string) {
    capability in m.claims
  }

  /** The manifests of the folders that have a readable one. */
  function Readable(folders: seq<Folder>): seq<Manifest> {
    if folders == [] then []
    else
      var n := |folders| - 1;
      Readable(folders[..n]) + if folders[n].Good? then [folders[n].manifest] else []
  }

  lemma {:induction false} ReadableMeans(folders: seq<Folder>, m: Manifest)
    ensures m in Readable(folders) <==> Good(m) in folders
  {
    if folders != [] {
      var n := |folders| - 1;
      ReadableMeans(folders[..n], m);
      assert folders == folders[..n] + [folders[n]];
    }
  }

  /** `list_ids` skips folders it cannot read. */
  function KnownIds(folders: seq<Folder>): seq<string> {
    Ids(Readable(folders))
  }

  function Ids(ms: seq<Manifest>): seq<string> {
    if ms == [] then [] else Ids(ms[..|ms| - 1]) + [ms[|ms| - 1].adapterId]
  }

  /** `discover_all` raises for an unreadable manifest and for a repeated id. */
  function DiscoverAll(folders: seq<Folder>): Result<seq<Manifest>, AdapterError> {
    if Broken in folders then Err(BrokenManifest)
    else if !NoRepeats(KnownIds(folders)) then Err(DuplicateAdapter)
    else Ok(Readable(folders))
  }

  function WithId(ms: seq<Manifest>, id: string): seq<Manifest> {
    if ms == [] then []
    else
      var n := |ms| - 1;
      WithId(ms[..n], id) + if ms[n].adapterId == id then [ms[n]] else []
  }

  /** The manifest that `source.load` finds. */
  function Find(folders: seq<Folder>, id: string): Result<Manifest, AdapterError> {
    if Broken in folders then Err(BrokenManifest)
    else
      var candidates := WithId(Readable(folders), id);
      if candidates == [] then Err(AdapterNotFound)
      else if |candidates| > 1 then Err(DuplicateAdapter)
      else Ok(candidates[0])
  }

  // ---------- Instantiation (ota_connect/binding/registry.py) ----------

  /** The registered factories with whether they succeed, and which entry points import and
      instantiate. */
  datatype Plugins = Plugins(factories: map<string, bool>, imports: string -> bool)

  /** `module:attribute`, both parts non-empty. */
  predicate EntrypointForm(e: string) {
    0 < Text.IndexOf(e, ':') < |e| - 1
  }

  /** A factory takes precedence over the manifest's entry point; one of them is needed. */
  predicate Instantiates(m: Manifest, p: Plugins) {
    if m.adapterId in p.factories then p.factories[m.adapterId]
    else m.entrypoint.Some? && EntrypointForm(m.entrypoint.value) && p.imports(m.entrypoint.value)
  }

  /** An entry point is two non-empty texts around the first colon. */
  lemma EntrypointMeans(m: string, attribute: string)
    requires ':' !in m
    ensures EntrypointForm(m + [':'] + attribute) <==> m != "" && attribute != ""
    ensures !EntrypointForm(m)
  {
    Text.IndexOfFirst(m, ':', attribute);
  }

  /** With a factory its outcome decides, and the entry point is not looked at; without one
      the entry point must be there, have its form, and import. */
  lemma InstantiatesMeans(id: string, claims: seq<string>, entrypoint: Option<string>, p: Plugins)
    ensures var m := Manifest(id, claims, entrypoint);
            && (id in p.factories ==> Instantiates(m, p) == p.factories[id])
            && (id !in p.factories && entrypoint.None? ==> !Instantiates(m, p))
            && (id !in p.factories && entrypoint.Some? ==>
                  (Instantiates(m, p) <==> EntrypointForm(entrypoint.value) && p.imports(entrypoint.value)))
  {
  }

  /** `registry.load` for an adapter that has not been loaded before. */
  function Load(folders: seq<Folder>, p: Plugins, id: string): Result<Manifest, AdapterError> {
    match Find(folders, id)
    case Err(e) => Err(e)
    case Ok(m) => if Instantiates(m, p) then Ok(m) else Err(LoadFailed)
  }

  // ---------- Issues ----------

  datatype Issue =
    | Unbound(capability: string)
    | Undiscoverable(key: string, adapterId: string)
    | Unclaimed(adapterId: string, key: string, capability: string)
    | UnknownIntegration(integration: string)
    | UnsupportedLevel(integration: string, level: string)
    | UnknownScope(integration: string, scope: string)

  predicate Relevant(key: string, capability: string) {
    key == capability || StartsWith(key, capability + ".")
  }

  /** A key is relevant exactly if the capability is a dotted prefix of it. */
  lemma RelevantMeans(key: string, capability: string)
    ensures Relevant(key, capability) <==> DottedPrefix(capability, key)
  {
  }

  /** The last manifest with the id: a dict built in order keeps the last. */
  function BundleOf(ms: seq<Manifest>, id: string): Option<Manifest> {
    var found := WithId(ms, id);
    if found == [] then None else Some(found[|found| - 1])
  }

  /** Nothing to report about one key of one capability. */
  predicate KeyFine(b: Bindings, folders: seq<Folder>, capability: string, key: string)
    requires key in b.adapters
  {
    var id := b.adapters[key];
    && id in KnownIds(folders)
    && var m := BundleOf(Readable(folders), id); m.Some? ==> Satisfies(m.value, capability)
  }

  ghost predicate CapabilityFine(b: Bindings, folders: seq<Folder>, capability: string) {
    && (exists k :: k in b.adapters && Relevant(k, capability))
    && forall k :: k in b.adapters && Relevant(k, capability) ==> KeyFine(b, folders, capability, k)
  }

  datatype Dependency = Dependency(id: string, level: string, scopes: seq<string>)

  datatype Integration = Integration(id: string, levels: seq<string>, vocabulary: seq<string>)

  function IntegrationOf(all: seq<Integration>, id: string): Option<Integration> {
    if all == [] then None
    else if all[|all| - 1].id == id then Some(all[|all| - 1])
    else IntegrationOf(all[..|all| - 1], id)
  }

  /** Integration number `i` is the last with the id. */
  ghost predicate LastNamed(all: seq<Integration>, id: string, i: int) {
    0 <= i < |all| && all[i].id == id && forall j :: i < j < |all| ==> all[j].id != id
  }

  /** The registry is a dict by id: the last entry counts. */
  lemma {:induction false} IntegrationIsLastNamed(all: seq<Integration>, id: string, i: int)
    ensures LastNamed(all, id, i) ==> IntegrationOf(all, id) == Some(all[i])
    ensures IntegrationOf(all, id) == None ==> !LastNamed(all, id, i)
    decreases |all|
  {
    if all != [] && all[|all| - 1].id != id {
      IntegrationIsLastNamed(all[..|all| - 1], id, i);
      if LastNamed(all, id, i) {
        assert LastNamed(all[..|all| - 1], id, i);
      }
    }
  }

  ghost predicate DependencyFine(all: seq<Integration>, d: Dependency) {
    var i := IntegrationOf(all, d.id);
    i.Some? && d.level in i.value.levels && forall s :: s in d.scopes ==> s in i.value.vocabulary
  }

  // ---------- What is reported ----------

  /** The issues of one required capability. */
  ghost predicate Reported(b: Bindings, folders: seq<Folder>, capability: string, issue: Issue) {
    match issue
    case Unbound(c) => c == capability && forall k :: k in b.adapters ==> !Relevant(k, capability)
    case Undiscoverable(key, id) =>
      && key in b.adapters && Relevant(key, capability)
      && id == b.adapters[key] && id !in KnownIds(folders)
    case Unclaimed(id, key, c) =>
      && c == capability && key in b.adapters && Relevant(key, capability)
      && id == b.adapters[key] && id in KnownIds(folders)
      && var m := BundleOf(Readable(folders), id); m.Some? && !Satisfies(m.value, capability)
    case _ => false
  }

  /** The issues of one integration dependency. */
  ghost predicate DependencyReported(all: seq<Integration>, d: Dependency, issue: Issue) {
    var i := IntegrationOf(all, d.id);
    match issue
    case UnknownIntegration(id) => id == d.id && i.None?
    case UnsupportedLevel(id, level) => id == d.id && level == d.level && i.Some? && level !in i.value.levels
    case UnknownScope(id, scope) => id == d.id && scope in d.scopes && i.Some? && scope !in i.value.vocabulary
    case _ => false
  }

  lemma NothingReportedIffFine(b: Bindings, folders: seq<Folder>, capability: string)
    ensures (forall issue :: !Reported(b, folders, capability, issue)) <==> CapabilityFine(b, folders, capability)
  {
    if forall issue :: !Reported(b, folders, capability, issue) {
      assert !Reported(b, folders, capability, Unbound(capability));
      forall k | k in b.adapters && Relevant(k, capability) ensures KeyFine(b, folders, capability, k) {
        assert !Reported(b, folders, capability, Undiscoverable(k, b.adapters[k]));
        assert !Reported(b, folders, capability, Unclaimed(b.adapters[k], k, capability));
      }
    }
  }

  lemma NoDependencyReportedIffFine(all: seq<Integration>, d: Dependency)
    ensures (forall issue :: !DependencyReported(all, d, issue)) <==> DependencyFine(all, d)
  {
    if forall issue :: !DependencyReported(all, d, issue) {
      assert !DependencyReported(all, d, UnknownIntegration(d.id));
      assert !DependencyReported(all, d, UnsupportedLevel(d.id, d.level));
      forall s | s in d.scopes
        ensures IntegrationOf(all, d.id).Some? && s in IntegrationOf(all, d.id).value.vocabulary
      {
        assert !DependencyReported(all, d, UnknownScope(d.id, s));
      }
    }
  }

  // ---------- Discovery ----------

  lemma {:induction false} IdsMember(ms: seq<Manifest>)
    ensures |Ids(ms)| == |ms| && forall i :: 0 <= i < |ms| ==> Ids(ms)[i] == ms[i].adapterId
  {
    if ms != [] {
      IdsMember(ms[..|ms| - 1]);
    }
  }

  /** Among distinct ids each has one manifest. */
  lemma {:induction false} OneWithId(ms: seq<Manifest>, id: string)
    ensures forall m :: m in WithId(ms, id) ==> m.adapterId == id && m in ms
    ensures id in Ids(ms) <==> WithId(ms, id) != []
    ensures NoRepeats(Ids(ms)) ==> |WithId(ms, id)| <= 1
  {
    if ms != [] {
      var n := |ms| - 1;
      OneWithId(ms[..n], id);
      IdsMember(ms);
      IdsMember(ms[..n]);
      if NoRepeats(Ids(ms)) && ms[n].adapterId == id {
        assert NoRepeats(Ids(ms[..n]));
        assert id !in Ids(ms[..n]);
      }
    }
  }

  /** After a discovery without errors an adapter is found iff it is a known id, and what is
      found is the manifest the validator looked at. */
  lemma FoundIffKnown(folders: seq<Folder>, id: string)
    requires DiscoverAll(folders).Ok?
    ensures Find(folders, id).Ok? <==> id in KnownIds(folders)
    ensures Find(folders, id).Ok? ==> BundleOf(Readable(folders), id) == Some(Find(folders, id).value)
                                      && Find(folders, id).value.adapterId == id
  {
    OneWithId(Readable(folders), id);
    if WithId(Readable(folders), id) != [] {
      assert WithId(Readable(folders), id)[0] in WithId(Readable(folders), id);
    }
  }

  lemma {:induction false} WithIdCounts(ms: seq<Manifest>, id: string)
    ensures |WithId(ms, id)| == multiset(Ids(ms))[id]
  {
    if ms != [] {
      WithIdCounts(ms[..|ms| - 1], id);
    }
  }

  /** Looking an adapter up fails for any broken manifest, and otherwise by how many of the
      readable ones have its id. */
  lemma FindMeans(folders: seq<Folder>, id: string)
    ensures var n := multiset(KnownIds(folders))[id];
            && (Find(folders, id) == Err(BrokenManifest) <==> Broken in folders)
            && (Find(folders, id) == Err(AdapterNotFound) <==> Broken !in folders && n == 0)
            && (Find(folders, id) == Err(DuplicateAdapter) <==> Broken !in folders && n > 1)
            && (Find(folders, id).Ok? <==> Broken !in folders && n == 1)
  {
    WithIdCounts(Readable(folders), id);
  }

  /** Discovery fails for any broken manifest, and otherwise for an id that occurs twice. */
  lemma DiscoverMeans(folders: seq<Folder>)
    ensures DiscoverAll(folders) == Err(BrokenManifest) <==> Broken in folders
    ensures DiscoverAll(folders) == Err(DuplicateAdapter) <==> Broken !in folders && !NoRepeats(KnownIds(folders))
    ensures DiscoverAll(folders).Ok? <==> Broken !in folders && NoRepeats(KnownIds(folders))
  {
  }

  /** Loading fails as looking up does, or because what was found does not instantiate. */
  lemma LoadMeans(folders: seq<Folder>, p: Plugins, id: string)
    ensures Find(folders, id).Err? ==> Load(folders, p, id) == Find(folders, id)
    ensures Load(folders, p, id) == Err(LoadFailed)
            <==> Find(folders, id).Ok? && !Instantiates(Find(folders, id).value, p)
  {
    FindMeans(folders, id);
  }

  // ---------- A clean report and the resolver ----------

  /** The verb is answered by a key that the validator looked at. */
  ghost predicate Examined(b: Bindings, capability: string, verb: string)
    requires WellFormed(b)
  {
    var r := Resolve(b, capability, verb);
    r.Some? && Relevant(r.value.matchedKey, capability)
  }

  lemma BoundIsExamined(b: Bindings, capability: string, verb: string)
    requires WellFormed(b) && capability in b.adapters
    ensures Examined(b, capability, verb)
  {
    ResolveIsLongest(b, capability, verb);
    CapabilityIsPrefix(capability, verb);
    var key := Resolve(b, capability, verb).value.matchedKey;
    PrefixesNest(capability, key, Target(capability, verb));
  }

  /** The call goes to an adapter that can be found and claims the capability. */
  ghost predicate Assigned(b: Bindings, folders: seq<Folder>, capability: string, verb: string)
    requires WellFormed(b)
  {
    var r := Resolve(b, capability, verb);
    r.Some? && var m := Find(folders, r.value.adapterId); m.Ok? && Satisfies(m.value, capability)
  }

  /** The call also gets past `registry.load`. */
  ghost predicate Served(b: Bindings, folders: seq<Folder>, p: Plugins, capability: string, verb: string)
    requires WellFormed(b)
  {
    var r := Resolve(b, capability, verb);
    r.Some? && var m := Load(folders, p, r.value.adapterId); m.Ok? && Satisfies(m.value, capability)
  }

  /** Validated and itself bound: every verb is assigned to a discoverable adapter that claims
      the capability, and is served iff that adapter instantiates, which validation does not
      look at. */
  lemma ValidatedIsAssigned(b: Bindings, folders: seq<Folder>, p: Plugins, capability: string, verb: string)
    requires WellFormed(b) && DiscoverAll(folders).Ok?
    requires CapabilityFine(b, folders, capability) && capability in b.adapters
    ensures Assigned(b, folders, capability, verb)
    ensures Served(b, folders, p, capability, verb)
            <==> Instantiates(Find(folders, Resolve(b, capability, verb).value.adapterId).value, p)
  {
    BoundIsExamined(b, capability, verb);
    ResolveIsLongest(b, capability, verb);
    var r := Resolve(b, capability, verb).value;
    assert KeyFine(b, folders, capability, r.matchedKey);
    FoundIffKnown(folders, r.adapterId);
  }

  /** An adapter without entry point and factory passes validation, and no verb is served. */
  lemma ValidatedMayNotLoad(capability: string, verb: string, id: string, p: Plugins)
    requires id !in p.factories
    ensures var b, folders := Bindings([capability], map[capability := id]), [Good(Manifest(id, [capability], None))];
            && WellFormed(b) && DiscoverAll(folders).Ok? && CapabilityFine(b, folders, capability)
            && !Served(b, folders, p, capability, verb)
  {
    var m := Manifest(id, [capability], None);
    var b, folders := Bindings([capability], map[capability := id]), [Good(m)];
    OneFolder(m);
    assert KeyFine(b, folders, capability, capability);
    ValidatedIsAssigned(b, folders, p, capability, verb);
    ResolveIsLongest(b, capability, verb);
    FoundIffKnown(folders, id);
  }

  // ---------- When only longer keys are bound ----------

  function Repeat(n: nat): (s: string)
    ensures |s| == n && forall i :: 0 <= i < n ==> s[i] == 'a'
  {
    if n == 0 then "" else Repeat(n - 1) + "a"
  }

  lemma {:induction false} LongerThan(keys: seq<string>) returns (n: nat)
    ensures forall k :: k in keys ==> |k| < n
  {
    if keys == [] {
      n := 0;
    } else {
      var m := LongerThan(keys[1..]);
      n := m + |keys[0]| + 1;
      assert keys == [keys[0]] + keys[1..];
    }
  }

  /** A verb longer than every key can only match a dotted prefix of the capability. */
  lemma LongVerb(key: string, capability: string, n: nat)
    requires |key| < n
    ensures DottedPrefix(key, Target(capability, Repeat(n))) <==> DottedPrefix(key, capability)
  {
    var target := Target(capability, Repeat(n));
    CapabilityIsPrefix(capability, Repeat(n));
    if DottedPrefix(key, capability) {
      PrefixTransitive(key, capability, target);
    }
    if DottedPrefix(key, target) {
      assert target[|key|] == '.';
      assert |key| <= |capability|;
      PrefixesNest(key, capability, target);
    }
  }

  /** Every verb resolves iff some dotted prefix of the capability is bound: keys for single
      verbs alone never suffice. */
  lemma AllVerbsResolve(b: Bindings, capability: string)
    requires WellFormed(b)
    ensures (forall verb :: Resolve(b, capability, verb).Some?)
            <==> exists k :: k in b.adapters && DottedPrefix(k, capability)
  {
    var n := LongerThan(b.order);
    forall k | k in b.adapters
      ensures DottedPrefix(k, Target(capability, Repeat(n))) <==> DottedPrefix(k, capability)
    {
      LongVerb(k, capability, n);
    }
    ResolveIsLongest(b, capability, Repeat(n));
    if k :| k in b.adapters && DottedPrefix(k, capability) {
      forall verb ensures Resolve(b, capability, verb).Some? {
        ResolveIsLongest(b, capability, verb);
        CapabilityIsPrefix(capability, verb);
        PrefixTransitive(k, capability, Target(capability, verb));
      }
    }
  }

  /** Every verb is answered by a key the validator looked at iff the capability itself is
      bound. */
  lemma AllVerbsExamined(b: Bindings, capability: string)
    requires WellFormed(b)
    ensures (forall verb :: Examined(b, capability, verb)) <==> capability in b.adapters
  {
    if capability in b.adapters {
      forall verb ensures Examined(b, capability, verb) {
        BoundIsExamined(b, capability, verb);
      }
    } else {
      var n := LongerThan(b.order);
      ResolveIsLongest(b, capability, Repeat(n));
      var r := Resolve(b, capability, Repeat(n));
      if r.Some? {
        LongVerb(r.value.matchedKey, capability, n);
      }
      assert !Examined(b, capability, Repeat(n));
    }
  }

  lemma OneManifest(m: Manifest)
    ensures Ids([m]) == [m.adapterId] && WithId([m], m.adapterId) == [m]
  {
    var none: seq<Manifest> := [];
    assert [m][..0] == none;
    assert Ids(none) == [] && WithId(none, m.adapterId) == [];
  }

  lemma OneReadable(m: Manifest)
    ensures Readable([Good(m)]) == [m]
  {
    var none: seq<Folder> := [];
    assert [Good(m)][..0] == none;
    assert Readable(none) == [];
  }

  lemma OneFolder(m: Manifest)
    ensures Readable([Good(m)]) == [m] && KnownIds([Good(m)]) == [m.adapterId]
    ensures DiscoverAll([Good(m)]) == Ok([m]) && BundleOf([m], m.adapterId) == Some(m)
  {
    OneReadable(m);
    OneManifest(m);
  }

  /** A binding for a single verb satisfies the validator although other verbs fail. */
  lemma OneVerbIsNotEnough(capability: string, verb: string, id: string)
    ensures var key := Target(capability, verb);
            var b, folders := Bindings([key], map[key := id]), [Good(Manifest(id, [capability], None))];
            && WellFormed(b) && DiscoverAll(folders).Ok? && CapabilityFine(b, folders, capability)
            && exists other :: Resolve(b, capability, other).None?
  {
    var key := Target(capability, verb);
    var b, folders := Bindings([key], map[key := id]), [Good(Manifest(id, [capability], None))];
    OneFolder(Manifest(id, [capability], None));
    CapabilityIsPrefix(capability, verb);
    assert KeyFine(b, folders, capability, key);
    assert !DottedPrefix(key, capability);
    AllVerbsResolve(b, capability);
  }
}
