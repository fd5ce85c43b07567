/**
 Manifest validation: names, dependencies, environment references and their cycles.
 The checks of single fields are in `ServiceFields`, their rules in `FieldRules`.
 */
module Manifest {
  import opened Prelude
  import opened Reference
  import opened ServiceFields
  import FieldRules
  import EnvCycle

  // ---------- the manifest ----------

  datatype OrderedEntries<V> = OrderedEntries(keys: seq<string>, entries: map<string, V>)

  /** An insertion-ordered map. */
  type IndexMap<V> = m: OrderedEntries<V> | forall k :: k in m.keys <==> k in m.entries
    witness OrderedEntries([], map[])

  datatype Service = Service(fields: Fields, dependsOn: seq<string>, env: IndexMap<string>)

  /** `github` is the repository of the manifest's own `github` section. */
  datatype Manifest = Manifest(projectName: Option<string>, github: Option<string>, services: IndexMap<Service>)

  predicate IsNameChar(c: char) {
    'a' <= c <= 'z' || '0' <= c <= '9' || c == '-'
  }

  /** A lowercase DNS label. */
  predicate IsValidName(name: string) {
    && name != ""
    && |name| <= 63
    && (forall i | 0 <= i < |name| :: IsNameChar(name[i]))
    && name[0] != '-'
    && name[|name| - 1] != '-'
  }

  function EnvPath(name: string, key: string): string { Root(name) + ".env." + key }

  // ---------- what is wrong with a manifest ----------

  ghost predicate ReferenceComplaint(m: Manifest, path: string, r: Reference, e: ValidationError) {
    && !r.Secret?
    && if r.name !in m.services.entries then e == ValidationError(path, UnknownService(r.name))
       else
         && (r.ServicePort? || r.ServiceUrl?)
         && m.services.entries[r.name].fields.port.None?
         && e == ValidationError(path, PortNotDeclared(r.name))
  }

  ghost predicate ValueComplaint(m: Manifest, path: string, value: string, e: ValidationError) {
    match References(value)
    case Err(reason) => e == ValidationError(path, BadReference(reason))
    case Ok(refs) => AnyReference(m, path, refs, e)
  }

  ghost predicate AnyReference(m: Manifest, path: string, refs: seq<Reference>, e: ValidationError) {
    exists r | r in refs :: ReferenceComplaint(m, path, r, e)
  }

  lemma AnyReferenceStep(m: Manifest, path: string, refs: seq<Reference>, i: nat)
    requires i < |refs|
    ensures forall e :: AnyReference(m, path, refs[..i + 1], e) <==>
                        AnyReference(m, path, refs[..i], e) || ReferenceComplaint(m, path, refs[i], e)
  {
    TakeOneMore(refs, i);
  }

  ghost predicate DependencyComplaint(m: Manifest, name: string, dependency: string, e: ValidationError) {
    && e.path == "services." + name + ".dependsOn"
    && if dependency == name then e.problem == SelfDependency
       else dependency !in m.services.entries && e.problem == UnknownDependency(dependency)
  }

  ghost predicate AnyDependency(m: Manifest, name: string, dependsOn: seq<string>, e: ValidationError) {
    exists d | d in dependsOn :: DependencyComplaint(m, name, d, e)
  }

  lemma AnyDependencyStep(m: Manifest, name: string, dependsOn: seq<string>, i: nat)
    requires i < |dependsOn|
    ensures forall e :: AnyDependency(m, name, dependsOn[..i + 1], e) <==>
                        AnyDependency(m, name, dependsOn[..i], e) || DependencyComplaint(m, name, dependsOn[i], e)
  {
    TakeOneMore(dependsOn, i);
  }

  ghost predicate AnyValue(m: Manifest, name: string, env: map<string, string>, keys: seq<string>, e: ValidationError) {
    exists key | key in keys && key in env :: ValueComplaint(m, "services." + name + ".env." + key, env[key], e)
  }

  lemma AnyValueStep(m: Manifest, name: string, env: map<string, string>, keys: seq<string>, i: nat)
    requires i < |keys| && keys[i] in env
    ensures forall e :: AnyValue(m, name, env, keys[..i + 1], e) <==>
                        || AnyValue(m, name, env, keys[..i], e)
                        || ValueComplaint(m, "services." + name + ".env." + keys[i], env[keys[i]], e)
  {
    TakeOneMore(keys, i);
  }

  ghost predicate NameComplaint(name: string, e: ValidationError) {
    e == ValidationError("services." + name, InvalidName) && !IsValidName(name)
  }

  ghost predicate ServiceComplaint(m: Manifest, name: string, e: ValidationError)
    requires name in m.services.entries
  {
    var s := m.services.entries[name];
    || NameComplaint(name, e)
    || FieldRules.FieldComplaint(name, s.fields, e)
    || AnyDependency(m, name, s.dependsOn, e)
    || AnyValue(m, name, s.env.entries, s.env.keys, e)
  }

  ghost predicate AnyService(m: Manifest, names: seq<string>, e: ValidationError) {
    exists name | name in names && name in m.services.entries :: ServiceComplaint(m, name, e)
  }

  lemma AnyServiceStep(m: Manifest, names: seq<string>, i: nat)
    requires i < |names| && names[i] in m.services.entries
    ensures forall e :: AnyService(m, names[..i + 1], e) <==>
                        AnyService(m, names[..i], e) || ServiceComplaint(m, names[i], e)
  {
    TakeOneMore(names, i);
  }

  lemma FieldsExactly(name: string, f: Fields)
    ensures forall e :: e in SourceErrors(name, f) <==> FieldRules.SourceComplaint(name, f, e)
    ensures forall e :: e in RuntimeErrors(name, f) <==> FieldRules.RuntimeComplaint(name, f, e)
    ensures forall e :: e in StateErrors(name, f) <==> FieldRules.StateComplaint(name, f, e)
  {
    forall e
      ensures e in SourceErrors(name, f) <==> FieldRules.SourceComplaint(name, f, e)
      ensures e in RuntimeErrors(name, f) <==> FieldRules.RuntimeComplaint(name, f, e)
      ensures e in StateErrors(name, f) <==> FieldRules.StateComplaint(name, f, e)
    {
      FieldRules.SourceExactly(name, f, e);
      FieldRules.RuntimeExactly(name, f, e);
      FieldRules.StateExactly(name, f, e);
    }
  }

  ghost predicate ProjectComplaint(m: Manifest, e: ValidationError) {
    && e == ValidationError("project.name", InvalidName)
    && m.projectName.Some?
    && !IsValidName(m.projectName.value)
  }

  ghost predicate RepositoryComplaint(m: Manifest, e: ValidationError) {
    && e == ValidationError("github.repo", BadRepo)
    && m.github.Some?
    && !FieldRules.IsOwnerAndName(m.github.value)
  }

  /** Everything wrong apart from cycles. */
  ghost predicate Complaint(m: Manifest, e: ValidationError) {
    || ProjectComplaint(m, e)
    || RepositoryComplaint(m, e)
    || AnyService(m, m.services.keys, e)
  }

  // ---------- the service graph ----------

  /** `value` refers to a variable of service `b`. */
  ghost predicate RefersTo(value: string, b: string) {
    References(value).Ok? && exists r | r in References(value).value :: r.ServiceEnv? && r.name == b
  }

  ghost predicate EnvRefersTo(env: map<string, string>, keys: seq<string>, b: string) {
    exists key | key in keys && key in env :: RefersTo(env[key], b)
  }

  /** Some value in the environment of `a` refers to a variable of `b`. */
  ghost predicate EnvEdge(m: Manifest, a: string, b: string) {
    && a in m.services.entries
    && b in m.services.entries
    && var env := m.services.entries[a].env; EnvRefersTo(env.entries, env.keys, b)
  }

  ghost predicate IsEnvGraph(m: Manifest, g: EnvCycle.Graph) {
    forall a, b :: EnvCycle.Edge(g, a, b) <==> EnvEdge(m, a, b)
  }

  lemma EnvRefersToStep(env: map<string, string>, keys: seq<string>, i: nat)
    requires i < |keys| && keys[i] in env
    ensures forall b :: EnvRefersTo(env, keys[..i + 1], b) <==>
                        EnvRefersTo(env, keys[..i], b) || RefersTo(env[keys[i]], b)
  {
    TakeOneMore(keys, i);
  }

  /** The known services among the targets of `refs`, in order. */
  function Targets(m: Manifest, refs: seq<Reference>): (targets: seq<string>)
    ensures forall b :: b in targets <==>
                        b in m.services.entries && exists r | r in refs :: r.ServiceEnv? && r.name == b
  {
    if refs == [] then []
    else
      var r := refs[0];
      assert forall x :: x in refs <==> x == r || x in refs[1..];
      (if r.ServiceEnv? && r.name in m.services.entries then [r.name] else []) + Targets(m, refs[1..])
  }

  /** `edges.entry(name).or_default()` extended by `targets`. */
  function Extend(edges: EnvCycle.Graph, name: string, targets: seq<string>): (g: EnvCycle.Graph)
    ensures forall a, b :: EnvCycle.Edge(g, a, b) <==> EnvCycle.Edge(edges, a, b) || (a == name && b in targets)
  {
    if targets == [] then edges
    else edges[name := EnvCycle.Successors(edges, name) + targets]
  }

  method AddServiceEdges(m: Manifest, name: string, edges: EnvCycle.Graph) returns (g: EnvCycle.Graph)
    requires name in m.services.entries
    ensures forall a, b :: EnvCycle.Edge(g, a, b) <==>
                           EnvCycle.Edge(edges, a, b) || (a == name && EnvEdge(m, name, b))
  {
    var env := m.services.entries[name].env;
    g := edges;
    for i := 0 to |env.keys|
      invariant forall a, b :: EnvCycle.Edge(g, a, b) <==>
                               || EnvCycle.Edge(edges, a, b)
                               || (a == name && b in m.services.entries
                                   && EnvRefersTo(env.entries, env.keys[..i], b))
    {
      EnvRefersToStep(env.entries, env.keys, i);
      var refs := ParseReferences(env.entries[env.keys[i]]);
      if refs.Ok? {
        g := Extend(g, name, Targets(m, refs.value));
      }
    }
    assert env.keys[..|env.keys|] == env.keys;
  }

  method BuildEdges(m: Manifest) returns (edges: EnvCycle.Graph)
    ensures IsEnvGraph(m, edges)
  {
    edges := map[];
    var names := m.services.keys;
    for i := 0 to |names|
      invariant forall a, b :: EnvCycle.Edge(edges, a, b) <==> a in names[..i] && EnvEdge(m, a, b)
    {
      edges := AddServiceEdges(m, names[i], edges);
      TakeOneMore(names, i);
    }
    assert names[..|names|] == names;
  }

  // ---------- validation ----------

  class Validator {
    const manifest: Manifest
    var errors: seq<ValidationError>

    constructor (manifest: Manifest)
      ensures this.manifest == manifest && errors == []
    {
      this.manifest := manifest;
      errors := [];
    }

    method CheckReference(path: string, reference: Reference)
      modifies this
      ensures forall e :: e in errors <==> e in old(errors) || ReferenceComplaint(manifest, path, reference, e)
    {
      var target := reference.Service();
      if target.None? {
        return;
      }
      if target.value !in manifest.services.entries {
        errors := errors + [ValidationError(path, UnknownService(target.value))];
        return;
      }
      var needsPort := reference.ServicePort? || reference.ServiceUrl?;
      if needsPort && manifest.services.entries[target.value].fields.port.None? {
        errors := errors + [ValidationError(path, PortNotDeclared(target.value))];
      }
    }

    method CheckValue(path: string, value: string)
      modifies this
      ensures forall e :: e in errors <==> e in old(errors) || ValueComplaint(manifest, path, value, e)
    {
      var parsed := ParseReferences(value);
      match parsed
      case Err(reason) =>
        errors := errors + [ValidationError(path, BadReference(reason))];
      case Ok(refs) =>
        for i := 0 to |refs|
          invariant forall e :: e in errors <==> e in old(errors) || AnyReference(manifest, path, refs[..i], e)
        {
          CheckReference(path, refs[i]);
          AnyReferenceStep(manifest, path, refs, i);
        }
        assert refs[..|refs|] == refs;
    }

    method CheckDependencies(name: string, dependsOn: seq<string>)
      modifies this
      ensures forall e :: e in errors <==> e in old(errors) || AnyDependency(manifest, name, dependsOn, e)
    {
      FieldRules.ErrorPath(name, "dependsOn", ".dependsOn");
      for i := 0 to |dependsOn|
        invariant forall e :: e in errors <==>
                              e in old(errors) || AnyDependency(manifest, name, dependsOn[..i], e)
      {
        var dependency := dependsOn[i];
        if dependency == name {
          errors := errors + [ValidationError(At(name, "dependsOn"), SelfDependency)];
        } else if dependency !in manifest.services.entries {
          errors := errors + [ValidationError(At(name, "dependsOn"), UnknownDependency(dependency))];
        }
        AnyDependencyStep(manifest, name, dependsOn, i);
      }
      assert dependsOn[..|dependsOn|] == dependsOn;
    }

    method CheckName(name: string)
      modifies this
      ensures forall e :: e in errors <==> e in old(errors) || NameComplaint(name, e)
    {
      if !IsValidName(name) {
        errors := errors + [ValidationError(Root(name), InvalidName)];
      }
    }

    method ValidateService(name: string)
      requires name in manifest.services.entries
      modifies this
      ensures forall e :: e in errors <==> e in old(errors) || ServiceComplaint(manifest, name, e)
    {
      var s := manifest.services.entries[name];
      FieldsExactly(name, s.fields);
      CheckName(name);
      errors := errors + SourceErrors(name, s.fields);
      errors := errors + RuntimeErrors(name, s.fields);
      CheckDependencies(name, s.dependsOn);
      errors := errors + StateErrors(name, s.fields);
      CheckEnv(name, s.env);
    }

    method CheckEnv(name: string, env: IndexMap<string>)
      modifies this
      ensures forall e :: e in errors <==> e in old(errors) || AnyValue(manifest, name, env.entries, env.keys, e)
    {
      for i := 0 to |env.keys|
        invariant forall e :: e in errors <==>
                              e in old(errors) || AnyValue(manifest, name, env.entries, env.keys[..i], e)
      {
        CheckValue(EnvPath(name, env.keys[i]), env.entries[env.keys[i]]);
        AnyValueStep(manifest, name, env.entries, env.keys, i);
      }
      assert env.keys[..|env.keys|] == env.keys;
    }

    method ValidateServices()
      modifies this
      ensures forall e :: e in errors <==> e in old(errors) || AnyService(manifest, manifest.services.keys, e)
    {
      var names := manifest.services.keys;
      for i := 0 to |names|
        invariant forall e :: e in errors <==> e in old(errors) || AnyService(manifest, names[..i], e)
      {
        ValidateService(names[i]);
        AnyServiceStep(manifest, names, i);
      }
      assert names[..|names|] == names;
    }

    method CheckSections()
      modifies this
      ensures forall e :: e in errors <==> e in old(errors) || Complaint(manifest, e)
    {
      if manifest.projectName.Some? && !IsValidName(manifest.projectName.value) {
        errors := errors + [ValidationError("project.name", InvalidName)];
      }
      if manifest.github.Some? {
        FieldRules.RepoExactly(manifest.github.value);
      }
      if manifest.github.Some? && !IsValidRepo(manifest.github.value) {
        errors := errors + [ValidationError("github.repo", BadRepo)];
      }
      ValidateServices();
    }

    method CheckCycles()
      modifies this
      ensures if AcyclicServices(manifest) then errors == old(errors)
              else exists report :: CycleReport(manifest, report) && errors == old(errors) + [report]
    {
      var edges := BuildEdges(manifest);
      var search := new EnvCycle.CycleSearch(edges);
      var cycle := search.FindCycle();
      SameWalks(manifest, edges);
      if cycle.Some? {
        var report := ValidationError("services", ReferenceCycle(cycle.value));
        assert CycleReport(manifest, report);
        errors := errors + [report];
      }
    }

    /** Reports exactly the complaints, and a genuine cycle iff the service graph has any. */
    method Validate()
      requires errors == []
      modifies this
      ensures forall e :: Complaint(manifest, e) ==> e in errors
      ensures forall e | e in errors :: Complaint(manifest, e) || CycleReport(manifest, e)
      ensures (exists e :: e in errors && CycleReport(manifest, e)) <==> !AcyclicServices(manifest)
      ensures errors == [] <==> Accepted(manifest)
    {
      CheckSections();
      ghost var complaints := errors;
      assert complaints != [] ==> complaints[0] in complaints;
      CheckCycles();
      if AcyclicServices(manifest) {
        NoReportWithoutCycle(manifest);
      } else {
        assert errors[|errors| - 1] in errors;
      }
    }
  }

  // ---------- accepted manifests ----------

  ghost predicate ServiceWalk(m: Manifest, p: seq<string>) {
    forall i | 0 <= i < |p| - 1 :: EnvEdge(m, p[i], p[i + 1])
  }

  ghost predicate ClosedServiceWalk(m: Manifest, c: seq<string>) {
    |c| >= 2 && c[0] == c[|c| - 1] && ServiceWalk(m, c)
  }

  ghost predicate AcyclicServices(m: Manifest) {
    forall c :: !ClosedServiceWalk(m, c)
  }

  ghost predicate CycleReport(m: Manifest, e: ValidationError) {
    && e.path == "services"
    && e.problem.ReferenceCycle?
    && ClosedServiceWalk(m, e.problem.cycle)
    && EnvCycle.Distinct(e.problem.cycle[1..])
  }

  ghost predicate Accepted(m: Manifest) {
    (forall e :: !Complaint(m, e)) && AcyclicServices(m)
  }

  lemma SameWalks(m: Manifest, g: EnvCycle.Graph)
    requires IsEnvGraph(m, g)
    ensures forall c :: EnvCycle.ClosedWalk(g, c) <==> ClosedServiceWalk(m, c)
    ensures EnvCycle.Acyclic(g) <==> AcyclicServices(m)
    ensures forall c :: EnvCycle.IsCycle(g, c) ==> EnvCycle.Distinct(c[1..])
  {
    forall c
      ensures EnvCycle.ClosedWalk(g, c) <==> ClosedServiceWalk(m, c)
    {
      assert EnvCycle.IsPath(g, c) <==> ServiceWalk(m, c);
    }
    forall c | EnvCycle.IsCycle(g, c)
      ensures EnvCycle.Distinct(c[1..])
    {
      var front, back := c[..|c| - 1], c[1..];
      forall i, j | 0 <= i < j < |back|
        ensures back[i] != back[j]
      {
        assert back[i] == front[i + 1];
        assert back[j] == if j == |back| - 1 then front[0] else front[j + 1];
      }
    }
  }

  lemma NoReportWithoutCycle(m: Manifest)
    requires AcyclicServices(m)
    ensures forall e :: !CycleReport(m, e)
  {
  }

  /** Every reference of an accepted manifest resolves, and port or url targets declare a port. */
  lemma AcceptedReferencesResolve(m: Manifest, name: string, key: string)
    requires Accepted(m)
    requires name in m.services.entries && key in m.services.entries[name].env.entries
    ensures var parsed := References(m.services.entries[name].env.entries[key]);
            && parsed.Ok?
            && forall r | r in parsed.value && !r.Secret? ::
                 && r.name in m.services.entries
                 && (r.ServicePort? || r.ServiceUrl? ==> m.services.entries[r.name].fields.port.Some?)
  {
    var path, value := "services." + name + ".env." + key, m.services.entries[name].env.entries[key];
    forall e
      ensures !ValueComplaint(m, path, value, e)
    {
      NoValueComplaint(m, name, key, e);
    }
    ValueIsFine(m, path, value);
  }

  lemma NoValueComplaint(m: Manifest, name: string, key: string, e: ValidationError)
    requires Accepted(m)
    requires name in m.services.entries && key in m.services.entries[name].env.entries
    ensures !ValueComplaint(m, "services." + name + ".env." + key, m.services.entries[name].env.entries[key], e)
  {
    assert !Complaint(m, e);
    assert !ServiceComplaint(m, name, e);
    assert !AnyValue(m, name, m.services.entries[name].env.entries, m.services.entries[name].env.keys, e);
  }

  lemma ValueIsFine(m: Manifest, path: string, value: string)
    requires forall e :: !ValueComplaint(m, path, value, e)
    ensures var parsed := References(value);
            && parsed.Ok?
            && forall r | r in parsed.value && !r.Secret? ::
                 && r.name in m.services.entries
                 && (r.ServicePort? || r.ServiceUrl? ==> m.services.entries[r.name].fields.port.Some?)
  {
    var parsed := References(value);
    assert parsed.Err? ==> ValueComplaint(m, path, value, ValidationError(path, BadReference(parsed.error)));
    forall r | r in parsed.value && !r.Secret?
      ensures r.name in m.services.entries
      ensures r.ServicePort? || r.ServiceUrl? ==> m.services.entries[r.name].fields.port.Some?
    {
      assert !ValueComplaint(m, path, value, ValidationError(path, UnknownService(r.name)));
      assert !ValueComplaint(m, path, value, ValidationError(path, PortNotDeclared(r.name)));
    }
  }

  /**
   Every service of an accepted manifest has a valid name and fields nothing is wrong with: one
   source, and with volumes it never runs twice at a time.
   */
  lemma AcceptedServicesAreSound(m: Manifest, name: string)
    requires Accepted(m) && name in m.services.entries
    ensures IsValidName(name) && FieldRules.GoodFields(m.services.entries[name].fields)
    ensures var f := m.services.entries[name].fields;
            && f.SourceOf().Some?
            && (f.volumes != [] ==> f.MaxReplicas() == 1 && f.EffectiveStrategy() == Recreate)
            && (f.strategy.Some? ==> f.EffectiveStrategy() == f.strategy.value)
            && (f.IsPublic() ==> f.port.Some? && f.port.value > 0)
  {
    var f := m.services.entries[name].fields;
    forall e
      ensures !NameComplaint(name, e) && !FieldRules.FieldComplaint(name, f, e)
    {
      assert !Complaint(m, e);
      assert !ServiceComplaint(m, name, e);
    }
    assert !NameComplaint(name, ValidationError("services." + name, InvalidName));
    FieldRules.GoodFieldsExactly(name, f);
    FieldRules.SoundFields(f);
  }

  // ---------- chains of variable references ----------

  /** A variable, named by service and key. */
  datatype Variable = Variable(service: string, key: string)

  ghost predicate ChainStep(m: Manifest, v: Variable, w: Variable) {
    && v.service in m.services.entries
    && v.key in m.services.entries[v.service].env.entries
    && var parsed := References(m.services.entries[v.service].env.entries[v.key]);
       parsed.Ok? && ServiceEnv(w.service, w.key) in parsed.value
  }

  ghost predicate Chain(m: Manifest, chain: seq<Variable>) {
    && chain != []
    && chain[0].service in m.services.entries
    && forall i | 0 <= i < |chain| - 1 :: ChainStep(m, chain[i], chain[i + 1])
  }

  lemma {:induction false} DistinctInSet(p: seq<string>, s: set<string>)
    requires EnvCycle.Distinct(p) && forall x | x in p :: x in s
    ensures |p| <= |s|
  {
    if p != [] {
      DistinctInSet(p[1..], s - {p[0]});
    }
  }

  lemma WalkIsDistinct(m: Manifest, p: seq<string>)
    requires AcyclicServices(m) && ServiceWalk(m, p)
    ensures EnvCycle.Distinct(p)
  {
    forall i, j | 0 <= i < j < |p|
      ensures p[i] != p[j]
    {
      var c := p[i..j + 1];
      assert ServiceWalk(m, c);
      assert !ClosedServiceWalk(m, c);
    }
  }

  function ServicesOf(chain: seq<Variable>): (p: seq<string>)
    ensures |p| == |chain| && forall i | 0 <= i < |chain| :: p[i] == chain[i].service
  {
    if chain == [] then [] else [chain[0].service] + ServicesOf(chain[1..])
  }

  /** Following references in an accepted manifest takes fewer steps than there are services. */
  lemma ChainsAreShort(m: Manifest, chain: seq<Variable>)
    requires Accepted(m) && Chain(m, chain)
    ensures |chain| <= |m.services.entries|
    ensures forall v | v in chain :: v.service in m.services.entries
  {
    var p := ServicesOf(chain);
    forall i | 0 <= i < |p| - 1
      ensures EnvEdge(m, p[i], p[i + 1])
    {
      var v, w := chain[i], chain[i + 1];
      assert ChainStep(m, v, w);
      AcceptedReferencesResolve(m, v.service, v.key);
      assert RefersTo(m.services.entries[v.service].env.entries[v.key], w.service);
    }
    WalkIsDistinct(m, p);
    forall i | 0 <= i < |p|
      ensures p[i] in m.services.entries
    {
      if i > 0 {
        assert EnvEdge(m, p[i - 1], p[i]);
      }
    }
    DistinctInSet(p, m.services.entries.Keys);
    assert |m.services.entries.Keys| == |m.services.entries|;
  }

  /** A variable that refers back to itself, however far round, gets the manifest rejected. */
  lemma VariableCyclesRejected(m: Manifest, chain: seq<Variable>)
    requires Chain(m, chain) && |chain| >= 2 && chain[0] == chain[|chain| - 1]
    ensures !Accepted(m)
  {
    var p := ServicesOf(chain);
    forall i | 0 <= i < |p| - 1
      ensures EnvEdge(m, p[i], p[i + 1])
    {
      assert ChainStep(m, chain[i], chain[i + 1]);
      assert p[i + 1] in m.services.entries by {
        assert i + 1 < |p| - 1 ==> ChainStep(m, chain[i + 1], chain[i + 2]);
      }
      assert RefersTo(m.services.entries[p[i]].env.entries[chain[i].key], p[i + 1]);
    }
    assert ClosedServiceWalk(m, p);
  }

  /** References to hosts, ports, urls and secrets alone never get a manifest rejected for a cycle. */
  lemma OnlyVariablesMakeCycles(m: Manifest, e: ValidationError)
    requires forall name, key | name in m.services.entries && key in m.services.entries[name].env.entries ::
               var parsed := References(m.services.entries[name].env.entries[key]);
               parsed.Ok? ==> forall r | r in parsed.value :: !r.ServiceEnv?
    ensures AcyclicServices(m) && !CycleReport(m, e)
  {
    forall a, b
      ensures !EnvEdge(m, a, b)
    {
    }
    forall c
      ensures !ClosedServiceWalk(m, c)
    {
      assert |c| >= 2 ==> !EnvEdge(m, c[0], c[1]);
    }
  }
}
