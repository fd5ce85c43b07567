/** Manifests rejected for a cycle of services although no variable refers back to itself. */
module CycleExample {
  import opened Prelude
  import opened Reference
  import opened ServiceFields
  import opened FieldRules
  import opened Manifest

  // ---------- the value that is one reference ----------

  predicate IsPlainKey(key: string) {
    key != "" && forall i | 0 <= i < |key| :: 'A' <= key[i] <= 'Z' || key[i] == '_'
  }

  function ReferenceTo(v: Variable): Reference {
    ServiceEnv(v.service, v.key)
  }

  function TextOf(r: Reference): string {
    Print([Chunk("", "", r, "")], "")
  }

  lemma OnlyReference(r: Reference)
    requires WellFormed(r) && Trimmed(Render(r)) && '}' !in Render(r)
    ensures References(TextOf(r)) == Ok([r])
  {
    var chunk := Chunk("", "", r, "");
    forall j
      ensures !OccursAt(Render(r), CLOSE, j)
    {
      CloseAt(Render(r), j);
    }
    assert [chunk][1..] == [];
    ScanPrinted([chunk], "");
    assert RoundTrips([chunk], "");
    assert RefsOf([chunk]) == [r];
  }

  lemma PlainReference(v: Variable)
    requires IsValidName(v.service) && IsPlainKey(v.key)
    ensures References(TextOf(ReferenceTo(v))) == Ok([ReferenceTo(v)])
  {
    var r := ReferenceTo(v);
    var text := Render(r);
    assert text == "services." + (v.service + "." + ("env." + v.key));
    assert text[0] == 's' && text[|text| - 1] == v.key[|v.key| - 1];
    OnlyReference(r);
  }

  lemma BlankValue()
    ensures References("") == Ok([])
  {
  }

  // ---------- two services that refer to each other ----------

  /**
   Two services with the same settings: `a` refers to the variable `b2` of the second, `b` to the
   variable `a2` of the first, and these have the value `blank`.
   */
  datatype Crossing = Crossing(
    a: Variable, a2: Variable, b: Variable, b2: Variable,
    toB: string, toA: string, blank: string, fields: Fields)
  {
    function Environment(v: Variable, value: string, v2: Variable): IndexMap<string> {
      OrderedEntries([v.key, v2.key], map[v2.key := blank, v.key := value])
    }

    function First(): Service {
      Service(fields, [], Environment(a, toB, a2))
    }

    function Second(): Service {
      Service(fields, [], Environment(b, toA, b2))
    }

    function TwoServices(): Manifest {
      Manifest(None, None, OrderedEntries([a.service, b.service], map[a.service := First(), b.service := Second()]))
    }

    predicate Valid() {
      && a.service == a2.service && b.service == b2.service && a.service != b.service
      && a.key != a2.key && b.key != b2.key
    }

    ghost predicate RefersAcross() {
      && References(toB) == Ok([ReferenceTo(b2)])
      && References(toA) == Ok([ReferenceTo(a2)])
      && References(blank) == Ok([])
    }
  }

  ghost predicate HasValue(m: Manifest, v: Variable, value: string) {
    && v.service in m.services.entries
    && v.key in m.services.entries[v.service].env.entries
    && m.services.entries[v.service].env.entries[v.key] == value
  }

  lemma Lookup(c: Crossing)
    requires c.Valid()
    ensures HasValue(c.TwoServices(), c.a, c.toB) && HasValue(c.TwoServices(), c.a2, c.blank)
    ensures HasValue(c.TwoServices(), c.b, c.toA) && HasValue(c.TwoServices(), c.b2, c.blank)
  {
  }

  lemma NoOtherVariable(c: Crossing, v: Variable, value: string)
    requires c.Valid() && HasValue(c.TwoServices(), v, value)
    ensures v == c.a || v == c.a2 || v == c.b || v == c.b2
  {
  }

  lemma StepFrom(m: Manifest, v: Variable, value: string, to: seq<Variable>, w: Variable)
    requires HasValue(m, v, value) && |to| <= 1
    requires References(value) == Ok(if to == [] then [] else [ReferenceTo(to[0])])
    ensures ChainStep(m, v, w) <==> to == [w]
  {
  }

  lemma OnlySteps(c: Crossing, v: Variable, w: Variable)
    requires c.Valid() && c.RefersAcross()
    ensures ChainStep(c.TwoServices(), v, w) <==> (v == c.a && w == c.b2) || (v == c.b && w == c.a2)
  {
    var m := c.TwoServices();
    Lookup(c);
    StepFrom(m, c.a, c.toB, [c.b2], w);
    StepFrom(m, c.b, c.toA, [c.a2], w);
    StepFrom(m, c.a2, c.blank, [], w);
    StepFrom(m, c.b2, c.blank, [], w);
    if ChainStep(m, v, w) {
      NoOtherVariable(c, v, m.services.entries[v.service].env.entries[v.key]);
    }
  }

  lemma NoLongChain(c: Crossing, chain: seq<Variable>)
    requires c.Valid() && c.RefersAcross() && Chain(c.TwoServices(), chain)
    ensures |chain| <= 2
  {
    if |chain| > 2 {
      assert ChainStep(c.TwoServices(), chain[0], chain[1]);
      OnlySteps(c, chain[0], chain[1]);
      assert ChainStep(c.TwoServices(), chain[1], chain[2]);
      OnlySteps(c, chain[1], chain[2]);
    }
  }

  lemma StepIsEdge(m: Manifest, v: Variable, w: Variable)
    requires ChainStep(m, v, w) && w.service in m.services.entries
    ensures EnvEdge(m, v.service, w.service)
  {
    assert RefersTo(m.services.entries[v.service].env.entries[v.key], w.service);
  }

  lemma ServiceCycle(c: Crossing)
    requires c.Valid() && c.RefersAcross()
    ensures ClosedServiceWalk(c.TwoServices(), [c.a.service, c.b.service, c.a.service])
  {
    OnlySteps(c, c.a, c.b2);
    OnlySteps(c, c.b, c.a2);
    StepIsEdge(c.TwoServices(), c.a, c.b2);
    StepIsEdge(c.TwoServices(), c.b, c.a2);
    ThereAndBack(c.TwoServices(), c.a.service, c.b.service);
  }

  lemma ThereAndBack(m: Manifest, x: string, y: string)
    requires EnvEdge(m, x, y) && EnvEdge(m, y, x)
    ensures ClosedServiceWalk(m, [x, y, x])
  {
  }

  // ---------- nothing else is wrong ----------

  ghost predicate ValuesAreFine(m: Manifest, values: set<string>, e: ValidationError) {
    forall path, value | value in values :: !ValueComplaint(m, path, value, e)
  }

  lemma ValueIsFine(m: Manifest, value: string, refs: seq<Reference>, e: ValidationError)
    requires References(value) == Ok(refs)
    requires forall r | r in refs :: r.ServiceEnv? && r.name in m.services.entries
    ensures ValuesAreFine(m, {value}, e)
  {
  }

  lemma Together(m: Manifest, values: set<string>, more: set<string>, e: ValidationError)
    requires ValuesAreFine(m, values, e) && ValuesAreFine(m, more, e)
    ensures ValuesAreFine(m, values + more, e)
  {
  }

  lemma AllAcrossIsFine(c: Crossing, e: ValidationError)
    requires c.Valid() && c.RefersAcross()
    ensures ValuesAreFine(c.TwoServices(), {c.toB} + {c.toA} + {c.blank}, e)
  {
    var m := c.TwoServices();
    ValueIsFine(m, c.toB, [ReferenceTo(c.b2)], e);
    ValueIsFine(m, c.toA, [ReferenceTo(c.a2)], e);
    ValueIsFine(m, c.blank, [], e);
    Together(m, {c.toB}, {c.toA}, e);
    Together(m, {c.toB} + {c.toA}, {c.blank}, e);
  }

  lemma EnvIsFine(m: Manifest, name: string, env: IndexMap<string>, values: set<string>, e: ValidationError)
    requires ValuesAreFine(m, values, e)
    requires forall key | key in env.keys :: env.entries[key] in values
    ensures !AnyValue(m, name, env.entries, env.keys, e)
  {
  }

  lemma ServiceIsFine(m: Manifest, name: string, e: ValidationError)
    requires name in m.services.entries && m.services.entries[name].dependsOn == []
    requires !NameComplaint(name, e) && !FieldComplaint(name, m.services.entries[name].fields, e)
    requires !AnyValue(m, name, m.services.entries[name].env.entries, m.services.entries[name].env.keys, e)
    ensures !ServiceComplaint(m, name, e)
  {
  }

  lemma ServicesAreFine(m: Manifest, x: string, y: string, e: ValidationError)
    requires m.services.keys == [x, y] && m.projectName.None? && m.github.None?
    requires !ServiceComplaint(m, x, e) && !ServiceComplaint(m, y, e)
    ensures !Complaint(m, e)
  {
  }

  lemma NothingElse(c: Crossing, e: ValidationError)
    requires c.Valid() && ValuesAreFine(c.TwoServices(), {c.toB} + {c.toA} + {c.blank}, e)
    requires !NameComplaint(c.a.service, e) && !FieldComplaint(c.a.service, c.fields, e)
    requires !NameComplaint(c.b.service, e) && !FieldComplaint(c.b.service, c.fields, e)
    ensures !Complaint(c.TwoServices(), e)
  {
    var values := {c.toB} + {c.toA} + {c.blank};
    EnvIsFine(c.TwoServices(), c.a.service, c.First().env, values, e);
    EnvIsFine(c.TwoServices(), c.b.service, c.Second().env, values, e);
    ServiceIsFine(c.TwoServices(), c.a.service, e);
    ServiceIsFine(c.TwoServices(), c.b.service, e);
    ServicesAreFine(c.TwoServices(), c.a.service, c.b.service, e);
  }

  // ---------- one such manifest ----------

  const IMAGE: Fields :=
    Fields(None, Some("image"), None, false, [], None, None, None, None, [], None, None, None)

  lemma ImageFieldsAreFine(name: string, e: ValidationError)
    requires IsValidName(name)
    ensures !NameComplaint(name, e) && !FieldComplaint(name, IMAGE, e)
  {
    GoodFieldsExactly(name, IMAGE);
  }

  function Cross(a: Variable, a2: Variable, b: Variable, b2: Variable): Crossing {
    Crossing(a, a2, b, b2, TextOf(ReferenceTo(b2)), TextOf(ReferenceTo(a2)), "", IMAGE)
  }

  lemma CrossRefers(a: Variable, a2: Variable, b: Variable, b2: Variable)
    requires IsValidName(a2.service) && IsValidName(b2.service) && IsPlainKey(a2.key) && IsPlainKey(b2.key)
    ensures Cross(a, a2, b, b2).RefersAcross()
  {
    PlainReference(a2);
    PlainReference(b2);
    BlankValue();
  }

  lemma NothingElseInCross(c: Crossing, e: ValidationError)
    requires c.Valid() && c.RefersAcross() && c.fields == IMAGE
    requires IsValidName(c.a.service) && IsValidName(c.b.service)
    ensures !Complaint(c.TwoServices(), e)
  {
    ImageFieldsAreFine(c.a.service, e);
    ImageFieldsAreFine(c.b.service, e);
    AllAcrossIsFine(c, e);
    NothingElse(c, e);
  }

  lemma RejectedBy(c: Crossing, cycle: seq<string>)
    requires ClosedServiceWalk(c.TwoServices(), cycle)
    ensures !Accepted(c.TwoServices())
  {
  }

  lemma CrossingRejected(c: Crossing, chain: seq<Variable>, e: ValidationError)
    requires c.Valid() && c.RefersAcross() && c.fields == IMAGE
    requires IsValidName(c.a.service) && IsValidName(c.b.service)
    ensures !Accepted(c.TwoServices()) && !Complaint(c.TwoServices(), e)
    ensures Chain(c.TwoServices(), chain) ==> |chain| <= 2
  {
    ServiceCycle(c);
    RejectedBy(c, [c.a.service, c.b.service, c.a.service]);
    NothingElseInCross(c, e);
    if Chain(c.TwoServices(), chain) {
      NoLongChain(c, chain);
    }
  }

  /**
   `a.X` refers to `b.Y`, `b.Z` to `a.W`: nothing but the cycle of services is wrong, and no chain
   has more than two variables.
   */
  lemma ServiceCycleWithoutVariableCycle(c: Crossing, chain: seq<Variable>, e: ValidationError)
    requires c == Cross(c.a, c.a2, c.b, c.b2)
    requires c.a == Variable("a", "X") && c.a2 == Variable("a", "W")
    requires c.b == Variable("b", "Z") && c.b2 == Variable("b", "Y")
    ensures !Accepted(c.TwoServices()) && !Complaint(c.TwoServices(), e)
    ensures Chain(c.TwoServices(), chain) ==> |chain| <= 2
  {
    CrossRefers(c.a, c.a2, c.b, c.b2);
    CrossingRejected(c, chain, e);
  }
}
