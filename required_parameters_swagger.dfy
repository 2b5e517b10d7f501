/** The `RequiredParametersSwagger` variant of the required-attribute
    operation filter: only `FromQuery` can rename a parameter, and the
    derived required-ness replaces the flag the generator drafted. */
module RequiredParametersSwagger {
  import opened ParameterModel
  import opened Resolution

  /** The attribute kinds `ProperName` treats as name-binding. */
  const NameBindingKinds: set<Kind> := {FromQuery}

  /** Scans the attributes in declaration order and returns on the first
      `FromQuery` attribute: its first named argument if it has one, the
      declared name if it has none; every other attribute kind is passed
      over, and the declared name is returned when there is no `FromQuery`. */
  method ProperName(p: HandlerParameter) returns (name: string)
    ensures (forall j :: 0 <= j < |p.annotations| ==> p.annotations[j].kind != FromQuery) ==>
              name == p.declaredName
    ensures forall i :: 0 <= i < |p.annotations| && p.annotations[i].kind == FromQuery
                        && (forall j :: 0 <= j < i ==> p.annotations[j].kind != FromQuery) ==>
              name == if |p.annotations[i].namedArgs| == 0 then p.declaredName
                      else p.annotations[i].namedArgs[0]
    ensures name == CanonicalName(p, NameBindingKinds)
  {
    for k := 0 to |p.annotations|
      invariant forall j :: 0 <= j < k ==> p.annotations[j].kind != FromQuery
    {
      var attribute := p.annotations[k];
      if attribute.kind == FromQuery {
        if |attribute.namedArgs| == 0 {
          return p.declaredName;
        }
        return attribute.namedArgs[0];
      }
    }
    return p.declaredName;
  }

  /** Sets the `required` flag of every documented parameter of one
      operation from the handler's parameters. Nothing happens when the
      operation has no parameter list. */
  method Apply(parameters: Option<seq<DocumentedParameter>>, handler: seq<HandlerParameter>) returns (outcome: Outcome)
    modifies Targets(parameters)
    ensures parameters.None? ==> outcome == Pass
    ensures parameters.Some? ==>
      var ps := parameters.value;
      var m := RequiredByName(handler, NameBindingKinds);
      var n := FirstThrow(Overwrite, old(Flags(ps)), Names(ps), m);
      && outcome == (if n == |ps| then Pass else Fail(ps[n].name))
      && Flags(ps)[..n] == UpdatedPrefix(Overwrite, old(Flags(ps)), Names(ps), m)
      && forall i :: n <= i < |ps| && ps[i] !in ps[..n] ==> ps[i].required == old(ps[i].required)
  {
    if parameters.None? {
      return Pass;
    }
    var parameterRequired := RequiredByName(handler, NameBindingKinds);
    outcome := WriteBack(parameters.value, parameterRequired);
  }

  /** The `foreach` over the documented parameters: each flag is replaced by
      the dictionary's value for its name. A name missing from the
      dictionary stops the loop there, with the parameters before it already
      updated. The same object may occur at several positions. */
  method WriteBack(ps: seq<DocumentedParameter>, parameterRequired: map<string, bool>) returns (outcome: Outcome)
    modifies ps
    ensures var n := FirstThrow(Overwrite, old(Flags(ps)), Names(ps), parameterRequired);
      && outcome == (if n == |ps| then Pass else Fail(ps[n].name))
      && Flags(ps)[..n] == UpdatedPrefix(Overwrite, old(Flags(ps)), Names(ps), parameterRequired)
      && forall i :: n <= i < |ps| && ps[i] !in ps[..n] ==> ps[i].required == old(ps[i].required)
  {
    ghost var before := Flags(ps);
    for k := 0 to |ps|
      invariant forall j :: 0 <= j < |ps| ==> before[j] == old(ps[j].required)
      invariant forall j :: 0 <= j < k ==> ps[j].name in parameterRequired
      invariant forall j :: 0 <= j < k ==> ps[j].required == parameterRequired[ps[j].name]
      invariant forall j :: k <= j < |ps| && ps[j] !in ps[..k] ==> ps[j].required == before[j]
    {
      var p := ps[k];
      if p.name !in parameterRequired {
        outcome := Fail(p.name);
        Settled(Overwrite, ps, before, parameterRequired, k);
        return;
      }
      p.required := parameterRequired[p.name];
      assert ps[..k + 1] == ps[..k] + [p];
    }
    Settled(Overwrite, ps, before, parameterRequired, |ps|);
    outcome := Pass;
  }

  /** Running the filter a second time on the same operation ends the same
      way and leaves every flag as the first run set it. */
  method ApplyTwice(ps: seq<DocumentedParameter>, handler: seq<HandlerParameter>)
      returns (first: Outcome, second: Outcome, once: seq<bool>)
    modifies ps
    ensures Flags(ps) == once
    ensures var m := RequiredByName(handler, NameBindingKinds);
      var n := FirstThrow(Overwrite, old(Flags(ps)), Names(ps), m);
      && first == (if n == |ps| then Pass else Fail(ps[n].name))
      && once[..n] == UpdatedPrefix(Overwrite, old(Flags(ps)), Names(ps), m)
      && forall i :: n <= i < |ps| && ps[i] !in ps[..n] ==> once[i] == old(ps[i].required)
    ensures second == first
  {
    ghost var before := Flags(ps);
    FlagsAgreeOnAliases(ps);
    first := Apply(Some(ps), handler);
    once := Flags(ps);
    FlagsAgreeOnAliases(ps);
    second := Apply(Some(ps), handler);
    FlagsAgreeOnAliases(ps);
    var m := RequiredByName(handler, NameBindingKinds);
    var n := FirstThrow(Overwrite, before, Names(ps), m);
    SecondRunStopsAlike(Overwrite, ps, m, n, before, once);
    SecondRunChangesNothing(Overwrite, ps, m, n, before, once, Flags(ps));
  }
}
