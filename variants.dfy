/** How the two variants of the filter relate, and the worked examples of the
    required-ness correction stated against the model. */
module Variants {
  import opened ParameterModel
  import opened Resolution
  import SwaggerFilters
  import RequiredParametersSwagger

  /** A parameter carrying none of `FromForm`, `FromRoute` and `FromHeader`
      gets the same canonical name in both variants. */
  lemma SameNameWithoutOtherBindings(p: HandlerParameter)
    requires forall j :: 0 <= j < |p.annotations| ==> p.annotations[j].kind !in {FromForm, FromRoute, FromHeader}
    ensures CanonicalName(p, SwaggerFilters.NameBindingKinds) == CanonicalName(p, RequiredParametersSwagger.NameBindingKinds)
  {
    CanonicalNameAgrees(p, SwaggerFilters.NameBindingKinds, RequiredParametersSwagger.NameBindingKinds);
  }

  /** `[FromRoute(Name = "id")] userId` is renamed by the four-kind variant
      only; the query-only variant passes the attribute over. */
  lemma RouteRenamesInFourKindVariantOnly()
    ensures var p := HandlerParameter("userId", [Annotation(FromRoute, ["id"])]);
      && CanonicalName(p, SwaggerFilters.NameBindingKinds) == "id"
      && CanonicalName(p, RequiredParametersSwagger.NameBindingKinds) == "userId"
  {
    var p := HandlerParameter("userId", [Annotation(FromRoute, ["id"])]);
    assert p.annotations[0].kind in SwaggerFilters.NameBindingKinds;
  }

  /** Only the first name-binding attribute counts, whatever follows it. */
  lemma FirstBindingAttributeWins()
    ensures var p := HandlerParameter("q", [Annotation(Required, []), Annotation(FromQuery, []), Annotation(FromQuery, ["x"])]);
      CanonicalName(p, RequiredParametersSwagger.NameBindingKinds) == "q"
  {
    var p := HandlerParameter("q", [Annotation(Required, []), Annotation(FromQuery, []), Annotation(FromQuery, ["x"])]);
    assert p.annotations[1].kind in RequiredParametersSwagger.NameBindingKinds;
  }

  /** The handler `(string uid [FromQuery(Name = "uid")] [Required], int page [FromQuery])`. */
  function UidPageHandler(): seq<HandlerParameter>
  {
    [ HandlerParameter("uid", [Annotation(FromQuery, ["uid"]), Annotation(Required, [])]),
      HandlerParameter("page", [Annotation(FromQuery, [])]) ]
  }

  /** The names and required-ness of the example handler, in either variant. */
  lemma UidPageDictionary(binding: set<Kind>)
    requires FromQuery in binding && Required !in binding
    ensures RequiredByName(UidPageHandler(), binding) == map["uid" := true, "page" := false]
  {
    var h := UidPageHandler();
    assert h[0].annotations[0].kind in binding;
    assert h[1].annotations[0].kind in binding;
    assert h[0].annotations[1].kind == Required;
    assert !IsRequired(h[1]);
    var keys, values := CanonicalNames(h, binding), RequiredFlags(h);
    assert keys == ["uid", "page"];
    assert values == [true, false];
    assert RequiredByName(h, binding) == FirstWins(keys, values);
    UidPageFirstWins();
  }

  /** The first-wins dictionary of the example's names and required-ness. */
  lemma UidPageFirstWins()
    ensures FirstWins(["uid", "page"], [true, false]) == map["uid" := true, "page" := false]
  {
    var keys: seq<string> := ["uid", "page"];
    assert FirstOccurrence(keys, 0) && FirstOccurrence(keys, 1);
  }

  /** The two merge rules on the documented flags `uid: false, page: true`. */
  lemma UidPageMerge()
    ensures var m := map["uid" := true, "page" := false];
      && Resolved(Overwrite, [false, true], ["uid", "page"], m) == [true, false]
      && Resolved(OrMerge, [false, true], ["uid", "page"], m) == [true, true]
  {
    var m := map["uid" := true, "page" := false];
    assert ["uid", "page"][1..] == ["page"] && [false, true][1..] == [true];
    assert ["page"][1..] == [] && [true][1..] == [];
    assert Resolved(Overwrite, [true], ["page"], m) == [false];
    assert Resolved(OrMerge, [true], ["page"], m) == [true];
  }

  /** A documented `ghost` parameter that no handler parameter resolves to,
      with every flag clear: with the example dictionary both merge rules
      stop at it. */
  lemma UnresolvedNameScenario()
    ensures var m := map["uid" := true, "page" := false];
      && FirstThrow(Overwrite, [false, false, false], ["uid", "ghost", "page"], m) == 1
      && FirstThrow(OrMerge, [false, false, false], ["uid", "ghost", "page"], m) == 1
  {
    assert ["uid", "ghost", "page"][1..] == ["ghost", "page"];
    assert [false, false, false][1..] == [false, false];
  }

  /** The same `ghost` parameter already marked required: the overwrite
      variant throws on it, while the OR-merge never evaluates the indexer
      for it, keeps it set and goes on to update `page`. */
  lemma SetUnresolvedNameScenario()
    ensures var m := map["uid" := true, "page" := true];
      && FirstThrow(Overwrite, [false, true, false], ["uid", "ghost", "page"], m) == 1
      && FirstThrow(OrMerge, [false, true, false], ["uid", "ghost", "page"], m) == 3
      && Resolved(OrMerge, [false, true, false], ["uid", "ghost", "page"], m) == [true, true, true]
  {
    var m := map["uid" := true, "page" := true];
    var flags, names := [false, true, false], ["uid", "ghost", "page"];
    assert names[1..] == ["ghost", "page"] && flags[1..] == [true, false];
    assert names[1..][1..] == ["page"] && flags[1..][1..] == [false];
    assert names[1..][1..][1..] == [] && flags[1..][1..][1..] == [];
  }

  /** A lone `ghost` parameter already marked required, with no handler
      parameters at all: the overwrite variant fails, the OR-merge passes. */
  lemma LoneSetUnresolvedName()
    ensures FirstThrow(Overwrite, [true], ["ghost"], RequiredByName([], RequiredParametersSwagger.NameBindingKinds)) == 0
    ensures FirstThrow(OrMerge, [true], ["ghost"], RequiredByName([], SwaggerFilters.NameBindingKinds)) == 1
  {
  }

  /** `[FromBody] [Required] payload`: neither variant treats `FromBody` as
      name-binding, so both look the parameter up under its declared name,
      and it is required. */
  lemma BodyParameterKeepsDeclaredName()
    ensures var p := HandlerParameter("payload", [Annotation(FromBody, []), Annotation(Required, [])]);
      && CanonicalName(p, SwaggerFilters.NameBindingKinds) == "payload"
      && CanonicalName(p, RequiredParametersSwagger.NameBindingKinds) == "payload"
      && IsRequired(p)
  {
    var p := HandlerParameter("payload", [Annotation(FromBody, []), Annotation(Required, [])]);
    assert p.annotations[1].kind == Required;
  }
}
