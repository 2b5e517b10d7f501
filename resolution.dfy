/** The pure part of the filter, shared by both variants: required-ness of a
    handler parameter, its canonical name for a given set of name-binding
    attribute kinds, the first-wins `name -> required` dictionary, and what a
    complete run does to the documented flags under each merge rule. */
module Resolution {
  import opened ParameterModel

  /** Whether some annotation has kind `k`; the arguments of the annotation
      play no part (the `Any` over the attribute types). */
  function HasAttribute(annotations: seq<Annotation>, k: Kind): (b: bool)
    ensures b <==> exists i :: 0 <= i < |annotations| && annotations[i].kind == k
  {
    if |annotations| == 0 then false
    else if annotations[0].kind == k then true
    else
      var b := HasAttribute(annotations[1..], k);
      assert forall i :: 1 <= i < |annotations| ==> annotations[i] == annotations[1..][i - 1];
      b
  }

  /** The derived required-ness of a handler parameter. */
  function IsRequired(p: HandlerParameter): (b: bool)
    ensures b <==> exists i :: 0 <= i < |p.annotations| && p.annotations[i].kind == Required
  {
    HasAttribute(p.annotations, Required)
  }

  /** Annotations with the same kinds at the same positions give the same
      answer, whatever their named arguments. */
  lemma HasAttributeIgnoresArguments(a: seq<Annotation>, b: seq<Annotation>, k: Kind)
    requires |a| == |b|
    requires forall i :: 0 <= i < |a| ==> a[i].kind == b[i].kind
    ensures HasAttribute(a, k) == HasAttribute(b, k)
  {
    if |a| > 0 {
      HasAttributeIgnoresArguments(a[1..], b[1..], k);
    }
  }

  /** The position of the first annotation whose kind is a name-binding kind. */
  function FirstBinding(annotations: seq<Annotation>, binding: set<Kind>): (r: Option<nat>)
    ensures r.Some? ==> r.value < |annotations| && annotations[r.value].kind in binding
    ensures r.Some? ==> forall j :: 0 <= j < r.value ==> annotations[j].kind !in binding
    ensures r.None? <==> forall j :: 0 <= j < |annotations| ==> annotations[j].kind !in binding
  {
    if |annotations| == 0 then None
    else if annotations[0].kind in binding then Some(0)
    else
      var rest := FirstBinding(annotations[1..], binding);
      assert forall i :: 1 <= i < |annotations| ==> annotations[i] == annotations[1..][i - 1];
      match rest
      case None => None
      case Some(i) => Some(i + 1)
  }

  /** The name under which a handler parameter is looked up: the first named
      argument of its first name-binding annotation when that annotation has
      one, and its declared name otherwise (no such annotation, or one
      without named arguments). */
  function CanonicalName(p: HandlerParameter, binding: set<Kind>): (name: string)
    ensures (forall j :: 0 <= j < |p.annotations| ==> p.annotations[j].kind !in binding) ==>
              name == p.declaredName
    ensures forall i :: 0 <= i < |p.annotations| && p.annotations[i].kind in binding
                        && (forall j :: 0 <= j < i ==> p.annotations[j].kind !in binding) ==>
              name == if |p.annotations[i].namedArgs| == 0 then p.declaredName
                      else p.annotations[i].namedArgs[0]
  {
    match FirstBinding(p.annotations, binding)
    case None => p.declaredName
    case Some(i) =>
      var a := p.annotations[i];
      if |a.namedArgs| == 0 then p.declaredName else a.namedArgs[0]
  }

  /** The canonical name depends on the binding kinds only through the kinds
      that actually occur among the annotations. */
  lemma CanonicalNameAgrees(p: HandlerParameter, b1: set<Kind>, b2: set<Kind>)
    requires forall j :: 0 <= j < |p.annotations| ==> (p.annotations[j].kind in b1 <==> p.annotations[j].kind in b2)
    ensures CanonicalName(p, b1) == CanonicalName(p, b2)
  {
    var r1 := FirstBinding(p.annotations, b1);
    if r1.Some? {
      assert p.annotations[r1.value].kind in b2;
    }
  }

  /** Whether position `i` is the first occurrence of its key. */
  predicate FirstOccurrence<K(==)>(keys: seq<K>, i: nat)
    requires i < |keys|
  {
    forall j :: 0 <= j < i ==> keys[j] != keys[i]
  }

  /** The position of the first occurrence of `key`. */
  function FirstIndex<K(==)>(keys: seq<K>, key: K): (i: nat)
    requires key in keys
    ensures i < |keys| && keys[i] == key && FirstOccurrence(keys, i)
  {
    if keys[0] == key then 0
    else
      var i := FirstIndex(keys[1..], key);
      assert forall j :: 1 <= j < |keys| ==> keys[1..][j - 1] == keys[j];
      1 + i
  }

  /** `GroupBy(key, value).ToDictionary(g => g.Key, g => g.First())`: one
      entry per distinct key, holding the value of the first pair with that
      key; later pairs with the same key are ignored. */
  function FirstWins<K(==)>(keys: seq<K>, values: seq<bool>): (m: map<K, bool>)
    requires |keys| == |values|
    ensures forall i :: 0 <= i < |keys| ==> keys[i] in m
    ensures forall key :: key in m ==> key in keys
    ensures forall i :: 0 <= i < |keys| && FirstOccurrence(keys, i) ==> m[keys[i]] == values[i]
  {
    map key | key in keys :: values[FirstIndex(keys, key)]
  }

  /** Only the values at first occurrences matter. */
  lemma FirstWinsDependsOnFirsts<K>(keys: seq<K>, v1: seq<bool>, v2: seq<bool>)
    requires |keys| == |v1| == |v2|
    requires forall i :: 0 <= i < |keys| && FirstOccurrence(keys, i) ==> v1[i] == v2[i]
    ensures FirstWins(keys, v1) == FirstWins(keys, v2)
  {
    var m1, m2 := FirstWins(keys, v1), FirstWins(keys, v2);
    forall key | key in keys
      ensures m1[key] == m2[key]
    {
      var i := FirstIndex(keys, key);
    }
  }

  /** The canonical names of the handler parameters, in order. */
  function CanonicalNames(h: seq<HandlerParameter>, binding: set<Kind>): seq<string>
  {
    seq(|h|, i requires 0 <= i < |h| => CanonicalName(h[i], binding))
  }

  /** The derived required-ness of the handler parameters, in order. */
  function RequiredFlags(h: seq<HandlerParameter>): seq<bool>
  {
    seq(|h|, i requires 0 <= i < |h| => IsRequired(h[i]))
  }

  /** The dictionary the filter builds from the handler parameters: every
      canonical name of a handler parameter is a key. */
  function RequiredByName(h: seq<HandlerParameter>, binding: set<Kind>): (m: map<string, bool>)
    ensures forall i :: 0 <= i < |h| ==> CanonicalName(h[i], binding) in m
  {
    var keys := CanonicalNames(h, binding);
    var m := FirstWins(keys, RequiredFlags(h));
    assert forall i :: 0 <= i < |h| ==> keys[i] == CanonicalName(h[i], binding);
    m
  }

  /** The dictionary has a key for every handler parameter, and holds for
      each key the required-ness of the first handler parameter with that
      canonical name. */
  lemma RequiredByNameFirstWins(h: seq<HandlerParameter>, binding: set<Kind>, i: nat)
    requires i < |h|
    ensures CanonicalName(h[i], binding) in RequiredByName(h, binding)
    ensures (forall j :: 0 <= j < i ==> CanonicalName(h[j], binding) != CanonicalName(h[i], binding)) ==>
              RequiredByName(h, binding)[CanonicalName(h[i], binding)] == IsRequired(h[i])
  {
    var keys := CanonicalNames(h, binding);
    assert keys[i] == CanonicalName(h[i], binding);
    if forall j :: 0 <= j < i ==> CanonicalName(h[j], binding) != CanonicalName(h[i], binding) {
      assert FirstOccurrence(keys, i);
    }
  }

  /** Every key of the dictionary is the canonical name of some handler parameter. */
  lemma RequiredByNameKeys(h: seq<HandlerParameter>, binding: set<Kind>, key: string)
    requires key in RequiredByName(h, binding)
    ensures exists j :: 0 <= j < |h| && CanonicalName(h[j], binding) == key
  {
    var keys := CanonicalNames(h, binding);
    var j := FirstIndex(keys, key);
    assert CanonicalName(h[j], binding) == key;
  }

  /** A handler parameter whose canonical name an earlier one already has is
      ignored: replacing it by any parameter of the same canonical name, with
      any required-ness, leaves the dictionary as it was. */
  lemma LaterDuplicateIgnored(h: seq<HandlerParameter>, binding: set<Kind>, i: nat, j: nat, y: HandlerParameter)
    requires i < j < |h|
    requires CanonicalName(h[i], binding) == CanonicalName(h[j], binding)
    requires CanonicalName(y, binding) == CanonicalName(h[j], binding)
    ensures RequiredByName(h[j := y], binding) == RequiredByName(h, binding)
  {
    var h2 := h[j := y];
    var keys := CanonicalNames(h, binding);
    assert CanonicalNames(h2, binding) == keys;
    assert keys[i] == keys[j];
    assert !FirstOccurrence(keys, j);
    FirstWinsDependsOnFirsts(keys, RequiredFlags(h2), RequiredFlags(h));
  }

  /** How the derived required-ness is combined with the flag already there. */
  datatype MergeMode = Overwrite | OrMerge

  /** Whether the update of one documented flag completes without the
      dictionary indexer throwing: the name is a key, or the OR-merge finds
      the flag already set, so that `||` never evaluates the indexer. */
  predicate Evaluates(mode: MergeMode, prior: bool, name: string, m: map<string, bool>): (b: bool)
    ensures mode == Overwrite ==> (b <==> name in m)
    ensures mode == OrMerge ==> (b <==> prior || name in m)
  {
    name in m || (mode == OrMerge && prior)
  }

  /** The new value of one documented flag: the dictionary's value for its
      name, OR-ed with the prior flag under the OR-merge. A set flag stays set
      under the OR-merge, and a second update of the result cannot throw. */
  function NewFlag(mode: MergeMode, prior: bool, name: string, m: map<string, bool>): (r: bool)
    requires Evaluates(mode, prior, name, m)
    ensures Evaluates(mode, r, name, m)
    ensures mode == OrMerge && prior ==> r
    ensures name in m ==> r == (if mode == Overwrite then m[name] else prior || m[name])
  {
    match mode
    case Overwrite => m[name]
    case OrMerge => prior || m[name]
  }

  /** The position of the first documented parameter whose update throws,
      given the flag found at each position, or the number of parameters when
      none does. */
  function FirstThrow(mode: MergeMode, flags: seq<bool>, names: seq<string>, m: map<string, bool>): (n: nat)
    requires |flags| == |names|
    ensures n <= |names|
    ensures forall j :: 0 <= j < n ==> Evaluates(mode, flags[j], names[j], m)
    ensures n < |names| ==> !Evaluates(mode, flags[n], names[n], m)
  {
    if |names| == 0 || !Evaluates(mode, flags[0], names[0], m) then 0
    else
      var n := FirstThrow(mode, flags[1..], names[1..], m);
      assert forall j :: 1 <= j < |names| ==> names[j] == names[1..][j - 1] && flags[j] == flags[1..][j - 1];
      1 + n
  }

  /** Under overwrite the run stops at the first name missing from the
      dictionary, whatever the flags. The OR-merge never stops earlier: it
      stops only at a missing name whose flag is clear, and never when every
      flag is set. */
  lemma {:induction false} ThrowPositions(flags: seq<bool>, names: seq<string>, m: map<string, bool>)
    requires |flags| == |names|
    ensures var n := FirstThrow(Overwrite, flags, names, m);
      (forall j :: 0 <= j < n ==> names[j] in m) && (n < |names| ==> names[n] !in m)
    ensures FirstThrow(Overwrite, flags, names, m) <= FirstThrow(OrMerge, flags, names, m)
    ensures var n := FirstThrow(OrMerge, flags, names, m);
      n < |names| ==> names[n] !in m && !flags[n]
    ensures (forall j :: 0 <= j < |flags| ==> flags[j]) ==> FirstThrow(OrMerge, flags, names, m) == |names|
  {
  }

  /** The documented flags after every update has completed. */
  function Resolved(mode: MergeMode, flags: seq<bool>, names: seq<string>, m: map<string, bool>): (r: seq<bool>)
    requires |flags| == |names|
    requires forall i :: 0 <= i < |names| ==> Evaluates(mode, flags[i], names[i], m)
    ensures |r| == |flags|
    ensures forall i :: 0 <= i < |r| ==> Evaluates(mode, r[i], names[i], m)
  {
    if |flags| == 0 then []
    else
      assert forall i :: 1 <= i < |names| ==> names[i] == names[1..][i - 1] && flags[i] == flags[1..][i - 1];
      [NewFlag(mode, flags[0], names[0], m)] + Resolved(mode, flags[1..], names[1..], m)
  }

  /** The flags a write-back leaves at the positions it updates before it
      stops: `Resolved` of the prefix up to `FirstThrow`. */
  function UpdatedPrefix(mode: MergeMode, flags: seq<bool>, names: seq<string>, m: map<string, bool>): (r: seq<bool>)
    requires |flags| == |names|
    ensures |r| == FirstThrow(mode, flags, names, m)
    ensures forall i :: 0 <= i < |r| ==> Evaluates(mode, r[i], names[i], m)
  {
    var n := FirstThrow(mode, flags, names, m);
    assert forall j :: 0 <= j < n ==> flags[..n][j] == flags[j] && names[..n][j] == names[j];
    Resolved(mode, flags[..n], names[..n], m)
  }

  /** Position `k` of the result holds the update of the prior flag there
      for the name there. */
  lemma {:induction false} ResolvedAt(mode: MergeMode, flags: seq<bool>, names: seq<string>, m: map<string, bool>, k: nat)
    requires |flags| == |names|
    requires forall i :: 0 <= i < |names| ==> Evaluates(mode, flags[i], names[i], m)
    requires k < |flags|
    ensures Resolved(mode, flags, names, m)[k] == NewFlag(mode, flags[k], names[k], m)
  {
    if k > 0 {
      ResolvedAt(mode, flags[1..], names[1..], m, k - 1);
    } else if |flags| > 1 {
      ResolvedAt(mode, flags[1..], names[1..], m, 0);
    }
  }

  /** Flags that are, position by position, the update of `before` are
      exactly `Resolved` of `before`. */
  lemma ResolvedFromPointwise(mode: MergeMode, before: seq<bool>, after: seq<bool>, names: seq<string>, m: map<string, bool>)
    requires |before| == |after| == |names|
    requires forall i :: 0 <= i < |names| ==> Evaluates(mode, before[i], names[i], m)
    requires forall i :: 0 <= i < |names| ==> after[i] == NewFlag(mode, before[i], names[i], m)
    ensures after == Resolved(mode, before, names, m)
  {
    var r := Resolved(mode, before, names, m);
    forall k | 0 <= k < |before|
      ensures r[k] == after[k]
    {
      ResolvedAt(mode, before, names, m, k);
    }
    if |before| > 0 {
      ResolvedAt(mode, before, names, m, 0);
    }
  }

  /** A second complete run changes nothing, under either merge rule. */
  lemma {:induction false} ResolvedIdempotent(mode: MergeMode, flags: seq<bool>, names: seq<string>, m: map<string, bool>)
    requires |flags| == |names|
    requires forall i :: 0 <= i < |names| ==> Evaluates(mode, flags[i], names[i], m)
    ensures Resolved(mode, Resolved(mode, flags, names, m), names, m) == Resolved(mode, flags, names, m)
  {
    if |flags| > 0 {
      ResolvedIdempotent(mode, flags[1..], names[1..], m);
    }
  }

  /** Under the OR-merge a flag that was set stays set, and the result is
      set exactly where the prior flag or the derived required-ness is; a set
      flag whose name is missing from the dictionary is passed over. */
  lemma OrMergeMonotone(flags: seq<bool>, names: seq<string>, m: map<string, bool>, k: nat)
    requires |flags| == |names|
    requires forall i :: 0 <= i < |names| ==> Evaluates(OrMerge, flags[i], names[i], m)
    requires k < |flags|
    ensures flags[k] ==> Resolved(OrMerge, flags, names, m)[k]
    ensures Resolved(OrMerge, flags, names, m)[k] <==> flags[k] || m[names[k]]
  {
    ResolvedAt(OrMerge, flags, names, m, k);
  }

  /** Under overwrite the prior flags play no part. */
  lemma {:induction false} OverwriteIgnoresPrior(f1: seq<bool>, f2: seq<bool>, names: seq<string>, m: map<string, bool>)
    requires |f1| == |f2| == |names|
    requires forall i :: 0 <= i < |names| ==> names[i] in m
    ensures Resolved(Overwrite, f1, names, m) == Resolved(Overwrite, f2, names, m)
  {
    if |f1| > 0 {
      OverwriteIgnoresPrior(f1[1..], f2[1..], names[1..], m);
    }
  }

  /** End to end: a documented parameter named like handler parameter `i`,
      the first with that canonical name, gets whether `i` carries the
      required attribute, OR-ed with its prior flag under the OR-merge. */
  lemma FlagFollowsHandler(mode: MergeMode, flags: seq<bool>, names: seq<string>, h: seq<HandlerParameter>,
                           binding: set<Kind>, k: nat, i: nat)
    requires |flags| == |names|
    requires forall j :: 0 <= j < |names| ==> Evaluates(mode, flags[j], names[j], RequiredByName(h, binding))
    requires k < |names| && i < |h|
    requires names[k] == CanonicalName(h[i], binding)
    requires forall j :: 0 <= j < i ==> CanonicalName(h[j], binding) != CanonicalName(h[i], binding)
    ensures Resolved(mode, flags, names, RequiredByName(h, binding))[k]
            == (if mode == Overwrite then IsRequired(h[i]) else flags[k] || IsRequired(h[i]))
  {
    ResolvedAt(mode, flags, names, RequiredByName(h, binding), k);
    RequiredByNameFirstWins(h, binding, i);
  }

  /** Where a write-back loop over documented parameters stops, its
      invariant in the terms of `FirstThrow` and `Resolved`. */
  lemma Settled(mode: MergeMode, ps: seq<DocumentedParameter>, before: seq<bool>, m: map<string, bool>, n: nat)
    requires n <= |ps| == |before|
    requires forall j :: 0 <= j < n ==> Evaluates(mode, before[j], ps[j].name, m)
    requires n < |ps| ==> !Evaluates(mode, before[n], ps[n].name, m)
    requires forall j :: 0 <= j < n ==> ps[j].required == NewFlag(mode, before[j], ps[j].name, m)
    ensures n == FirstThrow(mode, before, Names(ps), m)
    ensures Flags(ps)[..n] == UpdatedPrefix(mode, before, Names(ps), m)
  {
    assert forall j :: 0 <= j < |ps| ==> Names(ps)[j] == ps[j].name;
    ResolvedFromPointwise(mode, before[..n], Flags(ps)[..n], Names(ps)[..n], m);
  }

  /** The flags of a list of documented parameters agree wherever the same
      object occurs twice. */
  lemma FlagsAgreeOnAliases(ps: seq<DocumentedParameter>)
    ensures |Flags(ps)| == |ps|
    ensures forall i, j :: 0 <= i < |ps| && 0 <= j < |ps| && ps[i] == ps[j] ==> Flags(ps)[i] == Flags(ps)[j]
  {
  }

  /** A second write-back with the same dictionary over flags that a first
      one produced, stopped at `n`, stops at `n` as well: every update before
      `n` now completes, and the object at `n` was not reached before, so its
      flag is the one that made the first run throw. */
  lemma SecondRunStopsAlike(mode: MergeMode, ps: seq<DocumentedParameter>, m: map<string, bool>, n: nat,
                            before: seq<bool>, once: seq<bool>)
    requires |before| == |once| == |ps|
    requires n == FirstThrow(mode, before, Names(ps), m)
    requires forall i, j :: 0 <= i < |ps| && 0 <= j < |ps| && ps[i] == ps[j] ==> before[i] == before[j]
    requires once[..n] == Resolved(mode, before[..n], Names(ps)[..n], m)
    requires forall i :: n <= i < |ps| && ps[i] !in ps[..n] ==> once[i] == before[i]
    ensures FirstThrow(mode, once, Names(ps), m) == n
  {
    var names := Names(ps);
    forall j | 0 <= j < n
      ensures Evaluates(mode, once[j], names[j], m)
    {
      assert once[j] == once[..n][j] && names[j] == names[..n][j];
    }
    if n < |ps| {
      assert forall j :: 0 <= j < n && ps[j] == ps[n] ==> names[j] == names[n] && before[j] == before[n];
      assert ps[n] !in ps[..n];
    }
  }

  /** A second write-back with the same dictionary over flags that a first
      one produced changes nothing: the updated prefix is a fixed point of
      `Resolved`, the positions after it that the loop never reached keep
      their flags, and the remaining positions hold an object already seen. */
  lemma SecondRunChangesNothing(mode: MergeMode, ps: seq<DocumentedParameter>, m: map<string, bool>, n: nat,
                                before: seq<bool>, once: seq<bool>, after: seq<bool>)
    requires |before| == |once| == |after| == |ps|
    requires n == FirstThrow(mode, before, Names(ps), m)
    requires forall i, j :: 0 <= i < |ps| && 0 <= j < |ps| && ps[i] == ps[j] ==> once[i] == once[j] && after[i] == after[j]
    requires once[..n] == Resolved(mode, before[..n], Names(ps)[..n], m)
    requires after[..n] == Resolved(mode, once[..n], Names(ps)[..n], m)
    requires forall i :: n <= i < |ps| && ps[i] !in ps[..n] ==> after[i] == once[i]
    ensures after == once
  {
    ResolvedIdempotent(mode, before[..n], Names(ps)[..n], m);
    forall i | 0 <= i < |ps|
      ensures after[i] == once[i]
    {
      if i < n {
        assert after[..n][i] == once[..n][i];
      } else if ps[i] in ps[..n] {
        var j :| 0 <= j < n && ps[j] == ps[i];
        assert after[..n][j] == once[..n][j];
      }
    }
  }
}
