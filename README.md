# Required-attribute operation filter, modelled in Dafny

This project models a Swagger operation filter, `RequiredAttributeOperationFilter.Apply`.
The filter corrects the `Required` flag of each documented parameter of one API operation.
It reads the attributes on the parameters of the action method behind the operation:

1. The **proper name** of a handler parameter is the first named argument of its first
   name-binding attribute. If that attribute has no named argument, or there is no such
   attribute, it is the declared name.
2. The **required-ness** of a handler parameter is whether it carries a `[Required]`
   attribute. The attribute's arguments play no part.
3. The handler parameters are grouped by proper name into a `name -> bool` dictionary.
   The first parameter of each group decides the value.
4. A loop writes each documented parameter's flag from the dictionary entry for its name.
   The indexer throws when it is evaluated on a missing name. The overwrite variant always
   evaluates it. The OR-merge variant evaluates `p.Required || parameterRequired[p.Name]`, and
   C#'s `||` skips its right operand when the flag is already set. So a set flag with a missing
   name is passed over, and the loop goes on.

The repository ships two variants of the filter:

| variant | flag update | name-binding attributes |
|---|---|---|
| `Swagger.Filters` (module `SwaggerFilters`) | OR-merge: `p.Required \|\| map[name]` | `FromQuery`, `FromForm`, `FromRoute`, `FromHeader` |
| `RequiredParametersSwagger` (module `RequiredParametersSwagger`) | overwrite: `map[name]` | `FromQuery` only |

Files:

- `parameters.dfy` (module `ParameterModel`) holds the data.
  - An attribute is an `Annotation(kind, namedArgs)`.
  - A handler parameter is its declared name plus its annotations in declaration order.
  - A documented parameter is an object: a constant `name` and a mutable `required` flag.
  - The operation's parameter list is `Option<seq<DocumentedParameter>>`, where `None` stands for `null`.
- `resolution.dfy` (module `Resolution`) holds the pure part both variants share, plus the lemmas about it.
  - `HasAttribute`, `CanonicalName`, and the dictionary `RequiredByName` built by `FirstWins`.
  - `Evaluates` and `NewFlag`: whether one update completes, and the flag it writes.
  - `FirstThrow`: where the indexer throws. This depends on the merge rule and on the flags.
  - `Resolved`: the flags after a complete run, for each of the two merge rules.
  - The set of name-binding kinds is a parameter of `CanonicalName`.
- `swagger_filters.dfy` and `required_parameters_swagger.dfy` hold one variant each.
  - Its set of name-binding kinds.
  - `ProperName`: the `foreach` with early returns, proved equal to `CanonicalName`.
  - `Apply`: the null check, then building the dictionary.
  - `WriteBack`: the `foreach` over the documented parameters, a loop that updates objects in place.
  - `ApplyTwice`: running the filter twice.
- `variants.dfy` (module `Variants`) relates the two variants and works through the uid/page example.

A thrown `KeyNotFoundException` is modelled as the outcome `Fail(name)`. When that happens,
the parameters before the failing one have already been updated, as the C# `foreach` leaves them.
In the OR-merge variant, only a missing name whose flag is clear stops the run.
The same documented-parameter object may occur more than once in the list. The contracts allow
for this aliasing.
`FirstThrow` reads the flags the run started from. When the loop meets an object a second time,
the object carries the flag written on its first visit. Its name is the same, so whether its
update throws does not change.

## Model

| member | source | states |
|---|---|---|
| `Resolution.HasAttribute` | Swagger.Filters.RequiredAttribute/RequiredAttributeOperationFilter.cs:35-38 | true exactly when some annotation has the given kind (`Any` over the attribute types) |
| `Resolution.IsRequired` | Swagger.Filters.RequiredAttribute/RequiredAttributeOperationFilter.cs:29 | true exactly when some annotation of the handler parameter is `[Required]` (`HasAttribute<RequiredAttribute>`) |
| `Resolution.HasAttributeIgnoresArguments` | RequiredParametersSwagger/RequiredAttributeOperationFilter.cs:36-39 | the answer depends only on the kinds of the annotations, position by position, not on their arguments |
| `Resolution.FirstBinding` | Swagger.Filters.RequiredAttribute/RequiredAttributeOperationFilter.cs:51-58 | returns the index of the first annotation whose kind is name-binding, with no name-binding kind before it; returns none exactly when no annotation is name-binding |
| `Resolution.CanonicalName` | Swagger.Filters.RequiredAttribute/RequiredAttributeOperationFilter.cs:49-66 | with no name-binding annotation, the declared name; otherwise the first name-binding annotation's first named argument, or the declared name when it has none |
| `Resolution.CanonicalNameAgrees` | RequiredParametersSwagger/RequiredAttributeOperationFilter.cs:43-53 | two sets of name-binding kinds that classify every present annotation alike give the same canonical name |
| `Resolution.FirstIndex` | Swagger.Filters.RequiredAttribute/RequiredAttributeOperationFilter.cs:30 | the index returned holds the key, and no earlier index does (the element that `First()` picks from a group) |
| `Resolution.FirstWins` | Swagger.Filters.RequiredAttribute/RequiredAttributeOperationFilter.cs:28-30 | the keys of the dictionary are exactly the keys of the pairs; at each key's first occurrence, the dictionary holds that pair's value |
| `Resolution.FirstWinsDependsOnFirsts` | RequiredParametersSwagger/RequiredAttributeOperationFilter.cs:29-31 | values at non-first occurrences of a key never affect the dictionary |
| `Resolution.RequiredByName` | Swagger.Filters.RequiredAttribute/RequiredAttributeOperationFilter.cs:28-30 | the dictionary built from the handler parameters has every handler parameter's canonical name as a key |
| `Resolution.RequiredByNameFirstWins` | Swagger.Filters.RequiredAttribute/RequiredAttributeOperationFilter.cs:28-30 | every handler parameter's canonical name is a key; the first parameter with a given name supplies that key's required-ness |
| `Resolution.RequiredByNameKeys` | RequiredParametersSwagger/RequiredAttributeOperationFilter.cs:29-31 | every key is the canonical name of some handler parameter |
| `Resolution.LaterDuplicateIgnored` | RequiredParametersSwagger/RequiredAttributeOperationFilter.cs:29-31 | replacing a later duplicate with any parameter of the same canonical name, whatever its required-ness, leaves the dictionary unchanged |
| `Resolution.Evaluates` | Swagger.Filters.RequiredAttribute/RequiredAttributeOperationFilter.cs:32 | whether one update completes without the indexer throwing: under overwrite exactly when the name is a key; under the OR-merge exactly when the name is a key or the flag is already set, because `\|\|` then never evaluates the indexer |
| `Resolution.NewFlag` | Swagger.Filters.RequiredAttribute/RequiredAttributeOperationFilter.cs:32 | the value one update writes: the dictionary value, OR-ed with the prior flag under the OR-merge. A set flag stays set under the OR-merge, where `||` returns without the lookup. The written flag can be updated again without throwing. |
| `Resolution.FirstThrow` | Swagger.Filters.RequiredAttribute/RequiredAttributeOperationFilter.cs:32 | every update before the returned position completes: its name is a key, or the OR-merge finds the flag there already set. The update at that position, if any, throws. |
| `Resolution.ThrowPositions` | RequiredParametersSwagger/RequiredAttributeOperationFilter.cs:33 | under overwrite the run stops at the first missing name, whatever the flags. The OR-merge never stops earlier. It stops only at a missing name whose flag is clear, and never when every flag is set. |
| `Resolution.Resolved` | Swagger.Filters.RequiredAttribute/RequiredAttributeOperationFilter.cs:32 | the flags after a complete run, one per documented parameter. It is defined whenever no update throws, including OR-merge runs that pass over missing names with set flags. Each result flag can be updated again without throwing. |
| `Resolution.UpdatedPrefix` | Swagger.Filters.RequiredAttribute/RequiredAttributeOperationFilter.cs:32 | the flags a run leaves before it stops: one per position before `FirstThrow`, each of which a second update handles without throwing |
| `Resolution.ResolvedAt` | RequiredParametersSwagger/RequiredAttributeOperationFilter.cs:33 | each position of the result holds `NewFlag` of the prior flag and the name there |
| `Resolution.ResolvedFromPointwise` | Swagger.Filters.RequiredAttribute/RequiredAttributeOperationFilter.cs:32 | flags that equal `NewFlag` at every position equal `Resolved` |
| `Resolution.ResolvedIdempotent` | Swagger.Filters.RequiredAttribute/RequiredAttributeOperationFilter.cs:32 | under either merge rule, resolving the resolved flags again gives the same flags |
| `Resolution.OrMergeMonotone` | Swagger.Filters.RequiredAttribute/RequiredAttributeOperationFilter.cs:32 | under the OR-merge a true flag stays true, even when its name is missing, and a result flag is true exactly when the prior flag or the derived required-ness was |
| `Resolution.OverwriteIgnoresPrior` | RequiredParametersSwagger/RequiredAttributeOperationFilter.cs:33 | under overwrite, any two sets of prior flags give the same result |
| `Resolution.FlagFollowsHandler` | Swagger.Filters.RequiredAttribute/RequiredAttributeOperationFilter.cs:28-32 | end to end: a documented parameter named after the first handler parameter with that canonical name gets its prior flag merged with that parameter's `[Required]` presence |
| `Resolution.Settled` | RequiredParametersSwagger/RequiredAttributeOperationFilter.cs:33 | where the write-back loop stops, the stopping position is `FirstThrow` of the flags the run started from, and the prefix before it is `UpdatedPrefix` |
| `Resolution.SecondRunStopsAlike` | Swagger.Filters.RequiredAttribute/RequiredAttributeOperationFilter.cs:32 | a second write-back over the flags the first produced stops at the same position. Each parameter it had updated now completes. The one it stopped at was not reached before, so it still carries the flag that made the lookup throw. |
| `Resolution.SecondRunChangesNothing` | RequiredParametersSwagger/RequiredAttributeOperationFilter.cs:33 | a second write-back over the flags the first produced changes no flag, including when objects are aliased or the run stopped early |
| `SwaggerFilters.ProperName` | Swagger.Filters.RequiredAttribute/RequiredAttributeOperationFilter.cs:49-66 | the first `FromQuery`, `FromForm`, `FromRoute` or `FromHeader` attribute gives its first named argument, or the declared name when it has none; with no such attribute, the declared name; equal to `CanonicalName` |
| `SwaggerFilters.Apply` | Swagger.Filters.RequiredAttribute/RequiredAttributeOperationFilter.cs:18-33 | a null parameter list gives `Pass` and nothing may be written. Otherwise the run fails on the first parameter that has a missing name and a clear flag. It passes over missing names with set flags. Everything before the stop is OR-merged, and nothing after it that was not seen before is touched. |
| `SwaggerFilters.WriteBack` | Swagger.Filters.RequiredAttribute/RequiredAttributeOperationFilter.cs:32 | the `foreach` with the short-circuit `\|\|`: every flag before the stop becomes its old value OR the dictionary value. A set flag is kept without a lookup. The stop is the first missing name whose flag is clear. Every object not yet reached keeps its flag. |
| `SwaggerFilters.ApplyTwice` | Swagger.Filters.RequiredAttribute/RequiredAttributeOperationFilter.cs:32 | the first run ends as `Apply` states: the outcome, the updated prefix, and every object not yet reached keeping its flag; a second run ends with the same outcome and leaves every flag as the first run set it |
| `RequiredParametersSwagger.ProperName` | RequiredParametersSwagger/RequiredAttributeOperationFilter.cs:41-54 | only `FromQuery` is considered and every other kind is passed over: the first `FromQuery` gives its first named argument, or the declared name; with none, the declared name; equal to `CanonicalName` |
| `RequiredParametersSwagger.Apply` | RequiredParametersSwagger/RequiredAttributeOperationFilter.cs:19-34 | a null parameter list gives `Pass` and nothing may be written; otherwise fails on the first name missing from the dictionary, whatever the flags, with every flag before it overwritten by the dictionary value, whatever it was before |
| `RequiredParametersSwagger.WriteBack` | RequiredParametersSwagger/RequiredAttributeOperationFilter.cs:33 | the `foreach`: every flag before the first name missing from the dictionary becomes the dictionary value, and every object not yet reached keeps its flag |
| `RequiredParametersSwagger.ApplyTwice` | RequiredParametersSwagger/RequiredAttributeOperationFilter.cs:33 | the first run ends as `Apply` states: the outcome, the overwritten prefix, and every object not yet reached keeping its flag; a second run ends with the same outcome and changes no flag (idempotence of the overwrite) |
| `Variants.SameNameWithoutOtherBindings` | RequiredParametersSwagger/RequiredAttributeOperationFilter.cs:45 | without `FromForm`, `FromRoute` or `FromHeader` attributes, the two variants give the same proper name |
| `Variants.RouteRenamesInFourKindVariantOnly` | Swagger.Filters.RequiredAttribute/RequiredAttributeOperationFilter.cs:54-57 | `[FromRoute(Name = "id")] userId` is named `id` by the four-kind variant and `userId` by the query-only one |
| `Variants.FirstBindingAttributeWins` | RequiredParametersSwagger/RequiredAttributeOperationFilter.cs:43-50 | a bare `FromQuery` followed by `FromQuery(Name = "x")` gives the declared name: only the first binding attribute counts |
| `Variants.UidPageDictionary` | RequiredParametersSwagger/RequiredAttributeOperationFilter.cs:29-31 | from `uid [FromQuery(Name = "uid")] [Required]` and `page [FromQuery]`, both variants build `{uid: true, page: false}` |
| `Variants.UidPageFirstWins` | Swagger.Filters.RequiredAttribute/RequiredAttributeOperationFilter.cs:28-30 | the names `uid, page` with required-ness `true, false` give the dictionary `{uid: true, page: false}` |
| `Variants.UidPageMerge` | RequiredParametersSwagger/RequiredAttributeOperationFilter.cs:33 | with that dictionary, documented flags `uid: false, page: true` become `true, false` under overwrite and `true, true` under the OR-merge |
| `Variants.UnresolvedNameScenario` | RequiredParametersSwagger/RequiredAttributeOperationFilter.cs:33 | with that dictionary, documented names `uid, ghost, page` with clear flags stop at `ghost` under both merge rules |
| `Variants.SetUnresolvedNameScenario` | Swagger.Filters.RequiredAttribute/RequiredAttributeOperationFilter.cs:32 | with `{uid: true, page: true}` and flags `false, true, false`, overwrite stops at `ghost`. The OR-merge passes over `ghost` and completes with `true, true, true`. |
| `Variants.LoneSetUnresolvedName` | Swagger.Filters.RequiredAttribute/RequiredAttributeOperationFilter.cs:32 | a lone documented `ghost: true` with no handler parameters fails in the overwrite variant and passes in the OR-merge variant |
| `Variants.BodyParameterKeepsDeclaredName` | Swagger.Filters.RequiredAttribute/RequiredAttributeOperationFilter.cs:54-57 | `[FromBody] [Required] payload` keeps its declared name in both variants, and it is required |

## Left out

- Reflection is not modelled. `ParameterInfo.CustomAttributes`, the `typeof(T)` comparisons and the
  cast of the action's parameter descriptors to `ControllerParameterDescriptor` become plain data:
  a `Kind` per attribute, in declaration order. So the `InvalidCastException` a descriptor of another
  type would raise is not modelled.
- The cast `(string)attribute.NamedArguments[0].TypedValue.Value` is not modelled. Named-argument values are strings in the model.
- Null values are not modelled: a null override name, a null documented-parameter name, and a null
  `ActionDescriptor.Parameters`. The `ArgumentNullException`s they would raise are left out.
- The Swashbuckle and ASP.NET types (`Operation`, `OperationFilterContext`, `IParameter`) are not modelled.
  The filter sees only the parameter list and the handler's parameters. The documentation generator,
  its other filters and document serialisation are not part of this model.
- Concurrency across operations is not modelled: each call works on its own data.
- `Apply` states "a null list changes nothing" through its write frame only. That frame is the
  empty set when the list is `None`, so nothing can change; there is no further postcondition.
- Each variant's `Apply` builds the dictionary from the pure function `CanonicalName`, not by calling
  the `ProperName` method. `ProperName` is proved equal to `CanonicalName`, so the result is the
  same. The `foreach` write-back is kept as its own method, `WriteBack`, which `Apply` calls.
- Two options have no counterpart in either variant, so neither is modelled:
  - a "skip unchanged" option for a missing name. The overwrite variant always throws on it. The
    OR-merge variant passes it over only when the flag is already set, which is the `||`
    short-circuit and not an option. This is modelled through `Evaluates`.
  - the "ambiguous canonical name" error (both variants silently keep the first duplicate).
  Attributes are treated as an ordered sequence, in the order reflection returns them, taken to be declaration order.
