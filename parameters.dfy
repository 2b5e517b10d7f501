/** The data the required-attribute operation filter works on, with reflection
    replaced by plain values: the annotations of a handler parameter in
    declaration order, and the documented parameters of one operation as
    objects whose `required` flag the filter writes in place. */
module ParameterModel {

  /** The attribute types the filter distinguishes. `Other` stands for any
      attribute type it does not look at (its type name is kept only so that
      different unrelated attributes remain different values). */
  datatype Kind =
    | Required
    | FromQuery
    | FromForm
    | FromRoute
    | FromHeader
    | FromBody
    | Other(typeName: string)

  /** One custom attribute on a handler parameter: its type and the values of
      its named arguments, in the order they were written. */
  datatype Annotation = Annotation(kind: Kind, namedArgs: seq<string>)

  /** One formal parameter of the action method behind an operation. */
  datatype HandlerParameter = HandlerParameter(declaredName: string, annotations: seq<Annotation>)

  datatype Option<+T> = None | Some(value: T)

  /** How one run of the filter ends: normally, or with the dictionary
      indexer failing on the name of a documented parameter that no handler
      parameter resolves to. */
  datatype Outcome = Pass | Fail(unresolved: string)

  /** A parameter of the generated operation description. Its name is fixed;
      its `required` flag is what the filter corrects. */
  class DocumentedParameter {
    const name: string
    var required: bool

    constructor (name: string, required: bool)
      ensures this.name == name && this.required == required
    {
      this.name := name;
      this.required := required;
    }
  }

  /** The names of the documented parameters, position by position. */
  function Names(ps: seq<DocumentedParameter>): seq<string>
  {
    seq(|ps|, i requires 0 <= i < |ps| => ps[i].name)
  }

  /** The current `required` flags of the documented parameters, position by position. */
  function Flags(ps: seq<DocumentedParameter>): seq<bool>
    reads ps
  {
    seq(|ps|, i requires 0 <= i < |ps| reads ps => ps[i].required)
  }

  /** The objects a run of the filter may write: the documented parameters,
      or nothing when the operation has no parameter list. */
  function Targets(parameters: Option<seq<DocumentedParameter>>): set<DocumentedParameter>
  {
    if parameters.None? then {} else set p | p in parameters.value
  }
}
