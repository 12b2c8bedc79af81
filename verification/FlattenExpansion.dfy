/** How a merged schema is expanded into its branches: the descent through hoisted definitions, what
    it refuses, why it ends, and that the branches mean what the schema did. */
module FlattenExpansion {
  import opened Wrappers
  import opened FlattenModel
  import opened FlattenMerge

  /** What the expansion refuses, and at which branch: the positions count from 1. */
  datatype Refusal =
    | MissingBody(position: seq<nat>, name: string)
    | RepeatedName(position: seq<nat>, name: string, expanding: seq<string>)
    | TaggedNull(position: seq<nat>)
    | UnitMember(position: seq<nat>)
    | Unit
    | VariantName(position: seq<nat>)
    | NonObject(position: seq<nat>, named: string)

  /** Where the expansion stands: the definitions hoisted so far, one still reserved being `Bare`,
      whether the schema is the content of a newtype variant under a tag alone, and whether a `null`
      at the source's own level is a member over `()`. */
  datatype Edge = Edge(defs: map<string, Schema>, besideTag: bool, unitMember: bool)

  type Answer = Result<Option<Branches>, Refusal>

  ghost function Unexpanded(defs: map<string, Schema>, expanding: seq<string>): set<string> {
    set name | name in defs && name !in expanding
  }

  lemma FewerUnexpanded(defs: map<string, Schema>, expanding: seq<string>, name: string)
    requires name in defs && name !in expanding
    ensures |Unexpanded(defs, expanding + [name])| < |Unexpanded(defs, expanding)|
  {
    assert Unexpanded(defs, expanding) == Unexpanded(defs, expanding + [name]) + {name};
  }

  /** The first branch of the content's own choice that is a `null`, which the tag refuses first. */
  function OfferedNull(branches: seq<Schema>): Option<nat> {
    if branches == [] then None
    else if TypeOf(branches[0]) == Some("null") then Some(0)
    else match OfferedNull(branches[1..]) case None => None case Some(at) => Some(at + 1)
  }

  /** What a described type alone settles: the refusal it earns, or an absence. */
  function Settled(edge: Edge, body: Schema, position: seq<nat>): Option<Answer> {
    match TypeOf(body)
    case None => None
    case Some(named) =>
      if named == "null" && |position| == 1 then
        if edge.besideTag then Some(Err(TaggedNull(position)))
        else if edge.unitMember then Some(Err(UnitMember(position)))
        else Some(Ok(Some(Absent)))
      else if named == "null" && position == [] then Some(Err(Unit))
      else if named == "string" && body.listed then Some(Err(VariantName(position)))
      else if named != "object" then Some(Err(NonObject(position, named)))
      else None
  }

  /** The branch tree `schema` contributes. */
  function Expanded(edge: Edge, schema: Schema, expanding: seq<string>, position: seq<nat>): Answer
    decreases |Unexpanded(edge.defs, expanding)|, schema, 1
  {
    if schema.Keywords? && schema.reference.Some? then
      var name := schema.reference.value;
      if name !in edge.defs || edge.defs[name].Bare? then Err(MissingBody(position, name))
      else if name in expanding then Err(RepeatedName(position, name, expanding))
      else
        FewerUnexpanded(edge.defs, expanding, name);
        ExpandedBody(edge, edge.defs[name], expanding + [name], position)
    else ExpandedBody(edge, schema, expanding, position)
  }

  /** The tree of a body, `expanding` being the path below it. */
  function ExpandedBody(edge: Edge, body: Schema, expanding: seq<string>, position: seq<nat>): Answer
    decreases |Unexpanded(edge.defs, expanding)|, body, 0
  {
    match Settled(edge, body, position)
    case Some(answer) => answer
    case None =>
      match UnionOf(body)
      case None => Ok(if body.Bare? then None else Some(Closed(body.members)))
      case Some((spelling, branches)) =>
        if edge.besideTag && position == [] && OfferedNull(branches).Some? then
          Err(TaggedNull([OfferedNull(branches).value + 1]))
        else
          match ExpandedFrom(edge, spelling, branches, 0, expanding, position)
          case Err(refusal) => Err(refusal)
          case Ok(expanded) => Ok(if expanded == [] then None else Some(Choice(spelling, expanded)))
  }

  /** The trees of the branches from `index` on, each at its own place below `position`. */
  function ExpandedFrom(edge: Edge, spelling: Spelling, branches: seq<Schema>, index: nat,
      expanding: seq<string>, position: seq<nat>): Result<seq<Branches>, Refusal>
    requires index <= |branches|
    decreases |Unexpanded(edge.defs, expanding)|, branches, 0, |branches| - index
  {
    if index == |branches| then Ok([])
    else
      match ExpandedBranch(edge, spelling, branches, index, expanding, position)
      case Err(refusal) => Err(refusal)
      case Ok(below) => After(Listed(below), ExpandedFrom(edge, spelling, branches, index + 1, expanding, position))
  }

  function Listed(below: Option<Branches>): seq<Branches> {
    match below case None => [] case Some(tree) => [tree]
  }

  function After(expanded: seq<Branches>, rest: Result<seq<Branches>, Refusal>): Result<seq<Branches>, Refusal> {
    match rest case Err(refusal) => Err(refusal) case Ok(trees) => Ok(expanded + trees)
  }

  lemma AfterNone(rest: Result<seq<Branches>, Refusal>)
    ensures After([], rest) == rest
  {
    if rest.Ok? { assert [] + rest.value == rest.value; }
  }

  lemma AfterBoth(one: seq<Branches>, two: seq<Branches>, rest: Result<seq<Branches>, Refusal>)
    ensures After(one, After(two, rest)) == After(one + two, rest)
  {
    if rest.Ok? { assert one + (two + rest.value) == one + two + rest.value; }
  }

  function ExpandedBranch(edge: Edge, spelling: Spelling, branches: seq<Schema>, index: nat,
      expanding: seq<string>, position: seq<nat>): Answer
    requires index < |branches|
    decreases |Unexpanded(edge.defs, expanding)|, branches, 0, 0
  {
    var at := position + [index + 1];
    var tagged := if spelling == OneOf then UnitVariant(branches[index]) else None;
    if tagged.Some? then
      if |at| == 1 then Ok(Some(Tagged(tagged.value))) else Err(VariantName(at))
    else Expanded(edge, branches[index], expanding, at)
  }

  // ----- the walk -----

  /** The walk that expands one merged schema, with the names it is descending through and the branch
      it has reached. */
  class Walk {
    const edge: Edge
    var expanding: seq<string>
    var position: seq<nat>

    constructor (edge: Edge)
      ensures this.edge == edge && expanding == [] && position == []
    {
      this.edge := edge;
      expanding := [];
      position := [];
    }

    method Expand(schema: Schema) returns (r: Answer)
      modifies this
      ensures r == Expanded(edge, schema, old(expanding), old(position))
      ensures r.Ok? ==> expanding == old(expanding) && position == old(position)
      decreases |Unexpanded(edge.defs, expanding)|, schema
    {
      var resolved: Option<string> := None;
      var body := schema;
      if schema.Keywords? && schema.reference.Some? {
        var name := schema.reference.value;
        if name !in edge.defs || edge.defs[name].Bare? {
          return Err(MissingBody(position, name));
        }
        if name in expanding {
          return Err(RepeatedName(position, name, expanding));
        }
        resolved := Some(name);
        body := edge.defs[name];
        FewerUnexpanded(edge.defs, expanding, name);
      }
      var settled := Settled(edge, body, position);
      if settled.Some? {
        return settled.value;
      }
      var union := UnionOf(body);
      if union.None? {
        return Ok(if body.Bare? then None else Some(Closed(body.members)));
      }
      var spelling, branches := union.value.0, union.value.1;
      if edge.besideTag && position == [] && OfferedNull(branches).Some? {
        return Err(TaggedNull([OfferedNull(branches).value + 1]));
      }
      // The name guards what is below it and nothing else.
      if resolved.Some? {
        expanding := expanding + [resolved.value];
      }
      var expanded := ExpandBranches(spelling, branches);
      if expanded.Err? {
        return Err(expanded.error);
      }
      if resolved.Some? {
        expanding := expanding[..|expanding| - 1];
      }
      return Ok(if expanded.value == [] then None else Some(Choice(spelling, expanded.value)));
    }

    /** The trees of `branches`, each at its own place below `position`. */
    method ExpandBranches(spelling: Spelling, branches: seq<Schema>) returns (r: Result<seq<Branches>, Refusal>)
      modifies this
      ensures r == ExpandedFrom(edge, spelling, branches, 0, old(expanding), old(position))
      ensures r.Ok? ==> expanding == old(expanding) && position == old(position)
      decreases |Unexpanded(edge.defs, expanding)|, branches
    {
      ghost var path, place := expanding, position;
      ghost var whole := ExpandedFrom(edge, spelling, branches, 0, path, place);
      var expanded: seq<Branches> := [];
      AfterNone(whole);
      for index := 0 to |branches|
        invariant expanding == path && position == place
        invariant whole == After(expanded, ExpandedFrom(edge, spelling, branches, index, path, place))
      {
        position := position + [index + 1];
        var tagged := if spelling == OneOf then UnitVariant(branches[index]) else None;
        var below: Answer;
        if tagged.Some? {
          below := if |position| == 1 then Ok(Some(Tagged(tagged.value))) else Err(VariantName(position));
        } else {
          below := Expand(branches[index]);
        }
        assert below == ExpandedBranch(edge, spelling, branches, index, path, place);
        if below.Err? {
          return Err(below.error);
        }
        position := position[..|position| - 1];
        AfterBoth(expanded, Listed(below.value), ExpandedFrom(edge, spelling, branches, index + 1, path, place));
        expanded := expanded + Listed(below.value);
      }
      assert expanded + [] == expanded;
      return Ok(expanded);
    }
  }
}
