/** What the expansion refuses, told by the places of a schema: what stands where, one reference and any
    number of union branches on, and which of it has no members to merge. */
module FlattenRefusals {
  import opened Wrappers
  import opened FlattenModel
  import opened FlattenMerge
  import opened FlattenExpansion
  import opened FlattenMeaning

  /** A schema where it stands: in a union of a spelling or in none, below the names gone through, and at
      a position counted from 1. */
  datatype Place = Place(schema: Schema, under: Option<Spelling>, expanding: seq<string>, position: seq<nat>)

  predicate Says(schema: Schema, named: string) {
    schema.Keywords? && schema.typed == Some(named)
  }

  /** A unit variant of an externally tagged enum: a branch of a `oneOf` that pins a string. */
  predicate IsVariant(place: Place) {
    place.under == Some(OneOf) && Says(place.schema, "string") && place.schema.constant.Some?
  }

  predicate Refers(place: Place, name: string) {
    !IsVariant(place) && place.schema.Keywords? && place.schema.reference == Some(name)
  }

  predicate HasBody(defs: map<string, Schema>, name: string) {
    name in defs && defs[name].Keywords?
  }

  /** What is read at a place: what stands there, or the body of a name that stands there for the first
      time on the way. */
  function BodyAt(edge: Edge, place: Place): Option<Schema> {
    if IsVariant(place) then None
    else if place.schema.Bare? || place.schema.reference.None? then Some(place.schema)
    else
      var name := place.schema.reference.value;
      if HasBody(edge.defs, name) && name !in place.expanding then Some(edge.defs[name]) else None
  }

  predicate BodySays(edge: Edge, place: Place, named: string) {
    BodyAt(edge, place).Some? && Says(BodyAt(edge, place).value, named)
  }

  /** What is read at a place is an object or says nothing of its type, and its branches are gone into. */
  ghost predicate IsOpen(edge: Edge, place: Place) {
    BodyAt(edge, place).Some? && forall named :: Says(BodyAt(edge, place).value, named) ==> named == "object"
  }

  /** `branch` is the `i`-th of the union `body` offers: its `oneOf`, or its `anyOf` where it has no other. */
  predicate OffersAt(body: Schema, spelling: Spelling, i: nat, branch: Schema) {
    body.Keywords? &&
    match spelling
    case OneOf => body.oneOf.Branching? && i < |body.oneOf.schemas| && body.oneOf.schemas[i] == branch
    case AnyOf =>
      body.oneOf.Unwritten? && body.anyOf.Branching? && i < |body.anyOf.schemas| && body.anyOf.schemas[i] == branch
  }

  /** The names gone through below a place. */
  function Below(place: Place): seq<string> {
    if place.schema.Keywords? && place.schema.reference.Some? then place.expanding + [place.schema.reference.value]
    else place.expanding
  }

  ghost predicate BranchAt(edge: Edge, place: Place, i: nat, next: Place) {
    && IsOpen(edge, place) && next.under.Some?
    && OffersAt(BodyAt(edge, place).value, next.under.value, i, next.schema)
    && next.expanding == Below(place) && next.position == place.position + [i + 1]
  }

  ghost predicate StepsTo(edge: Edge, place: Place, next: Place) {
    exists i: nat :: BranchAt(edge, place, i, next)
  }

  /** Each place is a branch of the one before it, the first of `place`. */
  ghost predicate StepAlong(edge: Edge, place: Place, path: seq<Place>)
    decreases |path|
  {
    path == [] || (StepsTo(edge, place, path[0]) && StepAlong(edge, path[0], path[1..]))
  }

  function LastOf(place: Place, path: seq<Place>): Place {
    if path == [] then place else path[|path| - 1]
  }

  /** A branch of the choice the edge itself offers says `null`, the `i`-th. */
  ghost predicate OffersNull(edge: Edge, place: Place, i: nat) {
    && place.position == [] && IsOpen(edge, place)
    && exists spelling, branch :: OffersAt(BodyAt(edge, place).value, spelling, i, branch) && Says(branch, "null")
  }

  /** What cannot be merged at a place, and how it is refused. */
  ghost predicate IsRefused(edge: Edge, place: Place, refusal: Refusal) {
    match refusal
    case MissingBody(position, name) =>
      position == place.position && Refers(place, name) && !HasBody(edge.defs, name)
    case RepeatedName(position, name, expanding) =>
      && position == place.position && expanding == place.expanding
      && Refers(place, name) && HasBody(edge.defs, name) && name in place.expanding
    case TaggedNull(position) =>
      && edge.besideTag
      && ((BodySays(edge, place, "null") && |place.position| == 1 && position == place.position)
          || exists i: nat :: OffersNull(edge, place, i) && position == [i + 1])
    case UnitMember(position) =>
      && !edge.besideTag && edge.unitMember
      && BodySays(edge, place, "null") && |place.position| == 1 && position == place.position
    case Unit => BodySays(edge, place, "null") && place.position == []
    case VariantName(position) =>
      && position == place.position
      && if IsVariant(place) then |place.position| != 1
         else BodySays(edge, place, "string") && BodyAt(edge, place).value.listed
    case NonObject(position, named) =>
      && position == place.position && BodySays(edge, place, named) && named != "object"
      && !(named == "null" && |place.position| <= 1) && !(named == "string" && BodyAt(edge, place).value.listed)
  }

  /** Some place of a schema cannot be merged. */
  ghost predicate SomeRefused(edge: Edge, place: Place) {
    exists path, refusal :: StepAlong(edge, place, path) && IsRefused(edge, LastOf(place, path), refusal)
  }

  /** What the expansion answers at a place. */
  function AnswerAt(edge: Edge, place: Place): Answer {
    if IsVariant(place) then
      if |place.position| == 1 then Ok(Some(Tagged(place.schema.constant.value))) else Err(VariantName(place.position))
    else Expanded(edge, place.schema, place.expanding, place.position)
  }

  lemma BranchIsAnswered(edge: Edge, spelling: Spelling, branches: seq<Schema>, i: nat, expanding: seq<string>,
      position: seq<nat>)
    requires i < |branches|
    ensures ExpandedBranch(edge, spelling, branches, i, expanding, position)
         == AnswerAt(edge, Place(branches[i], Some(spelling), expanding, position + [i + 1]))
  {
  }

  /** The answer at a place that is no variant, as what is read there settles it. */
  lemma AnswerIsOfTheBody(edge: Edge, place: Place)
    requires BodyAt(edge, place).Some?
    ensures AnswerAt(edge, place) == ExpandedBody(edge, BodyAt(edge, place).value, Below(place), place.position)
  {
  }

  // ----- a place that cannot be merged refuses the schema -----

  lemma RefusedHere(edge: Edge, place: Place, refusal: Refusal)
    requires IsRefused(edge, place, refusal)
    ensures AnswerAt(edge, place).Err?
  {
    if BodyAt(edge, place).Some? {
      AnswerIsOfTheBody(edge, place);
      if refusal.TaggedNull? && place.position == [] {
        var i: nat :| OffersNull(edge, place, i);
        NullIsOffered(edge, place, i);
      }
    }
  }

  lemma NullIsOffered(edge: Edge, place: Place, i: nat)
    requires edge.besideTag && OffersNull(edge, place, i)
    ensures AnswerAt(edge, place).Err?
  {
    var body := BodyAt(edge, place).value;
    var spelling, branch :| OffersAt(body, spelling, i, branch) && Says(branch, "null");
    AnswerIsOfTheBody(edge, place);
    SaidIsOffered(UnionOf(body).value.1, i);
  }

  lemma {:induction false} SaidIsOffered(branches: seq<Schema>, i: nat)
    requires i < |branches| && Says(branches[i], "null")
    ensures OfferedNull(branches).Some?
  {
    if i > 0 {
      SaidIsOffered(branches[1..], i - 1);
    }
  }

  lemma {:induction false} RefusedBelow(edge: Edge, place: Place, path: seq<Place>, refusal: Refusal)
    requires StepAlong(edge, place, path) && IsRefused(edge, LastOf(place, path), refusal)
    ensures AnswerAt(edge, place).Err?
    decreases |path|
  {
    if path == [] {
      RefusedHere(edge, place, refusal);
    } else {
      var next := path[0];
      assert LastOf(next, path[1..]) == LastOf(place, path);
      RefusedBelow(edge, next, path[1..], refusal);
      var i: nat :| BranchAt(edge, place, i, next);
      BranchRefuses(edge, place, i, next);
    }
  }

  lemma BranchRefuses(edge: Edge, place: Place, i: nat, next: Place)
    requires BranchAt(edge, place, i, next) && AnswerAt(edge, next).Err?
    ensures AnswerAt(edge, place).Err?
  {
    var body := BodyAt(edge, place).value;
    var spelling, branches := UnionOf(body).value.0, UnionOf(body).value.1;
    AnswerIsOfTheBody(edge, place);
    assert body.typed.Some? ==> Says(body, body.typed.value);
    assert next == Place(branches[i], Some(spelling), Below(place), place.position + [i + 1]);
    BranchIsAnswered(edge, spelling, branches, i, Below(place), place.position);
    if ExpandedFrom(edge, spelling, branches, 0, Below(place), place.position).Ok? {
      EachExpanded(edge, spelling, branches, 0, i, Below(place), place.position);
    }
  }

  // ----- a refusal is of a place that cannot be merged -----

  /** A way to a place that is refused as the expansion refuses. */
  ghost predicate IsWayTo(edge: Edge, place: Place, path: seq<Place>, refusal: Refusal) {
    StepAlong(edge, place, path) && IsRefused(edge, LastOf(place, path), refusal)
  }

  lemma {:induction false} RefusalHasAPlace(edge: Edge, place: Place) returns (path: seq<Place>)
    requires AnswerAt(edge, place).Err?
    ensures IsWayTo(edge, place, path, AnswerAt(edge, place).error)
    decreases |Unexpanded(edge.defs, place.expanding)|, place.schema
  {
    var refusal := AnswerAt(edge, place).error;
    if IsRefused(edge, place, refusal) {
      path := [];
    } else {
      var i, next := RefusedBranch(edge, place);
      if place.schema.reference.Some? {
        FewerUnexpanded(edge.defs, place.expanding, place.schema.reference.value);
      }
      var rest := RefusalHasAPlace(edge, next);
      path := [next] + rest;
      assert path[0] == next && path[1..] == rest;
    }
  }

  /** What is refused at no fault of a place's own is refused at one of its branches. */
  lemma RefusedBranch(edge: Edge, place: Place) returns (i: nat, next: Place)
    requires AnswerAt(edge, place).Err? && !IsRefused(edge, place, AnswerAt(edge, place).error)
    ensures BranchAt(edge, place, i, next) && AnswerAt(edge, next) == AnswerAt(edge, place)
    ensures place.schema.Keywords?
    ensures place.schema.reference.None? ==> next.schema < place.schema && next.expanding == place.expanding
    ensures place.schema.reference.Some? ==>
      && place.schema.reference.value in edge.defs && place.schema.reference.value !in place.expanding
      && next.expanding == place.expanding + [place.schema.reference.value]
  {
    BodyIsRead(edge, place);
    var body, position := BodyAt(edge, place).value, place.position;
    AnswerIsOfTheBody(edge, place);
    TypeIsOpen(edge, place);
    var spelling, branches := UnionOf(body).value.0, UnionOf(body).value.1;
    if edge.besideTag && position == [] && OfferedNull(branches).Some? {
      OfferedIsSaid(branches);
      assert OffersAt(body, spelling, OfferedNull(branches).value, branches[OfferedNull(branches).value]);
      assert OffersNull(edge, place, OfferedNull(branches).value);
      assert false;
    }
    i := FirstRefused(edge, spelling, branches, 0, Below(place), position);
    next := Place(branches[i], Some(spelling), Below(place), position + [i + 1]);
    BranchIsAnswered(edge, spelling, branches, i, Below(place), position);
  }

  lemma BodyIsRead(edge: Edge, place: Place)
    requires AnswerAt(edge, place).Err? && !IsRefused(edge, place, AnswerAt(edge, place).error)
    ensures BodyAt(edge, place).Some?
  {
  }

  lemma TypeIsOpen(edge: Edge, place: Place)
    requires AnswerAt(edge, place).Err? && !IsRefused(edge, place, AnswerAt(edge, place).error)
    requires BodyAt(edge, place).Some?
    ensures IsOpen(edge, place) && Settled(edge, BodyAt(edge, place).value, place.position).None?
    ensures UnionOf(BodyAt(edge, place).value).Some?
  {
    AnswerIsOfTheBody(edge, place);
  }

  lemma {:induction false} OfferedIsSaid(branches: seq<Schema>)
    requires OfferedNull(branches).Some?
    ensures OfferedNull(branches).value < |branches| && Says(branches[OfferedNull(branches).value], "null")
  {
    if TypeOf(branches[0]) != Some("null") {
      OfferedIsSaid(branches[1..]);
    }
  }

  lemma {:induction false} FirstRefused(edge: Edge, spelling: Spelling, branches: seq<Schema>, index: nat,
      expanding: seq<string>, position: seq<nat>) returns (i: nat)
    requires index <= |branches| && ExpandedFrom(edge, spelling, branches, index, expanding, position).Err?
    ensures i < |branches|
    ensures ExpandedBranch(edge, spelling, branches, i, expanding, position)
         == Err(ExpandedFrom(edge, spelling, branches, index, expanding, position).error)
    decreases |branches| - index
  {
    i := index;
    if ExpandedBranch(edge, spelling, branches, index, expanding, position).Ok? {
      i := FirstRefused(edge, spelling, branches, index + 1, expanding, position);
    }
  }

  // ----- exactly -----

  /** Whatever the schema: it is refused exactly where some place of it cannot be merged, and as some
      place is. */
  lemma RefusesExactlyThePlaces(edge: Edge, schema: Schema, expanding: seq<string>, position: seq<nat>)
    ensures var root, answer := Place(schema, None, expanding, position), Expanded(edge, schema, expanding, position);
      && (answer.Err? <==> SomeRefused(edge, root))
      && (answer.Err? ==> exists path :: IsWayTo(edge, root, path, answer.error))
  {
    var root := Place(schema, None, expanding, position);
    if AnswerAt(edge, root).Err? {
      var path := RefusalHasAPlace(edge, root);
      assert IsRefused(edge, LastOf(root, path), AnswerAt(edge, root).error);
    }
    if SomeRefused(edge, root) {
      var path, refusal :| StepAlong(edge, root, path) && IsRefused(edge, LastOf(root, path), refusal);
      RefusedBelow(edge, root, path, refusal);
    }
  }

  /** A `null` among the choices of the edge itself, where it is not refused, is the absence. */
  lemma NullIsAbsent(edge: Edge, place: Place)
    requires BodySays(edge, place, "null") && |place.position| == 1 && !edge.besideTag && !edge.unitMember
    ensures AnswerAt(edge, place) == Ok(Some(Absent))
  {
    AnswerIsOfTheBody(edge, place);
  }

  /** So a struct's document is refused exactly where some place of some source cannot be merged. */
  lemma {:induction false} RefusesExactlyTheSources(defs: map<string, Schema>, besideTag: bool, sources: seq<Source>)
    ensures OfferedAll(defs, besideTag, sources).Err?
       <==> exists i :: 0 <= i < |sources| && SourceIsRefused(defs, besideTag, sources[i])
  {
    if sources != [] {
      RefusesExactlyThePlaces(Edge(defs, besideTag, sources[0].unitMember), sources[0].schema, [], []);
      RefusesExactlyTheSources(defs, besideTag, sources[1..]);
      assert forall i :: 1 <= i < |sources| ==> sources[i] == sources[1..][i - 1];
      assert forall i :: 0 <= i < |sources[1..]| ==> sources[1..][i] == sources[i + 1];
    }
  }

  ghost predicate SourceIsRefused(defs: map<string, Schema>, besideTag: bool, source: Source) {
    SomeRefused(Edge(defs, besideTag, source.unitMember), Place(source.schema, None, [], []))
  }
}
