/** The expansion keeps a schema's meaning and refuses exactly the cycles, and the merged document of
    a struct's own members and its flattened ones takes exactly the objects that split between them. */
module FlattenMeaning {
  import opened Wrappers
  import opened FlattenModel
  import opened FlattenMerge
  import opened FlattenExpansion

  // ----- expanding keeps the meaning -----

  /** A schema as the describers write one: one union and nothing beside it, or no union. */
  ghost predicate Shaped(schema: Schema) {
    match schema
    case Bare => false
    case Keywords(reference, typed, _, _, oneOf, anyOf, members) =>
      reference.Some? ||
      match (oneOf, anyOf) {
        case (Unwritten, Unwritten) => true
        case (Branching(below), Unwritten) =>
          members == NOTHING && below != [] && forall i :: 0 <= i < |below| ==> Shaped(below[i])
        case (Unwritten, Branching(below)) =>
          members == NOTHING && below != [] && forall i :: 0 <= i < |below| ==> Shaped(below[i])
        case (Branching(_), Branching(_)) => false
      }
  }

  /** Every definition that is written is a body of that shape, and none is itself a reference. */
  ghost predicate ShapedDefs(defs: map<string, Schema>) {
    forall name :: name in defs && defs[name].Keywords? ==> Shaped(defs[name]) && defs[name].reference.None?
  }

  /** The tree a schema is expanded into says of every object what the schema says of it. */
  lemma {:induction false} ExpansionKeepsMeaning(ok: (Prop, Value) -> bool, edge: Edge, schema: Schema,
      expanding: seq<string>,
      position: seq<nat>, j: Object, fuel: nat)
    requires Shaped(schema) && ShapedDefs(edge.defs)
    requires Expanded(edge, schema, expanding, position).Ok? && |Unexpanded(edge.defs, expanding)| <= fuel
    ensures var tree := Expanded(edge, schema, expanding, position).value;
      tree.Some? && Judge(ok, edge.defs, schema, j, |position|, fuel) == Some(Holds(ok, tree.value, j))
    decreases |Unexpanded(edge.defs, expanding)|, schema, 1
  {
    if schema.reference.Some? {
      var name := schema.reference.value;
      FewerUnexpanded(edge.defs, expanding, name);
      BodyKeepsMeaning(ok, edge, edge.defs[name], expanding + [name], position, j, fuel - 1);
    } else {
      BodyKeepsMeaning(ok, edge, schema, expanding, position, j, fuel);
    }
  }

  lemma {:induction false} BodyKeepsMeaning(ok: (Prop, Value) -> bool, edge: Edge, body: Schema, expanding: seq<string>,
      position: seq<nat>, j: Object, fuel: nat)
    requires Shaped(body) && body.reference.None? && ShapedDefs(edge.defs)
    requires ExpandedBody(edge, body, expanding, position).Ok? && |Unexpanded(edge.defs, expanding)| <= fuel
    ensures var tree := ExpandedBody(edge, body, expanding, position).value;
      tree.Some? && Judge(ok, edge.defs, body, j, |position|, fuel) == Some(Holds(ok, tree.value, j))
    decreases |Unexpanded(edge.defs, expanding)|, body, 0
  {
    assert Count([true]) == 1;
    var settled := Settled(edge, body, position);
    if settled.None? && UnionOf(body).Some? {
      var spelling, branches := UnionOf(body).value.0, UnionOf(body).value.1;
      assert Valid(ok, NOTHING, j);
      BranchesKeepMeaning(ok, edge, spelling, branches, 0, expanding, position, j, fuel);
      assert branches[0..] == branches;
      var trees := ExpandedFrom(edge, spelling, branches, 0, expanding, position).value;
      assert HoldsEach(ok, trees, j) == seq(|trees|, i requires 0 <= i < |trees| => Holds(ok, trees[i], j));
    }
  }

  lemma {:induction false} BranchesKeepMeaning(ok: (Prop, Value) -> bool, edge: Edge, spelling: Spelling,
      branches: seq<Schema>,
      index: nat, expanding: seq<string>, position: seq<nat>, j: Object, fuel: nat)
    requires index <= |branches| && ShapedDefs(edge.defs)
    requires forall i :: 0 <= i < |branches| ==> Shaped(branches[i])
    requires ExpandedFrom(edge, spelling, branches, index, expanding, position).Ok?
    requires |Unexpanded(edge.defs, expanding)| <= fuel
    ensures var trees := ExpandedFrom(edge, spelling, branches, index, expanding, position).value;
      |trees| == |branches| - index
      && JudgeAll(ok, edge.defs, spelling, branches[index..], j, |position|, fuel) == Some(HoldsEach(ok, trees, j))
    decreases |Unexpanded(edge.defs, expanding)|, branches, 0, |branches| - index
  {
    var trees := ExpandedFrom(edge, spelling, branches, index, expanding, position).value;
    if index == |branches| {
      assert HoldsEach(ok, trees, j) == [];
    } else {
      BranchKeepsMeaning(ok, edge, spelling, branches, index, expanding, position, j, fuel);
      BranchesKeepMeaning(ok, edge, spelling, branches, index + 1, expanding, position, j, fuel);
      var tree := ExpandedBranch(edge, spelling, branches, index, expanding, position).value.value;
      var rest := ExpandedFrom(edge, spelling, branches, index + 1, expanding, position).value;
      HoldsOneMore(ok, tree, rest, j);
      assert branches[index..][0] == branches[index] && branches[index..][1..] == branches[index + 1..];
      JudgedFirst(ok, edge.defs, spelling, branches[index..], j, |position|, fuel, Holds(ok, tree, j),
        HoldsEach(ok, rest, j));
      assert trees == [tree] + rest;
    }
  }

  lemma HoldsOneMore(ok: (Prop, Value) -> bool, tree: Branches, rest: seq<Branches>, j: Object)
    ensures HoldsEach(ok, [tree] + rest, j) == [Holds(ok, tree, j)] + HoldsEach(ok, rest, j)
  {
  }

  lemma {:induction false} BranchKeepsMeaning(ok: (Prop, Value) -> bool, edge: Edge, spelling: Spelling,
      branches: seq<Schema>,
      index: nat, expanding: seq<string>, position: seq<nat>, j: Object, fuel: nat)
    requires index < |branches| && ShapedDefs(edge.defs) && Shaped(branches[index])
    requires ExpandedBranch(edge, spelling, branches, index, expanding, position).Ok?
    requires |Unexpanded(edge.defs, expanding)| <= fuel
    ensures var tree := ExpandedBranch(edge, spelling, branches, index, expanding, position).value;
      tree.Some? && JudgeBranch(ok, edge.defs, spelling, branches[index], j, |position|, fuel)
        == Some(Holds(ok, tree.value, j))
    decreases |Unexpanded(edge.defs, expanding)|, branches, 0, 0
  {
    if !(spelling == OneOf && UnitVariant(branches[index]).Some?) {
      ExpansionKeepsMeaning(ok, edge, branches[index], expanding, position + [index + 1], j, fuel);
    }
  }

  // ----- what is refused: a name that reaches itself through union branches alone -----

  /** Every name has a body and every leaf is an object. */
  ghost predicate Clean(defs: map<string, Schema>, schema: Schema)
    decreases schema, 1
  {
    && schema.Keywords?
    && (schema.typed.None? || schema.typed.value == "object")
    && if schema.reference.Some? then schema.reference.value in defs else CleanBody(defs, schema)
  }

  ghost predicate CleanBody(defs: map<string, Schema>, body: Schema)
    decreases body, 0
  {
    match body
    case Bare => false
    case Keywords(_, typed, _, _, oneOf, anyOf, _) =>
      && (typed.None? || typed.value == "object")
      && (oneOf.Branching? ==> forall i :: 0 <= i < |oneOf.schemas| ==> Clean(defs, oneOf.schemas[i]))
      && (anyOf.Branching? ==> forall i :: 0 <= i < |anyOf.schemas| ==> Clean(defs, anyOf.schemas[i]))
  }

  ghost predicate CleanDefs(defs: map<string, Schema>) {
    forall name :: name in defs ==> CleanBody(defs, defs[name])
  }

  /** `schema` is the name, or offers it in a union, however the unions are nested. */
  ghost predicate Mentions(schema: Schema, name: string)
    decreases schema, 1
  {
    schema.Keywords? && if schema.reference.Some? then schema.reference.value == name else Offers(schema, name)
  }

  ghost predicate Offers(body: Schema, name: string)
    decreases body, 0
  {
    match body
    case Bare => false
    case Keywords(_, _, _, _, oneOf, anyOf, _) =>
      if oneOf.Branching? then exists i :: 0 <= i < |oneOf.schemas| && Mentions(oneOf.schemas[i], name)
      else anyOf.Branching? && exists i :: 0 <= i < |anyOf.schemas| && Mentions(anyOf.schemas[i], name)
  }

  /** The names of `path`, each offered by a union of the body before it, the first by `body`. */
  ghost predicate Leads(defs: map<string, Schema>, body: Schema, path: seq<string>)
    decreases |path|
  {
    path == [] || (Offers(body, path[0]) && path[0] in defs && Leads(defs, defs[path[0]], path[1..]))
  }

  ghost predicate Route(defs: map<string, Schema>, schema: Schema, path: seq<string>) {
    path == [] || (Mentions(schema, path[0]) && path[0] in defs && Leads(defs, defs[path[0]], path[1..]))
  }

  ghost predicate Repeats(path: seq<string>) {
    exists i, k :: 0 <= i < k < |path| && path[i] == path[k]
  }

  /** No name of `path` stands on the way already, and none comes twice. */
  ghost predicate Afresh(expanding: seq<string>, path: seq<string>) {
    (forall i :: 0 <= i < |path| ==> path[i] !in expanding) && !Repeats(path)
  }

  lemma AfreshBelow(expanding: seq<string>, path: seq<string>)
    requires path != [] && path[0] !in expanding && Afresh(expanding + [path[0]], path[1..])
    ensures Afresh(expanding, path)
  {
    forall i | 0 <= i < |path| ensures path[i] !in expanding {
      if i > 0 { assert path[1..][i - 1] !in expanding + [path[0]]; }
    }
    forall i, k | 0 <= i < k < |path| ensures path[i] != path[k] {
      assert path[1..][k - 1] !in expanding + [path[0]] && path[0] in expanding + [path[0]];
      if i > 0 { assert path[1..][i - 1] != path[1..][k - 1]; }
    }
  }

  lemma {:induction false} ExpandedIsAfresh(edge: Edge, schema: Schema, expanding: seq<string>, position: seq<nat>,
      path: seq<string>)
    requires Clean(edge.defs, schema) && CleanDefs(edge.defs)
    requires Expanded(edge, schema, expanding, position).Ok? && Route(edge.defs, schema, path)
    ensures Afresh(expanding, path)
    decreases |Unexpanded(edge.defs, expanding)|, schema, 1
  {
    if path != [] {
      if schema.reference.Some? {
        FewerUnexpanded(edge.defs, expanding, path[0]);
        BodyIsAfresh(edge, edge.defs[path[0]], expanding + [path[0]], position, path[1..]);
        AfreshBelow(expanding, path);
      } else {
        BodyIsAfresh(edge, schema, expanding, position, path);
      }
    }
  }

  lemma {:induction false} BodyIsAfresh(edge: Edge, body: Schema, expanding: seq<string>, position: seq<nat>,
      path: seq<string>)
    requires CleanBody(edge.defs, body) && CleanDefs(edge.defs)
    requires ExpandedBody(edge, body, expanding, position).Ok? && Leads(edge.defs, body, path)
    ensures Afresh(expanding, path)
    decreases |Unexpanded(edge.defs, expanding)|, body, 0
  {
    if path != [] {
      var spelling, branches := UnionOf(body).value.0, UnionOf(body).value.1;
      var i :| 0 <= i < |branches| && Mentions(branches[i], path[0]);
      EachExpanded(edge, spelling, branches, 0, i, expanding, position);
      assert Clean(edge.defs, branches[i]) && UnitVariant(branches[i]).None?;
      ExpandedIsAfresh(edge, branches[i], expanding, position + [i + 1], path);
    }
  }

  lemma {:induction false} EachExpanded(edge: Edge, spelling: Spelling, branches: seq<Schema>, index: nat, i: nat,
      expanding: seq<string>, position: seq<nat>)
    requires index <= i < |branches|
    requires ExpandedFrom(edge, spelling, branches, index, expanding, position).Ok?
    ensures ExpandedBranch(edge, spelling, branches, i, expanding, position).Ok?
    decreases i - index
  {
    if index < i { EachExpanded(edge, spelling, branches, index + 1, i, expanding, position); }
  }

  /** A refusal is reached along a route that comes back to a name already on it. */
  ghost predicate Closes(expanding: seq<string>, path: seq<string>) {
    path != [] && path[|path| - 1] in expanding + path[..|path| - 1]
  }

  lemma ClosesAbove(expanding: seq<string>, name: string, path: seq<string>)
    requires Closes(expanding + [name], path)
    ensures Closes(expanding, [name] + path)
  {
    var whole := [name] + path;
    assert whole[..|whole| - 1] == [name] + path[..|path| - 1];
    assert expanding + whole[..|whole| - 1] == expanding + [name] + path[..|path| - 1];
  }

  lemma {:induction false} RefusalClosesARoute(edge: Edge, schema: Schema, expanding: seq<string>, position: seq<nat>)
    returns (path: seq<string>)
    requires Clean(edge.defs, schema) && CleanDefs(edge.defs)
    requires Expanded(edge, schema, expanding, position).Err?
    ensures Route(edge.defs, schema, path) && Closes(expanding, path)
    decreases |Unexpanded(edge.defs, expanding)|, schema, 1
  {
    if schema.reference.Some? {
      var name := schema.reference.value;
      if name in expanding {
        path := [name];
      } else {
        FewerUnexpanded(edge.defs, expanding, name);
        var below := BodyClosesARoute(edge, edge.defs[name], expanding + [name], position);
        ClosesAbove(expanding, name, below);
        path := [name] + below;
        assert path[1..] == below;
      }
    } else {
      path := BodyClosesARoute(edge, schema, expanding, position);
    }
  }

  lemma {:induction false} BodyClosesARoute(edge: Edge, body: Schema, expanding: seq<string>, position: seq<nat>)
    returns (path: seq<string>)
    requires CleanBody(edge.defs, body) && CleanDefs(edge.defs)
    requires ExpandedBody(edge, body, expanding, position).Err?
    ensures Leads(edge.defs, body, path) && Closes(expanding, path)
    decreases |Unexpanded(edge.defs, expanding)|, body, 0
  {
    var spelling, branches := UnionOf(body).value.0, UnionOf(body).value.1;
    NoOfferedNull(edge.defs, branches);
    var i := SomeRefused(edge, spelling, branches, 0, expanding, position);
    assert Clean(edge.defs, branches[i]) && UnitVariant(branches[i]).None?;
    path := RefusalClosesARoute(edge, branches[i], expanding, position + [i + 1]);
  }

  lemma {:induction false} NoOfferedNull(defs: map<string, Schema>, branches: seq<Schema>)
    requires forall i :: 0 <= i < |branches| ==> Clean(defs, branches[i]) && TypeOf(branches[i]) != Some("null")
    ensures OfferedNull(branches).None?
  {
    if branches != [] { NoOfferedNull(defs, branches[1..]); }
  }

  lemma {:induction false} SomeRefused(edge: Edge, spelling: Spelling, branches: seq<Schema>, index: nat,
      expanding: seq<string>, position: seq<nat>) returns (i: nat)
    requires index <= |branches| && ExpandedFrom(edge, spelling, branches, index, expanding, position).Err?
    ensures index <= i < |branches| && ExpandedBranch(edge, spelling, branches, i, expanding, position).Err?
    decreases |branches| - index
  {
    i := index;
    if ExpandedBranch(edge, spelling, branches, index, expanding, position).Ok? {
      i := SomeRefused(edge, spelling, branches, index + 1, expanding, position);
    }
  }

  /** Where every name has a body and every leaf is an object, the expansion refuses exactly when some
      route through union branches alone comes back to a name it went through. */
  lemma {:induction false} RefusesExactlyTheCycles(edge: Edge, schema: Schema, position: seq<nat>)
    requires Clean(edge.defs, schema) && CleanDefs(edge.defs)
    ensures Expanded(edge, schema, [], position).Err? <==>
      exists path: seq<string> :: Route(edge.defs, schema, path) && Repeats(path)
  {
    if Expanded(edge, schema, [], position).Err? {
      var path := RefusalClosesARoute(edge, schema, [], position);
      assert [] + path[..|path| - 1] == path[..|path| - 1];
      var i :| 0 <= i < |path| - 1 && path[..|path| - 1][i] == path[|path| - 1];
      assert Repeats(path);
    } else {
      forall path: seq<string> | Route(edge.defs, schema, path) ensures !Repeats(path) {
        ExpandedIsAfresh(edge, schema, [], position, path);
      }
    }
  }

  // ----- the merged document -----

  /** A source as it is merged: its branches, and whether serde reads it as a map. */
  datatype Offer = Offer(tree: Branches, isMap: bool)

  function OfferedBy(defs: map<string, Schema>, besideTag: bool, source: Source): Result<seq<Offer>, Refusal> {
    match Expanded(Edge(defs, besideTag, source.unitMember), source.schema, [], [])
    case Err(refusal) => Err(refusal)
    case Ok(None) => Ok([])
    case Ok(Some(tree)) => Ok([Offer(Offered(tree, source.optional, source.entries), source.isMap)])
  }

  /** What every source offers, in order, or the first refusal among them. */
  function OfferedAll(defs: map<string, Schema>, besideTag: bool, sources: seq<Source>): Result<seq<Offer>, Refusal> {
    if sources == [] then Ok([])
    else match OfferedBy(defs, besideTag, sources[0])
      case Err(refusal) => Err(refusal)
      case Ok(first) =>
        match OfferedAll(defs, besideTag, sources[1..])
        case Err(refusal) => Err(refusal)
        case Ok(rest) => Ok(first + rest)
  }

  function MergedOffers(merged: Merged, offers: seq<Offer>): Merged
    decreases |offers|
  {
    if offers == [] then merged else MergedOffers(Multiplied(merged, offers[0].tree, offers[0].isMap), offers[1..])
  }

  // ----- the leaves of a merge of many -----

  function Widths(offers: seq<Offer>): nat {
    if offers == [] then 1 else |LeavesOf(offers[0].tree)| * Widths(offers[1..])
  }

  /** `choices` is one leaf of each of `offers`. */
  predicate AreChoices(offers: seq<Offer>, choices: seq<nat>) {
    |choices| == |offers| && forall i :: 0 <= i < |offers| ==> choices[i] < |LeavesOf(offers[i].tree)|
  }

  /** Where the leaf of a base and of one source stands. */
  function PlaceWithin(base: nat, width: nat, choice: nat): nat {
    base * width + choice
  }

  /** Where the leaf of a base and of `choices` stands: each source's leaves run within the one before. */
  function PlaceOf(base: nat, offers: seq<Offer>, choices: seq<nat>): nat
    requires |choices| == |offers|
    decreases |offers|
  {
    if offers == [] then base
    else PlaceOf(PlaceWithin(base, |LeavesOf(offers[0].tree)|, choices[0]), offers[1..], choices[1..])
  }

  /** A base leaf with the leaf of each source that `choices` names merged beside it, in turn. */
  function GainedAll(base: Pair, offers: seq<Offer>, choices: seq<nat>): Pair
    requires AreChoices(offers, choices)
    decreases |offers|
  {
    if offers == [] then base
    else
      assert forall i :: 0 <= i < |offers[1..]| ==>
        offers[1..][i] == offers[i + 1] && choices[1..][i] == choices[i + 1];
      GainedAll(Gained(base, LeavesOf(offers[0].tree)[choices[0]], offers[0].isMap), offers[1..], choices[1..])
  }

  /** The leaves of a merge of any number of sources are as many as the base's times each source's. */
  lemma {:induction false} MergedOffersSize(merged: Merged, offers: seq<Offer>)
    ensures |MergedLeaves(MergedOffers(merged, offers))| == |MergedLeaves(merged)| * Widths(offers)
    decreases |offers|
  {
    if offers != [] {
      var first, rest := offers[0], offers[1..];
      var width := |LeavesOf(first.tree)|;
      MergedOffersSize(Multiplied(merged, first.tree, first.isMap), rest);
      MultipliedLeaves(merged, first.tree, first.isMap);
      ProductSize(MergedLeaves(merged), LeavesOf(first.tree), first.isMap);
      Factors(|MergedLeaves(merged)|, width, Widths(rest));
    }
  }

  lemma Factors(a: nat, b: nat, c: nat)
    ensures a * b * c == a * (b * c)
  {
  }

  /** And they are the ordered product: at each place the leaf of one base leaf and one leaf of each
      source, the last source's leaves running fastest. */
  lemma {:induction false} MergedOffersAt(merged: Merged, offers: seq<Offer>, base: nat, choices: seq<nat>)
    requires base < |MergedLeaves(merged)| && AreChoices(offers, choices)
    ensures var leaves := MergedLeaves(MergedOffers(merged, offers));
      && PlaceOf(base, offers, choices) < |leaves|
      && leaves[PlaceOf(base, offers, choices)] == GainedAll(MergedLeaves(merged)[base], offers, choices)
    decreases |offers|
  {
    if offers != [] {
      var first, leaves := offers[0], LeavesOf(offers[0].tree);
      var at := PlaceWithin(base, |leaves|, choices[0]);
      MultipliedLeaves(merged, first.tree, first.isMap);
      ProductAt(MergedLeaves(merged), leaves, first.isMap, base, choices[0]);
      FirstChosen(offers, choices, MergedLeaves(merged)[base], base);
      MergedOffersAt(Multiplied(merged, first.tree, first.isMap), offers[1..], at, choices[1..]);
    }
  }

  lemma FirstChosen(offers: seq<Offer>, choices: seq<nat>, pair: Pair, base: nat)
    requires offers != [] && AreChoices(offers, choices)
    ensures AreChoices(offers[1..], choices[1..])
    ensures PlaceOf(base, offers, choices)
         == PlaceOf(PlaceWithin(base, |LeavesOf(offers[0].tree)|, choices[0]), offers[1..], choices[1..])
    ensures GainedAll(pair, offers, choices)
         == GainedAll(Gained(pair, LeavesOf(offers[0].tree)[choices[0]], offers[0].isMap), offers[1..], choices[1..])
  {
    assert forall i :: 0 <= i < |offers[1..]| ==>
      offers[1..][i] == offers[i + 1] && choices[1..][i] == choices[i + 1];
  }

  lemma {:induction false} MergedOffersOfBoth(merged: Merged, one: seq<Offer>, two: seq<Offer>)
    ensures MergedOffers(merged, one + two) == MergedOffers(MergedOffers(merged, one), two)
    decreases |one|
  {
    if one == [] {
      assert one + two == two;
    } else {
      assert (one + two)[1..] == one[1..] + two;
      MergedOffersOfBoth(Multiplied(merged, one[0].tree, one[0].isMap), one[1..], two);
    }
  }

  lemma {:induction false} OfferedAllOfMore(defs: map<string, Schema>, besideTag: bool, sources: seq<Source>,
      index: nat)
    requires index < |sources|
    ensures OfferedAll(defs, besideTag, sources[..index + 1]) ==
      match OfferedAll(defs, besideTag, sources[..index])
      case Err(refusal) => Err(refusal)
      case Ok(before) =>
        match OfferedBy(defs, besideTag, sources[index])
        case Err(refusal) => Err(refusal)
        case Ok(next) => Ok(before + next)
  {
    if index == 0 {
      assert sources[..1] == [sources[0]];
      if OfferedBy(defs, besideTag, sources[0]).Ok? {
        var next := OfferedBy(defs, besideTag, sources[0]).value;
        assert next + [] == next && [] + next == next;
      }
    } else {
      OfferedAllOfMore(defs, besideTag, sources[1..], index - 1);
      assert sources[..index + 1][1..] == sources[1..][..index] && sources[..index][1..] == sources[1..][..index - 1];
      if OfferedAll(defs, besideTag, sources[..index + 1]).Ok? {
        var first := OfferedBy(defs, besideTag, sources[0]).value;
        var middle := OfferedAll(defs, besideTag, sources[1..][..index - 1]).value;
        var next := OfferedBy(defs, besideTag, sources[index]).value;
        assert first + (middle + next) == first + middle + next;
      }
    }
  }

  lemma {:induction false} OfferedAllRefuses(defs: map<string, Schema>, besideTag: bool, sources: seq<Source>,
      index: nat)
    requires index <= |sources| && OfferedAll(defs, besideTag, sources[..index]).Err?
    ensures OfferedAll(defs, besideTag, sources) == OfferedAll(defs, besideTag, sources[..index])
  {
    if index > 0 && OfferedBy(defs, besideTag, sources[0]).Ok? {
      assert sources[..index][1..] == sources[1..][..index - 1];
      OfferedAllRefuses(defs, besideTag, sources[1..], index - 1);
    }
  }

  /** The base's members with the members of every source merged beside them. */
  method MergedObjectValue(defs: map<string, Schema>, besideTag: bool, base: Members, sources: seq<Source>)
    returns (r: Result<Schema, Refusal>)
    ensures r == match OfferedAll(defs, besideTag, sources)
                 case Err(refusal) => Err(refusal)
                 case Ok(offers) => Ok(IntoValue(MergedOffers(Leaf(base, []), offers)))
  {
    var described := Leaf(base, []);
    ghost var before: seq<Offer> := [];
    for index := 0 to |sources|
      invariant OfferedAll(defs, besideTag, sources[..index]) == Ok(before)
      invariant described == MergedOffers(Leaf(base, []), before)
    {
      OfferedAllOfMore(defs, besideTag, sources, index);
      var source := sources[index];
      var walk := new Walk(Edge(defs, besideTag, source.unitMember));
      var expanded := walk.Expand(source.schema);
      if expanded.Err? {
        OfferedAllRefuses(defs, besideTag, sources, index + 1);
        return Err(expanded.error);
      }
      if expanded.value.Some? {
        var tree := expanded.value.value;
        var offered := if source.optional then OrAbsent(tree) else tree;
        offered := if source.entries then EntriesLeft(offered) else offered;
        described := Multiplied(described, offered, source.isMap);
        MergedOffersOfBoth(Leaf(base, []), before, [Offer(offered, source.isMap)]);
        assert MergedOffers(MergedOffers(Leaf(base, []), before), [Offer(offered, source.isMap)]) == described;
        before := before + [Offer(offered, source.isMap)];
      } else {
        assert before + [] == before;
      }
    }
    assert sources[..|sources|] == sources;
    return Ok(IntoValue(described));
  }

  function Trees(offers: seq<Offer>): seq<Branches> {
    seq(|offers|, i requires 0 <= i < |offers| => offers[i].tree)
  }

  lemma {:induction false} MergedOffersAreAll(merged: Merged, offers: seq<Offer>)
    requires forall i :: 0 <= i < |offers| ==> !offers[i].isMap
    ensures MergedOffers(merged, offers) == MergedAll(merged, Trees(offers))
    decreases |offers|
  {
    if offers != [] {
      MergedOffersAreAll(Multiplied(merged, offers[0].tree, false), offers[1..]);
      assert Trees(offers)[1..] == Trees(offers[1..]);
    }
  }

  /** A source read as no map, of the shape the describers write. */
  ghost predicate Plainly(source: Source) {
    Shaped(source.schema) && !source.isMap && !source.entries
  }

  /** An object is one of `source`'s: of its schema, or of no key where serde may leave it out. */
  ghost predicate Takes(ok: (Prop, Value) -> bool, defs: map<string, Schema>, source: Source, j: Object, fuel: nat) {
    (source.optional && j == map[]) || Judge(ok, defs, source.schema, j, 0, fuel) == Some(true)
  }

  lemma OfferTakes(ok: (Prop, Value) -> bool, defs: map<string, Schema>, besideTag: bool, source: Source, j: Object,
      fuel: nat)
    requires Plainly(source) && ShapedDefs(defs) && |defs| <= fuel
    requires OfferedBy(defs, besideTag, source).Ok?
    ensures var offers := OfferedBy(defs, besideTag, source).value;
      |offers| == 1 && !offers[0].isMap && (Holds(ok, offers[0].tree, j) <==> Takes(ok, defs, source, j, fuel))
  {
    var edge := Edge(defs, besideTag, source.unitMember);
    assert Unexpanded(defs, []) == defs.Keys;
    ExpansionKeepsMeaning(ok, edge, source.schema, [], [], j, fuel);
    var tree := Expanded(edge, source.schema, [], []).value.value;
    var holds := HoldsEach(ok, [tree, Absent], j);
    assert holds == [Holds(ok, tree, j), j == map[]];
    assert Count(holds) == (if holds[0] then 1 else 0) + Count([j == map[]]);
  }

  lemma {:induction false} OffersTake(ok: (Prop, Value) -> bool, defs: map<string, Schema>, besideTag: bool,
      sources: seq<Source>)
    requires ShapedDefs(defs) && forall i :: 0 <= i < |sources| ==> Plainly(sources[i])
    requires OfferedAll(defs, besideTag, sources).Ok?
    ensures var offers := OfferedAll(defs, besideTag, sources).value;
      && |offers| == |sources|
      && (forall i :: 0 <= i < |offers| ==> !offers[i].isMap)
      && forall i, j: Object, fuel: nat :: 0 <= i < |sources| && |defs| <= fuel ==>
           (Holds(ok, offers[i].tree, j) <==> Takes(ok, defs, sources[i], j, fuel))
  {
    if sources != [] {
      OffersTake(ok, defs, besideTag, sources[1..]);
      var first, rest := OfferedBy(defs, besideTag, sources[0]).value, OfferedAll(defs, besideTag, sources[1..]).value;
      OfferTakes(ok, defs, besideTag, sources[0], map[], |defs|);
      assert OfferedAll(defs, besideTag, sources).value == [first[0]] + rest;
      forall i, j: Object, fuel: nat | 0 <= i < |sources| && |defs| <= fuel
        ensures Holds(ok, ([first[0]] + rest)[i].tree, j) <==> Takes(ok, defs, sources[i], j, fuel)
      {
        if i == 0 {
          OfferTakes(ok, defs, besideTag, sources[0], j, fuel);
        } else {
          assert sources[i] == sources[1..][i - 1];
        }
      }
    }
  }

  /** The document a struct with flattened members is described by. Where the base is closed and the
      base and every source write names of their own, an object satisfies it exactly when it holds no
      other key and splits into an object of the base and one each source's own schema takes. */
  lemma FlattenedDocumentMeans(ok: (Prop, Value) -> bool, defs: map<string, Schema>, besideTag: bool, base: Members,
      sources: seq<Source>, own: set<string>, names: seq<set<string>>, j: Object, fuel: nat)
    requires ClosedObject(base) && base.properties.Keys <= own
    requires ShapedDefs(defs) && |defs| <= fuel && forall i :: 0 <= i < |sources| ==> Plainly(sources[i])
    requires OfferedAll(defs, besideTag, sources).Ok?
    requires Apart(Trees(OfferedAll(defs, besideTag, sources).value), names, own)
    ensures var document := IntoValue(MergedOffers(Leaf(base, []), OfferedAll(defs, besideTag, sources).value));
      Judge(ok, defs, document, j, 2, fuel)
        == Some(j.Keys <= Everything(own, names)
                && Valid(ok, base, Only(j, own))
                && forall i :: 0 <= i < |names| && i < |sources| ==>
                  Takes(ok, defs, sources[i], Only(j, names[i]), fuel))
  {
    var offers := OfferedAll(defs, besideTag, sources).value;
    OffersTake(ok, defs, besideTag, sources);
    DocumentHolds(ok, defs, base, offers, own, names, j, fuel);
    forall i | 0 <= i < |sources|
      ensures Holds(ok, Trees(offers)[i], Only(j, names[i])) <==> Takes(ok, defs, sources[i], Only(j, names[i]), fuel)
    {
      assert Trees(offers)[i] == offers[i].tree;
    }
  }

  /** What is written of the offers merged holds of the objects that split between the base and them. */
  lemma DocumentHolds(ok: (Prop, Value) -> bool, defs: map<string, Schema>, base: Members, offers: seq<Offer>,
      own: set<string>, names: seq<set<string>>, j: Object, fuel: nat)
    requires ClosedObject(base) && base.properties.Keys <= own
    requires (forall i :: 0 <= i < |offers| ==> !offers[i].isMap) && Apart(Trees(offers), names, own)
    ensures Judge(ok, defs, IntoValue(MergedOffers(Leaf(base, []), offers)), j, 2, fuel)
      == Some(j.Keys <= Everything(own, names)
              && Valid(ok, base, Only(j, own))
              && forall i :: 0 <= i < |offers| ==> Holds(ok, Trees(offers)[i], Only(j, names[i])))
  {
    MergedOffersAreAll(Leaf(base, []), offers);
    MergeIsAProduct(ok, Leaf(base, []), Trees(offers), own, names, j);
    WrittenMeansHeld(ok, defs, MergedOffers(Leaf(base, []), offers), j, 2, fuel);
  }

  /** A map flattened alone under an `Option` that serde reads as its entries: where it is absent every
      key stays, so the document takes every object. */
  lemma OptionalMapTakesEverything(ok: (Prop, Value) -> bool, defs: map<string, Schema>, tree: Branches, isMap: bool,
      j: Object, fuel: nat)
    requires Spoken(tree, isMap)
    ensures Judge(ok, defs, IntoValue(MergedInto(Offered(tree, true, true), EMPTY, [], isMap)), j, 2, fuel)
      == Some(true)
  {
    var offered := Offered(tree, true, true);
    EntriesStaySpoken(OrAbsent(tree), isMap);
    MapAloneMeans(ok, offered, isMap, j);
    WrittenMeansHeld(ok, defs, MergedInto(offered, EMPTY, [], isMap), j, 2, fuel);
    assert offered.branches[1] == Dropped;
    var holds := HoldsEach(ok, offered.branches, j);
    assert holds[1..] == [true];
    assert Count(holds) == (if holds[0] then 1 else 0) + Count([true]);
  }

  lemma {:induction false} EntriesStaySpoken(source: Branches, isMap: bool)
    requires Spoken(source, isMap)
    ensures Spoken(EntriesLeft(source), isMap)
  {
    if source.Choice? {
      forall i | 0 <= i < |source.branches| ensures Spoken(EntriesLeft(source.branches[i]), isMap) {
        EntriesStaySpoken(source.branches[i], isMap);
      }
    }
  }
}
