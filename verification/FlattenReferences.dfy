/** Definitions that are themselves references, which the expansion does not follow: what it makes of
    a schema, and of a whole document, is what it would make were each of them an object without
    members. From that, which objects a document behind such a reference is right of. */
module FlattenReferences {
  import opened Wrappers
  import opened FlattenModel
  import opened FlattenMerge
  import opened FlattenExpansion
  import opened FlattenMeaning

  // ----- what a definition that is a reference is read as -----

  /** The expansion follows one reference and no further: where the definition it reaches is itself a
      reference, as a struct of one slot over a recursive type describes, it answers that reference's
      own object keywords, of which there are none. */
  lemma ReferenceBodyIsLost(edge: Edge, name: string, next: string)
    requires name in edge.defs
    requires edge.defs[name] == ReferenceTo(next)
    ensures Expanded(edge, ReferenceTo(name), [], []) == Ok(Some(Closed(NOTHING)))
  {
  }

  function ReferenceTo(name: string): Schema {
    Keywords(Some(name), None, false, None, Unwritten, Unwritten, NOTHING)
  }

  /** Merged alone into a struct with no member of its own, `schema` takes `j` where it reads as taking it. */
  ghost predicate MergesAsItReads(ok: (Prop, Value) -> bool, edge: Edge, schema: Schema, j: Object) {
    var tree := Expanded(edge, schema, [], []);
    && tree.Ok? && tree.value.Some?
    && (HoldsMerged(ok, MergedInto(tree.value.value, EMPTY, [], false), j)
      <==> Judge(ok, edge.defs, schema, j, 0, 2) == Some(true))
  }

  /** So the merge drops the members behind it. A closed object behind two references is merged as it
      reads where it has no property, and only there: an object that writes each of its properties is
      taken by the schema flattened, and not by the struct it is merged into. */
  lemma MembersBehindAReferenceAreLost(edge: Edge, name: string, next: string, behind: Members) returns (j: Object)
    requires name in edge.defs && next in edge.defs && ClosedObject(behind)
    requires edge.defs[name] == ReferenceTo(next) && edge.defs[next] == ObjectSchema("object", behind)
    ensures behind.properties == map[] ==> forall ok, i: Object :: MergesAsItReads(ok, edge, ReferenceTo(name), i)
    ensures behind.properties != map[]
      ==> !MergesAsItReads((prop: Prop, value: Value) => true, edge, ReferenceTo(name), j)
  {
    var any := (prop: Prop, value: Value) => true;
    ReferenceBodyIsLost(edge, name, next);
    assert Count([true]) == 1;
    j := map key | key in behind.properties :: Value("{}");
    forall ok, i: Object
      ensures Judge(ok, edge.defs, ReferenceTo(name), i, 0, 2) == Some(Valid(ok, behind, i))
      ensures HoldsMerged(ok, MergedInto(Closed(NOTHING), EMPTY, [], false), i) <==> i == map[]
    {
      assert Judge(ok, edge.defs, edge.defs[next], i, 0, 0) == Some(Valid(ok, behind, i));
      assert Judge(ok, edge.defs, edge.defs[name], i, 0, 1) == Some(Valid(ok, behind, i));
      NoKeyIsTaken(ok, i);
    }
    assert Valid(any, behind, j);
    if behind.properties != map[] {
      var key :| key in behind.properties;
      assert key in j;
    }
  }

  lemma NoKeyIsTaken(ok: (Prop, Value) -> bool, j: Object)
    ensures HoldsMerged(ok, MergedInto(Closed(NOTHING), EMPTY, [], false), j) <==> j == map[]
  {
    var merged := MergedObjects(EMPTY, NOTHING);
    assert merged.properties == map[] && merged.required == [] && merged.extra == Never;
    if j != map[] {
      var key :| key in j;
      assert key !in merged.properties;
    }
  }

  /** Every definition that is written is a body as the describers write one, or a reference alone. */
  ghost predicate Described(defs: map<string, Schema>) {
    forall name :: name in defs && defs[name].Keywords? ==>
      if defs[name].reference.Some? then defs[name] == ReferenceTo(defs[name].reference.value) else Shaped(defs[name])
  }

  /** `schema`, an object of `members` in place of a reference. */
  function Emptied(schema: Schema, members: Members): Schema {
    if schema.Keywords? && schema.reference.Some? then
      Keywords(None, None, false, None, Unwritten, Unwritten, members)
    else schema
  }

  function AllEmptied(defs: map<string, Schema>, members: Members): map<string, Schema> {
    map name | name in defs :: Emptied(defs[name], members)
  }

  lemma EmptiedAreShaped(defs: map<string, Schema>, members: Members)
    requires Described(defs)
    ensures ShapedDefs(AllEmptied(defs, members)) && |AllEmptied(defs, members)| == |defs|
    ensures forall expanding :: Unexpanded(AllEmptied(defs, members), expanding) == Unexpanded(defs, expanding)
  {
    assert AllEmptied(defs, members).Keys == defs.Keys;
    assert |defs| == |defs.Keys| && |AllEmptied(defs, members)| == |AllEmptied(defs, members).Keys|;
  }

  /** Where no definition is a reference there is none to empty. */
  lemma NoneEmptied(defs: map<string, Schema>, members: Members)
    requires ShapedDefs(defs)
    ensures AllEmptied(defs, members) == defs
  {
  }

  // ----- the trees differ where a reference was emptied -----

  /** `other` is `tree`, some of its objects without members being `members`. */
  ghost predicate Becomes(tree: Branches, other: Branches, members: Members) {
    || tree == other
    || (tree == Closed(NOTHING) && other == Closed(members))
    || (tree.Choice? && other.Choice? && tree.spelling == other.spelling && |tree.branches| == |other.branches|
        && forall i :: 0 <= i < |tree.branches| ==> Becomes(tree.branches[i], other.branches[i], members))
  }

  ghost predicate AllBecome(trees: seq<Branches>, others: seq<Branches>, members: Members) {
    |trees| == |others| && forall i :: 0 <= i < |trees| ==> Becomes(trees[i], others[i], members)
  }

  ghost predicate AnswerBecomes(answer: Answer, other: Answer, members: Members) {
    match answer
    case Err(_) => other == answer
    case Ok(None) => other == answer
    case Ok(Some(tree)) => other.Ok? && other.value.Some? && Becomes(tree, other.value.value, members)
  }

  ghost predicate ResultBecomes(result: Result<seq<Branches>, Refusal>, other: Result<seq<Branches>, Refusal>,
      members: Members) {
    match result
    case Err(_) => other == result
    case Ok(trees) => other.Ok? && AllBecome(trees, other.value, members)
  }

  /** `edge` with every definition that is a reference emptied. */
  function Without(edge: Edge, members: Members): Edge {
    edge.(defs := AllEmptied(edge.defs, members))
  }

  lemma {:induction false} ExpandedBecomes(edge: Edge, schema: Schema, expanding: seq<string>, position: seq<nat>,
      members: Members)
    requires Described(edge.defs)
    ensures AnswerBecomes(Expanded(edge, schema, expanding, position),
              Expanded(Without(edge, members), schema, expanding, position), members)
    decreases |Unexpanded(edge.defs, expanding)|, schema, 1
  {
    if schema.Keywords? && schema.reference.Some? {
      var name := schema.reference.value;
      if name in edge.defs && edge.defs[name].Keywords? && name !in expanding {
        FewerUnexpanded(edge.defs, expanding, name);
        if edge.defs[name].reference.None? {
          BodyBecomes(edge, edge.defs[name], expanding + [name], position, members);
        }
      }
    } else {
      BodyBecomes(edge, schema, expanding, position, members);
    }
  }

  lemma {:induction false} BodyBecomes(edge: Edge, body: Schema, expanding: seq<string>, position: seq<nat>,
      members: Members)
    requires Described(edge.defs)
    ensures AnswerBecomes(ExpandedBody(edge, body, expanding, position),
              ExpandedBody(Without(edge, members), body, expanding, position), members)
    decreases |Unexpanded(edge.defs, expanding)|, body, 0
  {
    if Settled(edge, body, position).None? && UnionOf(body).Some? {
      var spelling, branches := UnionOf(body).value.0, UnionOf(body).value.1;
      BranchesBecome(edge, spelling, branches, 0, expanding, position, members);
    }
  }

  lemma {:induction false} BranchesBecome(edge: Edge, spelling: Spelling, branches: seq<Schema>, index: nat,
      expanding: seq<string>, position: seq<nat>, members: Members)
    requires index <= |branches| && Described(edge.defs)
    ensures ResultBecomes(ExpandedFrom(edge, spelling, branches, index, expanding, position),
              ExpandedFrom(Without(edge, members), spelling, branches, index, expanding, position), members)
    decreases |Unexpanded(edge.defs, expanding)|, branches, 0, |branches| - index
  {
    if index < |branches| {
      BranchBecomes(edge, spelling, branches, index, expanding, position, members);
      BranchesBecome(edge, spelling, branches, index + 1, expanding, position, members);
    }
  }

  lemma {:induction false} BranchBecomes(edge: Edge, spelling: Spelling, branches: seq<Schema>, index: nat,
      expanding: seq<string>, position: seq<nat>, members: Members)
    requires index < |branches| && Described(edge.defs)
    ensures AnswerBecomes(ExpandedBranch(edge, spelling, branches, index, expanding, position),
              ExpandedBranch(Without(edge, members), spelling, branches, index, expanding, position), members)
    decreases |Unexpanded(edge.defs, expanding)|, branches, 0, 0
  {
    if !(spelling == OneOf && UnitVariant(branches[index]).Some?) {
      ExpandedBecomes(edge, branches[index], expanding, position + [index + 1], members);
    }
  }

  lemma {:induction false} NothingBecomesItself(tree: Branches, other: Branches)
    requires Becomes(tree, other, NOTHING)
    ensures tree == other
  {
    if tree != other && tree.Choice? {
      forall i | 0 <= i < |tree.branches| ensures tree.branches[i] == other.branches[i] {
        NothingBecomesItself(tree.branches[i], other.branches[i]);
      }
    }
  }

  /** The tree a schema is expanded into says of every object what the schema says of it, each
      definition that is a reference read as saying nothing. */
  lemma ExpansionMeans(ok: (Prop, Value) -> bool, edge: Edge, schema: Schema, expanding: seq<string>,
      position: seq<nat>, j: Object, fuel: nat)
    requires Shaped(schema) && Described(edge.defs)
    requires Expanded(edge, schema, expanding, position).Ok? && |Unexpanded(edge.defs, expanding)| <= fuel
    ensures var tree := Expanded(edge, schema, expanding, position).value;
      tree.Some? && Judge(ok, AllEmptied(edge.defs, NOTHING), schema, j, |position|, fuel)
        == Some(Holds(ok, tree.value, j))
  {
    var without := Without(edge, NOTHING);
    EmptiedAreShaped(edge.defs, NOTHING);
    ExpandedBecomes(edge, schema, expanding, position, NOTHING);
    ExpansionKeepsMeaning(ok, without, schema, expanding, position, j, fuel);
    NothingBecomesItself(Expanded(edge, schema, expanding, position).value.value,
      Expanded(without, schema, expanding, position).value.value);
  }

  // ----- the document is the one of emptied definitions -----

  lemma {:induction false} MergedTheSame(tree: Branches, other: Branches, base: Members, handed: seq<Held>)
    requires Becomes(tree, other, EMPTY)
    ensures MergedInto(tree, base, handed, false) == MergedInto(other, base, handed, false)
  {
    if tree == Closed(NOTHING) && other == Closed(EMPTY) {
      assert MergedObjects(base, NOTHING) == MergedObjects(base, EMPTY);
    } else if tree != other {
      forall i | 0 <= i < |tree.branches|
        ensures MergedInto(tree.branches[i], base, handed, false) == MergedInto(other.branches[i], base, handed, false)
      {
        MergedTheSame(tree.branches[i], other.branches[i], base, handed);
      }
    }
  }

  lemma {:induction false} MultipliedTheSame(merged: Merged, tree: Branches, other: Branches)
    requires Becomes(tree, other, EMPTY)
    ensures Multiplied(merged, tree, false) == Multiplied(merged, other, false)
  {
    match merged
    case Leaf(base, handed) => MergedTheSame(tree, other, base, handed);
    case Fork(_, forks) =>
      forall i | 0 <= i < |forks| ensures Multiplied(forks[i], tree, false) == Multiplied(forks[i], other, false) {
        MultipliedTheSame(forks[i], tree, other);
      }
  }

  ghost predicate OffersBecome(offers: seq<Offer>, others: seq<Offer>) {
    && |offers| == |others|
    && forall i :: 0 <= i < |offers| ==>
         !offers[i].isMap && !others[i].isMap && Becomes(offers[i].tree, others[i].tree, EMPTY)
  }

  lemma {:induction false} OffersTheSame(merged: Merged, offers: seq<Offer>, others: seq<Offer>)
    requires OffersBecome(offers, others)
    ensures MergedOffers(merged, offers) == MergedOffers(merged, others)
    decreases |offers|
  {
    if offers != [] {
      MultipliedTheSame(merged, offers[0].tree, others[0].tree);
      OffersTheSame(Multiplied(merged, offers[0].tree, false), offers[1..], others[1..]);
    }
  }

  lemma OfferBecomes(defs: map<string, Schema>, besideTag: bool, source: Source)
    requires Described(defs) && Plainly(source)
    ensures var offered := OfferedBy(defs, besideTag, source);
      var other := OfferedBy(AllEmptied(defs, EMPTY), besideTag, source);
      if offered.Err? then other == offered else other.Ok? && OffersBecome(offered.value, other.value)
  {
    var edge := Edge(defs, besideTag, source.unitMember);
    ExpandedBecomes(edge, source.schema, [], [], EMPTY);
    assert Without(edge, EMPTY) == Edge(AllEmptied(defs, EMPTY), besideTag, source.unitMember);
    var tree, other := Expanded(edge, source.schema, [], []), Expanded(Without(edge, EMPTY), source.schema, [], []);
    if tree.Ok? && tree.value.Some? {
      StaysOptional(tree.value.value, other.value.value, source.optional);
    }
  }

  lemma StaysOptional(tree: Branches, other: Branches, optional: bool)
    requires Becomes(tree, other, EMPTY)
    ensures Becomes(Offered(tree, optional, false), Offered(other, optional, false), EMPTY)
  {
  }

  lemma {:induction false} AllOffersBecome(defs: map<string, Schema>, besideTag: bool, sources: seq<Source>)
    requires Described(defs) && forall i :: 0 <= i < |sources| ==> Plainly(sources[i])
    ensures var offered := OfferedAll(defs, besideTag, sources);
      var other := OfferedAll(AllEmptied(defs, EMPTY), besideTag, sources);
      if offered.Err? then other == offered else other.Ok? && OffersBecome(offered.value, other.value)
  {
    if sources != [] {
      OfferBecomes(defs, besideTag, sources[0]);
      AllOffersBecome(defs, besideTag, sources[1..]);
    }
  }

  /** An object splits between the base and every source but `k`, each definition that is a reference
      read as an object without members. */
  ghost predicate SplitsBut(ok: (Prop, Value) -> bool, defs: map<string, Schema>, base: Members, sources: seq<Source>,
      own: set<string>, names: seq<set<string>>, j: Object, fuel: nat, k: int) {
    && j.Keys <= Everything(own, names)
    && Valid(ok, base, Only(j, own))
    && forall i :: 0 <= i < |names| && i < |sources| && i != k ==>
         Takes(ok, AllEmptied(defs, EMPTY), sources[i], Only(j, names[i]), fuel)
  }

  /** Each source writes names of its own, each definition that is a reference emptied. */
  ghost predicate OffersApart(defs: map<string, Schema>, besideTag: bool, sources: seq<Source>,
      names: seq<set<string>>, own: set<string>) {
    var offered := OfferedAll(AllEmptied(defs, EMPTY), besideTag, sources);
    offered.Ok? && Apart(Trees(offered.value), names, own)
  }

  /** The document a struct with flattened members is described by, over any definitions. Where the base
      is closed and the base and every source write names of their own, an object satisfies it exactly
      when it holds no other key and splits into an object of the base and one each source's schema
      takes, each definition that is a reference being an object without members there. */
  lemma DocumentMeans(ok: (Prop, Value) -> bool, defs: map<string, Schema>, besideTag: bool, base: Members,
      sources: seq<Source>, own: set<string>, names: seq<set<string>>, j: Object, fuel: nat)
    requires ClosedObject(base) && base.properties.Keys <= own
    requires Described(defs) && |defs| <= fuel && forall i :: 0 <= i < |sources| ==> Plainly(sources[i])
    requires OfferedAll(defs, besideTag, sources).Ok?
    requires OffersApart(defs, besideTag, sources, names, own)
    ensures var document := IntoValue(MergedOffers(Leaf(base, []), OfferedAll(defs, besideTag, sources).value));
      Judge(ok, defs, document, j, 2, fuel) == Some(SplitsBut(ok, defs, base, sources, own, names, j, fuel, -1))
  {
    var emptied, offers := AllEmptied(defs, EMPTY), OfferedAll(defs, besideTag, sources).value;
    AllOffersBecome(defs, besideTag, sources);
    var others := OfferedAll(emptied, besideTag, sources).value;
    EmptiedAreShaped(defs, EMPTY);
    OffersTheSame(Leaf(base, []), offers, others);
    FlattenedDocumentMeans(ok, emptied, besideTag, base, sources, own, names, j, fuel);
    WrittenMeansHeld(ok, defs, MergedOffers(Leaf(base, []), offers), j, 2, fuel);
    WrittenMeansHeld(ok, emptied, MergedOffers(Leaf(base, []), others), j, 2, fuel);
  }

  /** A source over two references is handed no key, whatever is behind them. */
  lemma BehindTakesNoKey(ok: (Prop, Value) -> bool, defs: map<string, Schema>, source: Source, name: string,
      next: string, j: Object, fuel: nat)
    requires source.schema == ReferenceTo(name) && name in defs && defs[name] == ReferenceTo(next) && fuel > 0
    ensures Takes(ok, AllEmptied(defs, EMPTY), source, j, fuel) <==> j == map[]
  {
    var emptied := AllEmptied(defs, EMPTY);
    assert Count([true]) == 1;
    assert Judge(ok, emptied, emptied[name], j, 0, fuel - 1) == Some(Valid(ok, EMPTY, j));
    if j != map[] {
      var key :| key in j;
      assert key !in EMPTY.properties;
    }
  }

  /** A document one of whose sources stands over two references, whatever its base, its other sources
      and what is behind: an object satisfies it exactly when it splits between the base and the other
      sources, with no key for that one. So it is right of an object that does not split between the
      others, and of one that does where what is behind takes the keys that are left and there are
      none, or refuses them and there are some; and of no other object. */
  lemma BehindAReference(ok: (Prop, Value) -> bool, defs: map<string, Schema>, besideTag: bool, base: Members,
      sources: seq<Source>, own: set<string>, names: seq<set<string>>, j: Object, fuel: nat,
      k: nat, name: string, next: string)
    requires ClosedObject(base) && base.properties.Keys <= own
    requires Described(defs) && |defs| <= fuel && forall i :: 0 <= i < |sources| ==> Plainly(sources[i])
    requires OfferedAll(defs, besideTag, sources).Ok?
    requires OffersApart(defs, besideTag, sources, names, own)
    requires k < |sources| && k < |names| && sources[k].schema == ReferenceTo(name)
    requires name in defs && defs[name] == ReferenceTo(next)
    ensures var document := IntoValue(MergedOffers(Leaf(base, []), OfferedAll(defs, besideTag, sources).value));
      var rest, left := SplitsBut(ok, defs, base, sources, own, names, j, fuel, k), Only(j, names[k]);
      && Judge(ok, defs, document, j, 2, fuel) == Some(rest && left == map[])
      && ((Judge(ok, defs, document, j, 2, fuel) == Some(true) <==> rest && Takes(ok, defs, sources[k], left, fuel))
          <==> (rest ==> (Takes(ok, defs, sources[k], left, fuel) <==> left == map[])))
  {
    DocumentMeans(ok, defs, besideTag, base, sources, own, names, j, fuel);
    assert name in defs.Keys && |defs| == |defs.Keys|;
    BehindTakesNoKey(ok, defs, sources[k], name, next, Only(j, names[k]), fuel);
  }
}
