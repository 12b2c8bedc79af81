/** The flatten merge is a product: of leaves, in order, and of meanings. An object satisfies the
    merged schema exactly when it splits, by the names each side writes, into an object of the base
    and one of every source, whether the choices among them are read as `oneOf` or as `anyOf`. */
module FlattenMerge {
  import opened Wrappers
  import opened FlattenModel

  // ----- the leaves are an ordered cross product -----

  datatype Pair = Pair(members: Members, handed: seq<Held>)

  function LeavesOf(source: Branches): seq<Branches>
    decreases source, 1
  {
    match source
    case Choice(_, below) => LeavesOfAll(below)
    case _ => [source]
  }

  function LeavesOfAll(below: seq<Branches>): seq<Branches>
    decreases below, 0
  {
    if below == [] then [] else LeavesOf(below[0]) + LeavesOfAll(below[1..])
  }

  function MergedLeaves(merged: Merged): seq<Pair>
    decreases merged, 1
  {
    match merged
    case Leaf(m, handed) => [Pair(m, handed)]
    case Fork(_, forks) => MergedLeavesAll(forks)
  }

  function MergedLeavesAll(forks: seq<Merged>): seq<Pair>
    decreases forks, 0
  {
    if forks == [] then [] else MergedLeaves(forks[0]) + MergedLeavesAll(forks[1..])
  }

  /** What one leaf of a source makes of one leaf of the base. */
  function Gained(base: Pair, leaf: Branches, isMap: bool): Pair {
    match leaf
    case Absent => Pair(MergedObjects(base.members, NOTHING), base.handed)
    case Dropped => Pair(MergedObjects(base.members, NOTHING), base.handed + [Held(Always, None)])
    case Closed(m) => Pair(MergedObjects(base.members, m), HandedBeside(base.handed, m, isMap))
    case Tagged(name) => Pair(MergedObjects(base.members, TaggedMembers(name)), base.handed)
    case Choice(_, _) => base
  }

  function Row(base: Pair, leaves: seq<Branches>, isMap: bool): seq<Pair> {
    seq(|leaves|, i requires 0 <= i < |leaves| => Gained(base, leaves[i], isMap))
  }

  function Product(bases: seq<Pair>, leaves: seq<Branches>, isMap: bool): seq<Pair> {
    if bases == [] then [] else Row(bases[0], leaves, isMap) + Product(bases[1..], leaves, isMap)
  }

  lemma RowOfConcat(base: Pair, one: seq<Branches>, two: seq<Branches>, isMap: bool)
    ensures Row(base, one + two, isMap) == Row(base, one, isMap) + Row(base, two, isMap)
  {
  }

  lemma {:induction false} ProductOfConcat(one: seq<Pair>, two: seq<Pair>, leaves: seq<Branches>, isMap: bool)
    ensures Product(one + two, leaves, isMap) == Product(one, leaves, isMap) + Product(two, leaves, isMap)
  {
    if one == [] {
      assert one + two == two;
    } else {
      assert (one + two)[1..] == one[1..] + two;
      ProductOfConcat(one[1..], two, leaves, isMap);
    }
  }

  function IntoAll(below: seq<Branches>, base: Members, handed: seq<Held>, isMap: bool): seq<Merged> {
    seq(|below|, i requires 0 <= i < |below| => MergedInto(below[i], base, handed, isMap))
  }

  lemma {:induction false} MergedIntoLeaves(source: Branches, base: Members, handed: seq<Held>, isMap: bool)
    ensures MergedLeaves(MergedInto(source, base, handed, isMap)) == Row(Pair(base, handed), LeavesOf(source), isMap)
    decreases source, 1
  {
    if source.Choice? {
      var forks := IntoAll(source.branches, base, handed, isMap);
      IntoAllLeaves(source.branches, base, handed, isMap);
      if |forks| == 1 {
        assert MergedLeavesAll(forks) == MergedLeaves(forks[0]) + MergedLeavesAll([]);
      }
    }
  }

  lemma {:induction false} IntoAllLeaves(below: seq<Branches>, base: Members, handed: seq<Held>, isMap: bool)
    ensures MergedLeavesAll(IntoAll(below, base, handed, isMap)) == Row(Pair(base, handed), LeavesOfAll(below), isMap)
    decreases below, 0
  {
    if below != [] {
      var forks := IntoAll(below, base, handed, isMap);
      assert forks[1..] == IntoAll(below[1..], base, handed, isMap);
      MergedIntoLeaves(below[0], base, handed, isMap);
      IntoAllLeaves(below[1..], base, handed, isMap);
      RowOfConcat(Pair(base, handed), LeavesOf(below[0]), LeavesOfAll(below[1..]), isMap);
    }
  }

  /** Merging one source multiplies the leaves: base by base, and leaf by leaf of the source within
      each, whatever the unions are nested like and whichever of them offer one branch alone. */
  lemma {:induction false} MultipliedLeaves(merged: Merged, source: Branches, isMap: bool)
    ensures MergedLeaves(Multiplied(merged, source, isMap)) == Product(MergedLeaves(merged), LeavesOf(source), isMap)
    decreases merged, 1
  {
    match merged
    case Leaf(base, handed) =>
      MergedIntoLeaves(source, base, handed, isMap);
      assert Product([Pair(base, handed)], LeavesOf(source), isMap)
          == Row(Pair(base, handed), LeavesOf(source), isMap) + Product([], LeavesOf(source), isMap);
    case Fork(_, forks) => MultipliedAllLeaves(forks, source, isMap);
  }

  function MultipliedAll(forks: seq<Merged>, source: Branches, isMap: bool): seq<Merged> {
    seq(|forks|, i requires 0 <= i < |forks| => Multiplied(forks[i], source, isMap))
  }

  lemma {:induction false} MultipliedAllLeaves(forks: seq<Merged>, source: Branches, isMap: bool)
    ensures MergedLeavesAll(MultipliedAll(forks, source, isMap))
      == Product(MergedLeavesAll(forks), LeavesOf(source), isMap)
    decreases forks, 0
  {
    if forks != [] {
      assert MultipliedAll(forks, source, isMap)[1..] == MultipliedAll(forks[1..], source, isMap);
      MultipliedLeaves(forks[0], source, isMap);
      MultipliedAllLeaves(forks[1..], source, isMap);
      ProductOfConcat(MergedLeaves(forks[0]), MergedLeavesAll(forks[1..]), LeavesOf(source), isMap);
    }
  }

  lemma Within(i: nat, k: nat, rows: nat, width: nat)
    requires i < rows && k < width
    ensures i * width + k < rows * width
  {
    RowsGrow(i + 1, rows, width);
    OneRowMore(i, width);
  }

  lemma {:induction false} RowsGrow(i: nat, rows: nat, width: nat)
    requires i <= rows
    ensures i * width <= rows * width
    decreases rows - i
  {
    if i < rows {
      RowsGrow(i + 1, rows, width);
      OneRowMore(i, width);
    }
  }

  lemma OneRowMore(i: nat, width: nat)
    ensures (i + 1) * width == i * width + width
  {
  }

  /** What stands where in the product. */
  lemma {:induction false} ProductAt(bases: seq<Pair>, leaves: seq<Branches>, isMap: bool, i: nat, k: nat)
    requires i < |bases| && k < |leaves|
    ensures i * |leaves| + k < |Product(bases, leaves, isMap)| == |bases| * |leaves|
    ensures Product(bases, leaves, isMap)[i * |leaves| + k] == Gained(bases[i], leaves[k], isMap)
  {
    ProductSize(bases, leaves, isMap);
    Within(i, k, |bases|, |leaves|);
    if i > 0 {
      var rest, at := Product(bases[1..], leaves, isMap), (i - 1) * |leaves| + k;
      ProductAt(bases[1..], leaves, isMap, i - 1, k);
      assert i * |leaves| + k == |leaves| + at;
      assert (Row(bases[0], leaves, isMap) + rest)[|leaves| + at] == rest[at];
    }
  }

  lemma {:induction false} ProductSize(bases: seq<Pair>, leaves: seq<Branches>, isMap: bool)
    ensures |Product(bases, leaves, isMap)| == |bases| * |leaves|
  {
    if bases != [] {
      ProductSize(bases[1..], leaves, isMap);
      assert |bases| * |leaves| == |leaves| + (|bases| - 1) * |leaves|;
    }
  }

  // ----- the merge of two objects -----

  /** A closed object: the keys it names and no others, each required one among them. */
  ghost predicate ClosedObject(m: Members) {
    m.extra == Never && m.names.None? && forall i :: 0 <= i < |m.required| ==> m.required[i] in m.properties
  }

  function Only(j: Object, names: set<string>): Object {
    map key | key in j && key in names :: j[key]
  }

  /** Two closed objects over disjoint names, `own` and `others`: their merge takes the objects made
      of one of each. */
  lemma MergedObjectsSplit(ok: (Prop, Value) -> bool, a: Members, b: Members, own: set<string>, others: set<string>,
      j: Object)
    requires ClosedObject(a) && ClosedObject(b)
    requires a.properties.Keys <= own && b.properties.Keys <= others && own !! others
    ensures Valid(ok, MergedObjects(a, b), j)
      <==> j.Keys <= own + others && Valid(ok, a, Only(j, own)) && Valid(ok, b, Only(j, others))
  {
    if Valid(ok, MergedObjects(a, b), j) {
      MergedObjectParts(ok, a, b, own, others, j);
    }
    if j.Keys <= own + others && Valid(ok, a, Only(j, own)) && Valid(ok, b, Only(j, others)) {
      PartsMakeMerged(ok, a, b, own, others, j);
    }
  }

  lemma MergedObjectParts(ok: (Prop, Value) -> bool, a: Members, b: Members, own: set<string>, others: set<string>,
      j: Object)
    requires ClosedObject(a) && ClosedObject(b)
    requires a.properties.Keys <= own && b.properties.Keys <= others && own !! others
    requires Valid(ok, MergedObjects(a, b), j)
    ensures j.Keys <= own + others && Valid(ok, a, Only(j, own)) && Valid(ok, b, Only(j, others))
  {
    var m, left, right := MergedObjects(a, b), Only(j, own), Only(j, others);
    assert forall key :: key in j ==> key in m.properties;
    forall i | 0 <= i < |a.required| ensures a.required[i] in left {
      assert a.required[i] in m.required;
      var at :| 0 <= at < |m.required| && m.required[at] == a.required[i];
    }
    forall i | 0 <= i < |b.required| ensures b.required[i] in right {
      assert b.required[i] in m.required;
      var at :| 0 <= at < |m.required| && m.required[at] == b.required[i];
    }
  }

  lemma PartsMakeMerged(ok: (Prop, Value) -> bool, a: Members, b: Members, own: set<string>, others: set<string>,
      j: Object)
    requires ClosedObject(a) && ClosedObject(b)
    requires a.properties.Keys <= own && b.properties.Keys <= others && own !! others
    requires j.Keys <= own + others && Valid(ok, a, Only(j, own)) && Valid(ok, b, Only(j, others))
    ensures Valid(ok, MergedObjects(a, b), j)
  {
    var m, left, right := MergedObjects(a, b), Only(j, own), Only(j, others);
    forall i | 0 <= i < |m.required| ensures m.required[i] in j {
      assert m.required[i] in m.required;
      if m.required[i] in a.required {
        var at :| 0 <= at < |a.required| && a.required[at] == m.required[i];
        assert a.required[at] in left;
      } else {
        var at :| 0 <= at < |b.required| && b.required[at] == m.required[i];
        assert b.required[at] in right;
      }
    }
    forall key | key in j ensures key in m.properties && ok(m.properties[key], j[key]) {
      if key in own { assert key in left; } else { assert key in right; }
    }
  }

  /** The merge as it runs: the properties of `a` and then of `b` into one map, and each required key
      once, in the order they come. */
  method MergeObjectSchemas(a: Members, b: Members) returns (out: Members)
    ensures out == MergedObjects(a, b)
  {
    var properties: map<string, Prop> := map[];
    var sources := [a, b];
    var required: seq<string> := [];
    for source := 0 to 2
      invariant properties == if source == 0 then map[] else if source == 1 then a.properties
        else a.properties + b.properties
    {
      var from := sources[source].properties;
      ghost var before := properties;
      var left := from.Keys;
      while left != {}
        invariant left <= from.Keys
        invariant properties == before + map key | key in from && key !in left :: from[key]
      {
        var key :| key in left;
        properties := properties[key := from[key]];
        left := left - {key};
      }
      assert (map key | key in from && key !in left :: from[key]) == from;
    }
    for source := 0 to 2
      invariant required == if source == 0 then [] else if source == 1 then Deduped([], a.required)
                            else Deduped(Deduped([], a.required), b.required)
    {
      var from := sources[source].required;
      ghost var before := required;
      for i := 0 to |from|
        invariant Deduped(required, from[i..]) == Deduped(before, from)
      {
        assert from[i..][0] == from[i] && from[i..][1..] == from[i + 1..];
        if from[i] !in required {
          required := required + [from[i]];
        }
      }
      assert from[|from|..] == [];
    }
    return Members(properties, required, Never, None);
  }

  // ----- the meaning of a multiplied tree -----

  /** Every key a source can write. */
  ghost predicate WritesWithin(source: Branches, names: set<string>) {
    match source
    case Absent => true
    case Dropped => false
    case Closed(m) => ClosedObject(m) && m.properties.Keys <= names
    case Tagged(name) => name in names
    case Choice(_, below) => forall i :: 0 <= i < |below| ==> WritesWithin(below[i], names)
  }

  ghost predicate MergedWithin(merged: Merged, names: set<string>) {
    match merged
    case Leaf(m, handed) => handed == [] && ClosedObject(m) && m.properties.Keys <= names
    case Fork(_, forks) => forall i :: 0 <= i < |forks| ==> MergedWithin(forks[i], names)
  }

  /** A condition every branch holds under passes through the choice, `oneOf` among them. */
  lemma {:induction false} ChosenUnder(spelling: Spelling, holds: seq<bool>, also: bool, both: seq<bool>)
    requires |both| == |holds| && forall i :: 0 <= i < |holds| ==> both[i] == (also && holds[i])
    ensures Chosen(spelling, both) == (also && Chosen(spelling, holds))
  {
    CountUnder(holds, also, both);
  }

  lemma {:induction false} CountUnder(holds: seq<bool>, also: bool, both: seq<bool>)
    requires |both| == |holds| && forall i :: 0 <= i < |holds| ==> both[i] == (also && holds[i])
    ensures Count(both) == if also then Count(holds) else 0
  {
    if holds != [] { CountUnder(holds[1..], also, both[1..]); }
  }

  function HoldsEach(ok: (Prop, Value) -> bool, below: seq<Branches>, j: Object): seq<bool> {
    seq(|below|, i requires 0 <= i < |below| => Holds(ok, below[i], j))
  }

  function HoldsMergedEach(ok: (Prop, Value) -> bool, forks: seq<Merged>, j: Object): seq<bool> {
    seq(|forks|, i requires 0 <= i < |forks| => HoldsMerged(ok, forks[i], j))
  }

  lemma ForkedHolds(ok: (Prop, Value) -> bool, spelling: Spelling, forks: seq<Merged>, j: Object)
    ensures HoldsMerged(ok, Forked(spelling, forks), j) == Chosen(spelling, HoldsMergedEach(ok, forks, j))
  {
    if |forks| == 1 {
      var holds := HoldsMergedEach(ok, forks, j);
      assert Count(holds) == (if holds[0] then 1 else 0) + Count(holds[1..]);
    }
  }

  lemma {:induction false} MergedIntoMeans(ok: (Prop, Value) -> bool, source: Branches, base: Members,
      own: set<string>, others: set<string>, j: Object)
    requires ClosedObject(base) && base.properties.Keys <= own && WritesWithin(source, others) && own !! others
    ensures HoldsMerged(ok, MergedInto(source, base, [], false), j)
      <==> j.Keys <= own + others && Valid(ok, base, Only(j, own)) && Holds(ok, source, Only(j, others))
    ensures MergedWithin(MergedInto(source, base, [], false), own + others)
  {
    var also := j.Keys <= own + others && Valid(ok, base, Only(j, own));
    match source
    case Absent =>
      AddingMeans(ok, base, Members(map[], [], Never, None), own, others, j);
      assert MergedObjects(base, NOTHING) == MergedObjects(base, Members(map[], [], Never, None));
      assert Valid(ok, Members(map[], [], Never, None), Only(j, others)) <==> Only(j, others) == map[];
    case Closed(m) => AddingMeans(ok, base, m, own, others, j);
    case Tagged(name) =>
      var m := Members(map[name := NULL], [name], Never, None);
      AddingMeans(ok, base, m, own, others, j);
      assert MergedObjects(base, TaggedMembers(name)) == MergedObjects(base, m);
      assert m.required[0] == name;
      assert Valid(ok, m, Only(j, others)) <==> Holds(ok, source, Only(j, others));
    case Choice(spelling, below) =>
      var forks := IntoAll(below, base, [], false);
      forall i | 0 <= i < |below|
        ensures HoldsMerged(ok, forks[i], j) <==> also && Holds(ok, below[i], Only(j, others))
        ensures MergedWithin(forks[i], own + others)
      {
        MergedIntoMeans(ok, below[i], base, own, others, j);
      }
      ForkedHolds(ok, spelling, forks, j);
      ChosenUnder(spelling, HoldsEach(ok, below, Only(j, others)), also, HoldsMergedEach(ok, forks, j));
  }

  lemma AddingMeans(ok: (Prop, Value) -> bool, base: Members, m: Members, own: set<string>, others: set<string>,
      j: Object)
    requires ClosedObject(base) && ClosedObject(m)
    requires base.properties.Keys <= own && m.properties.Keys <= others && own !! others
    ensures Valid(ok, MergedObjects(base, m), j)
      <==> j.Keys <= own + others && Valid(ok, base, Only(j, own)) && Valid(ok, m, Only(j, others))
    ensures ClosedObject(MergedObjects(base, m)) && MergedObjects(base, m).properties.Keys <= own + others
  {
    MergedObjectsSplit(ok, base, m, own, others, j);
    var merged := MergedObjects(base, m);
    forall i | 0 <= i < |merged.required| ensures merged.required[i] in merged.properties {
      assert merged.required[i] in merged.required;
    }
  }

  lemma {:induction false} MultipliedMeans(ok: (Prop, Value) -> bool, merged: Merged, source: Branches,
      own: set<string>, others: set<string>, j: Object)
    requires MergedWithin(merged, own) && WritesWithin(source, others) && own !! others
    ensures HoldsMerged(ok, Multiplied(merged, source, false), j)
      <==> j.Keys <= own + others && HoldsMerged(ok, merged, Only(j, own)) && Holds(ok, source, Only(j, others))
    ensures MergedWithin(Multiplied(merged, source, false), own + others)
  {
    match merged
    case Leaf(base, handed) => MergedIntoMeans(ok, source, base, own, others, j);
    case Fork(spelling, forks) =>
      var also := j.Keys <= own + others && Holds(ok, source, Only(j, others));
      forall i | 0 <= i < |forks|
        ensures HoldsMerged(ok, MultipliedAll(forks, source, false)[i], j) <==>
          also && HoldsMerged(ok, forks[i], Only(j, own))
        ensures MergedWithin(MultipliedAll(forks, source, false)[i], own + others)
      {
        MultipliedMeans(ok, forks[i], source, own, others, j);
      }
      ChosenUnder(spelling, HoldsMergedEach(ok, forks, Only(j, own)), also,
        HoldsMergedEach(ok, MultipliedAll(forks, source, false), j));
  }

  // ----- every source in turn -----

  function MergedAll(merged: Merged, sources: seq<Branches>): Merged
    decreases |sources|
  {
    if sources == [] then merged else MergedAll(Multiplied(merged, sources[0], false), sources[1..])
  }

  lemma {:induction false} HeldWithin(ok: (Prop, Value) -> bool, merged: Merged, own: set<string>, j: Object)
    requires MergedWithin(merged, own) && HoldsMerged(ok, merged, j)
    ensures j.Keys <= own
  {
    match merged
    case Leaf(m, _) => assert forall key :: key in j ==> key in m.properties;
    case Fork(_, forks) =>
      var i := SomeHolds(HoldsMergedEach(ok, forks, j));
      HeldWithin(ok, forks[i], own, j);
  }

  lemma {:induction false} SomeHolds(holds: seq<bool>) returns (i: nat)
    requires Count(holds) > 0
    ensures i < |holds| && holds[i]
  {
    if holds[0] {
      i := 0;
    } else {
      i := SomeHolds(holds[1..]);
      i := i + 1;
    }
  }

  /** Each source writes its own names, and no two of them share one. */
  ghost predicate Apart(sources: seq<Branches>, names: seq<set<string>>, own: set<string>) {
    && |names| == |sources|
    && (forall i :: 0 <= i < |sources| ==> WritesWithin(sources[i], names[i]) && names[i] !! own)
    && forall i, k :: 0 <= i < k < |names| ==> names[i] !! names[k]
  }

  function Everything(own: set<string>, names: seq<set<string>>): set<string>
    decreases |names|
  {
    if names == [] then own else Everything(own + names[0], names[1..])
  }

  lemma {:induction false} EverythingHolds(own: set<string>, names: seq<set<string>>)
    ensures own <= Everything(own, names)
    ensures forall i :: 0 <= i < |names| ==> names[i] <= Everything(own, names)
    decreases |names|
  {
    if names != [] {
      EverythingHolds(own + names[0], names[1..]);
      forall i | 0 <= i < |names| ensures names[i] <= Everything(own, names) {
        if i > 0 { assert names[i] == names[1..][i - 1]; }
      }
    }
  }

  /** An object satisfies what the merge of every source makes of the base exactly when all its keys
      are ones the base or a source names, its part under the base's names satisfies the base, and
      its part under each source's names is what that source writes. The split is by name, so there
      is no other. */
  lemma {:induction false} MergeIsAProduct(ok: (Prop, Value) -> bool, merged: Merged, sources: seq<Branches>,
      own: set<string>, names: seq<set<string>>, j: Object)
    requires MergedWithin(merged, own) && Apart(sources, names, own)
    ensures HoldsMerged(ok, MergedAll(merged, sources), j)
      <==> (j.Keys <= Everything(own, names)
            && HoldsMerged(ok, merged, Only(j, own))
            && forall i :: 0 <= i < |sources| ==> Holds(ok, sources[i], Only(j, names[i])))
    ensures MergedWithin(MergedAll(merged, sources), Everything(own, names))
    decreases |sources|
  {
    if sources == [] {
      if HoldsMerged(ok, merged, j) { HeldWithin(ok, merged, own, j); }
      assert j.Keys <= own ==> Only(j, own) == j;
    } else {
      var next, more := Multiplied(merged, sources[0], false), own + names[0];
      MultipliedMeans(ok, merged, sources[0], own, names[0], j);
      forall i | 0 <= i < |sources[1..]|
        ensures WritesWithin(sources[1..][i], names[1..][i]) && names[1..][i] !! more
      {
        assert sources[1..][i] == sources[i + 1] && names[1..][i] == names[i + 1];
        assert names[0] !! names[i + 1];
      }
      MergeIsAProduct(ok, next, sources[1..], more, names[1..], j);
      EverythingHolds(more, names[1..]);
      MultipliedMeans(ok, merged, sources[0], own, names[0], Only(j, more));
      assert Only(Only(j, more), own) == Only(j, own);
      assert Only(Only(j, more), names[0]) == Only(j, names[0]);
      assert forall i :: 0 <= i < |sources[1..]| ==> sources[1..][i] == sources[i + 1] && names[1..][i] == names[i + 1];
    }
  }

  // ----- a map flattened alone -----

  /** The object a struct with no member of its own starts from. */
  const EMPTY := Members(map[], [], Never, None)

  /** Every leaf says what becomes of a key it does not name: it is closed, or a map. */
  ghost predicate Spoken(source: Branches, isMap: bool) {
    match source
    case Closed(m) => ClosedObject(m) || (m.extra != Unsaid && (isMap || m.extra != Never))
    case Choice(_, below) => forall i :: 0 <= i < |below| ==> Spoken(below[i], isMap)
    case _ => true
  }

  lemma ClosedAloneMeans(ok: (Prop, Value) -> bool, m: Members, isMap: bool, j: Object)
    requires Spoken(Closed(m), isMap)
    ensures HoldsMerged(ok, MergedInto(Closed(m), EMPTY, [], isMap), j) <==> Valid(ok, m, j)
  {
    var all := Deduped([], m.required);
    assert MergedObjects(EMPTY, m) == Members(m.properties, all, Never, None);
    SameRequired(m.required, all, j);
  }

  lemma TaggedAloneMeans(ok: (Prop, Value) -> bool, name: string, j: Object)
    ensures HoldsMerged(ok, MergedInto(Tagged(name), EMPTY, [], false), j) <==> Holds(ok, Tagged(name), j)
  {
    var m := MergedObjects(EMPTY, TaggedMembers(name));
    SameRequired([name], m.required, j);
    assert m.properties == map[name := NULL];
    assert Valid(ok, m, j) ==> [name][0] in j;
  }

  /** Handed maps, an object holds a key it does not name to the first of them. */
  lemma TheFirstMapHolds(ok: (Prop, Value) -> bool, m: Members, handed: seq<Held>, j: Object)
    requires handed != [] && m.names.None?
    ensures Valid(ok, HandedOut(m, handed), j)
      <==>
        && (forall i :: 0 <= i < |m.required| ==> m.required[i] in j)
        && forall key :: key in j ==>
             && NameTaken(ok, handed[0].names, key)
             && if key in m.properties then ok(m.properties[key], j[key]) else ExtraTakes(ok, handed[0].extra, j[key])
  {
  }

  /** Merged into an object that writes no key of its own, a map hands its values and its key names
      on, and a source read as the entries of a map leaves every key where it is absent: the merged
      schema takes what the source writes, and nothing else. */
  lemma {:induction false} MapAloneMeans(ok: (Prop, Value) -> bool, source: Branches, isMap: bool, j: Object)
    requires Spoken(source, isMap)
    ensures HoldsMerged(ok, MergedInto(source, EMPTY, [], isMap), j) <==> Holds(ok, source, j)
  {
    match source
    case Absent =>
    case Dropped =>
    case Closed(m) => ClosedAloneMeans(ok, m, isMap, j);
    case Tagged(name) => TaggedAloneMeans(ok, name, j);
    case Choice(spelling, below) =>
      var forks := IntoAll(below, EMPTY, [], isMap);
      forall i | 0 <= i < |below| ensures HoldsMerged(ok, forks[i], j) <==> Holds(ok, below[i], j) {
        MapAloneMeans(ok, below[i], isMap, j);
      }
      ForkedHolds(ok, spelling, forks, j);
      assert HoldsMergedEach(ok, forks, j) == HoldsEach(ok, below, j);
  }

  lemma SameRequired(one: seq<string>, two: seq<string>, j: Object)
    requires forall item :: item in one <==> item in two
    ensures (forall i :: 0 <= i < |one| ==> one[i] in j) <==> (forall i :: 0 <= i < |two| ==> two[i] in j)
  {
    if forall i :: 0 <= i < |one| ==> one[i] in j {
      forall i | 0 <= i < |two| ensures two[i] in j {
        assert two[i] in one;
        var k :| 0 <= k < |one| && one[k] == two[i];
      }
    }
    if forall i :: 0 <= i < |two| ==> two[i] in j {
      forall i | 0 <= i < |one| ensures one[i] in j {
        assert one[i] in two;
        var k :| 0 <= k < |two| && two[k] == one[i];
      }
    }
  }

  // ----- what a schema takes -----

  /** Whether an object satisfies `schema`, reading `oneOf` as exactly one, and `None` where more than
      `fuel` references stand in one another's way or one names no definition. `depth` says how far
      below a flatten edge the schema stands: in the choice the edge itself offers, at `1`, a `null`
      is the absence, an object of no key, and a unit variant pinned there by its name is the entry
      serde writes for it. From `2` on the reading is JSON Schema's own. */
  function Judge(ok: (Prop, Value) -> bool, defs: map<string, Schema>, schema: Schema, j: Object, depth: nat,
      fuel: nat): Option<bool>
    decreases fuel, schema, 1
  {
    match schema
    case Bare => Some(false)
    case Keywords(reference, typed, listed, constant, oneOf, anyOf, members) =>
      if reference.Some? then
        if fuel == 0 || reference.value !in defs then None
        else Judge(ok, defs, defs[reference.value], j, depth, fuel - 1)
      else if typed == Some("null") && depth == 1 then Some(j == map[])
      else
        var own := (typed.None? || typed.value == "object") && Valid(ok, members, j);
        var ones := if oneOf.Unwritten? then Some([true]) else JudgeAll(ok, defs, OneOf, oneOf.schemas, j, depth, fuel);
        var anys := if anyOf.Unwritten? then Some([true]) else JudgeAll(ok, defs, AnyOf, anyOf.schemas, j, depth, fuel);
        if ones.None? || anys.None? then None
        else Some(own && Chosen(OneOf, ones.value) && Chosen(AnyOf, anys.value))
  }

  function JudgeAll(ok: (Prop, Value) -> bool, defs: map<string, Schema>, spelling: Spelling, schemas: seq<Schema>,
      j: Object,
      depth: nat, fuel: nat): (judged: Option<seq<bool>>)
    ensures judged.Some? ==> |judged.value| == |schemas|
    decreases fuel, schemas, 0
  {
    if schemas == [] then Some([])
    else
      var first := JudgeBranch(ok, defs, spelling, schemas[0], j, depth, fuel);
      var rest := JudgeAll(ok, defs, spelling, schemas[1..], j, depth, fuel);
      if first.None? || rest.None? then None else Some([first.value] + rest.value)
  }

  function JudgeBranch(ok: (Prop, Value) -> bool, defs: map<string, Schema>, spelling: Spelling, schema: Schema,
      j: Object,
      depth: nat, fuel: nat): Option<bool>
    decreases fuel, schema, 2
  {
    if spelling == OneOf && depth == 0 && UnitVariant(schema).Some? then
      Some(Holds(ok, Tagged(UnitVariant(schema).value), j))
    else Judge(ok, defs, schema, j, depth + 1, fuel)
  }

  function IntoValues(forks: seq<Merged>): seq<Schema> {
    seq(|forks|, i requires 0 <= i < |forks| => IntoValue(forks[i]))
  }

  /** The schema a merged tree is written as takes exactly the objects that satisfy the tree. */
  lemma {:induction false} WrittenMeansHeld(ok: (Prop, Value) -> bool, defs: map<string, Schema>, merged: Merged,
      j: Object,
      depth: nat, fuel: nat)
    ensures Judge(ok, defs, IntoValue(merged), j, depth, fuel) == Some(HoldsMerged(ok, merged, j))
    decreases merged, 1
  {
    assert Count([true]) == 1;
    match merged
    case Leaf(_, _) =>
    case Fork(spelling, forks) =>
      WrittenMeansHeldAll(ok, defs, spelling, forks, j, depth, fuel);
      assert IntoValues(forks) == (if spelling == OneOf then IntoValue(merged).oneOf.schemas
        else IntoValue(merged).anyOf.schemas);
      assert Valid(ok, NOTHING, j);
  }

  lemma {:induction false} WrittenMeansHeldAll(ok: (Prop, Value) -> bool, defs: map<string, Schema>, spelling: Spelling,
      forks: seq<Merged>, j: Object, depth: nat, fuel: nat)
    ensures JudgeAll(ok, defs, spelling, IntoValues(forks), j, depth, fuel) == Some(HoldsMergedEach(ok, forks, j))
    decreases forks, 0
  {
    if forks == [] {
      assert IntoValues(forks) == [] && HoldsMergedEach(ok, forks, j) == [];
    } else {
      WrittenMeansHeld(ok, defs, forks[0], j, depth + 1, fuel);
      WrittenIsNoVariant(ok, defs, spelling, forks[0], j, depth, fuel);
      WrittenMeansHeldAll(ok, defs, spelling, forks[1..], j, depth, fuel);
      MergedOneMore(ok, forks, j);
      JudgedFirst(ok, defs, spelling, IntoValues(forks), j, depth, fuel, HoldsMerged(ok, forks[0], j),
        HoldsMergedEach(ok, forks[1..], j));
    }
  }

  /** A merged tree is written as no unit variant's name, so its branch is judged as it stands. */
  lemma WrittenIsNoVariant(ok: (Prop, Value) -> bool, defs: map<string, Schema>, spelling: Spelling, merged: Merged,
      j: Object,
      depth: nat, fuel: nat)
    ensures JudgeBranch(ok, defs, spelling, IntoValue(merged), j, depth, fuel)
      == Judge(ok, defs, IntoValue(merged), j, depth + 1, fuel)
  {
    assert TypeOf(IntoValue(merged)) == Some("object");
  }

  lemma MergedOneMore(ok: (Prop, Value) -> bool, forks: seq<Merged>, j: Object)
    requires forks != []
    ensures IntoValues(forks)[0] == IntoValue(forks[0]) && IntoValues(forks)[1..] == IntoValues(forks[1..])
    ensures HoldsMergedEach(ok, forks, j) == [HoldsMerged(ok, forks[0], j)] + HoldsMergedEach(ok, forks[1..], j)
  {
  }

  lemma JudgedFirst(ok: (Prop, Value) -> bool, defs: map<string, Schema>, spelling: Spelling, schemas: seq<Schema>,
      j: Object,
      depth: nat, fuel: nat, first: bool, rest: seq<bool>)
    requires schemas != [] && JudgeBranch(ok, defs, spelling, schemas[0], j, depth, fuel) == Some(first)
    requires JudgeAll(ok, defs, spelling, schemas[1..], j, depth, fuel) == Some(rest)
    ensures JudgeAll(ok, defs, spelling, schemas, j, depth, fuel) == Some([first] + rest)
  {
  }
}
