/** JSON Schemas as the flatten merge reads them, the tree it multiplies, and what an object has to
    be to satisfy each. A property's own schema is left whole: `ok` says which values it takes. */
module FlattenModel {
  import opened Wrappers
  import opened Texts

  /** A property's own schema, and a value under a property, as their JSON texts. */
  datatype Prop = Prop(text: string)
  datatype Value = Value(text: string)
  type Object = map<string, Value>

  /** `{ "type": "null" }`. */
  const NULL := Prop("null")

  /** `additionalProperties`: left out, `false`, `true`, or a schema. */
  datatype Extra = Unsaid | Never | Always | Each(values: Prop)

  /** The object keywords of one schema. */
  datatype Members = Members(properties: map<string, Prop>, required: seq<string>, extra: Extra, names: Option<Prop>)

  const NOTHING := Members(map[], [], Unsaid, None)

  /** A schema: `Bare` is a JSON value that is no object, and the rest of them are the keywords they
      hold. `reference` is the name after the last `/` of a `$ref`. */
  datatype Schema =
    | Bare
    | Keywords(
        reference: Option<string>,
        typed: Option<string>,
        listed: bool,
        constant: Option<string>,
        oneOf: Branching,
        anyOf: Branching,
        members: Members)

  /** The array under `oneOf` or `anyOf`, where the keyword is written. */
  datatype Branching = Unwritten | Branching(schemas: seq<Schema>)

  datatype Spelling = OneOf | AnyOf

  /** What a merged source offers. */
  datatype Branches =
    | Absent
    | Dropped
    | Closed(members: Members)
    | Tagged(name: string)
    | Choice(spelling: Spelling, branches: seq<Branches>)

  /** A map merged so far: its values, and the keys it names where it names some. */
  datatype Held = Held(extra: Extra, names: Option<Prop>)

  /** What the merge holds while it multiplies. */
  datatype Merged =
    | Leaf(members: Members, handed: seq<Held>)
    | Fork(spelling: Spelling, forks: seq<Merged>)

  // ----- what the merge asks of a schema -----

  /** The branches a schema offers, and under which spelling: `oneOf` is looked for first. */
  function UnionOf(schema: Schema): Option<(Spelling, seq<Schema>)> {
    if schema.Bare? then None
    else if schema.oneOf.Branching? then Some((OneOf, schema.oneOf.schemas))
    else if schema.anyOf.Branching? then Some((AnyOf, schema.anyOf.schemas))
    else None
  }

  function TypeOf(schema: Schema): Option<string> {
    if schema.Bare? then None else schema.typed
  }

  /** The variant name a branch of an externally tagged enum's `oneOf` pins. */
  function UnitVariant(schema: Schema): Option<string> {
    if TypeOf(schema) == Some("string") then schema.constant else None
  }

  // ----- what an object has to be -----

  predicate ExtraTakes(ok: (Prop, Value) -> bool, extra: Extra, value: Value) {
    match extra
    case Unsaid => true
    case Never => false
    case Always => true
    case Each(values) => ok(values, value)
  }

  /** Whether `key` is a name `names` takes: a property name is a string of its own. */
  predicate NameTaken(ok: (Prop, Value) -> bool, names: Option<Prop>, key: string) {
    names.None? || ok(names.value, Value(key))
  }

  /** The object keywords of `m` hold of `j`. */
  predicate Valid(ok: (Prop, Value) -> bool, m: Members, j: Object) {
    && (forall i :: 0 <= i < |m.required| ==> m.required[i] in j)
    && (forall key :: key in j ==>
         if key in m.properties then ok(m.properties[key], j[key]) else ExtraTakes(ok, m.extra, j[key]))
    && (forall key :: key in j ==> NameTaken(ok, m.names, key))
  }

  /** How many of `holds` do. */
  function Count(holds: seq<bool>): nat {
    if holds == [] then 0 else (if holds[0] then 1 else 0) + Count(holds[1..])
  }

  /** `oneOf` asks that one branch holds and no other, `anyOf` that some branch does. */
  predicate Chosen(spelling: Spelling, holds: seq<bool>) {
    match spelling
    case OneOf => Count(holds) == 1
    case AnyOf => Count(holds) > 0
  }

  /** `j` is what `branches` writes. */
  predicate Holds(ok: (Prop, Value) -> bool, branches: Branches, j: Object) {
    match branches
    case Absent => j == map[]
    case Dropped => true
    case Closed(m) => Valid(ok, m, j)
    case Tagged(name) => j.Keys == {name} && ok(NULL, j[name])
    case Choice(spelling, below) =>
      Chosen(spelling, seq(|below|, i requires 0 <= i < |below| => Holds(ok, below[i], j)))
  }

  /** `j` satisfies the merged tree. */
  predicate HoldsMerged(ok: (Prop, Value) -> bool, merged: Merged, j: Object) {
    match merged
    case Leaf(m, handed) => Valid(ok, HandedOut(m, handed), j)
    case Fork(spelling, forks) =>
      Chosen(spelling, seq(|forks|, i requires 0 <= i < |forks| => HoldsMerged(ok, forks[i], j)))
  }

  // ----- the merge -----

  /** The first occurrence of each of `items` that `seen` does not hold already, after `seen`. */
  function Deduped(seen: seq<string>, items: seq<string>): (all: seq<string>)
    ensures forall item :: item in all <==> item in seen || item in items
    decreases |items|
  {
    if items == [] then seen
    else Deduped(if items[0] in seen then seen else seen + [items[0]], items[1..])
  }

  /** `name` is among the first `n` keys met. */
  ghost predicate MetBefore(met: seq<string>, name: string, n: nat) {
    exists m :: 0 <= m < n && m < |met| && met[m] == name
  }

  /** The keys are those that are met, each ahead of all that are first met after it. */
  ghost predicate InFirstMetOrder(all: seq<string>, met: seq<string>) {
    && (forall item :: item in all <==> item in met)
    && forall i, j, k :: 0 <= i < j < |all| && 0 <= k < |met| && met[k] == all[j] ==> MetBefore(met, all[i], k)
  }

  /** A key met again changes no order. */
  lemma MetAgain(all: seq<string>, seen: seq<string>, item: string, rest: seq<string>)
    requires item in seen && InFirstMetOrder(all, seen + rest)
    ensures InFirstMetOrder(all, seen + ([item] + rest))
  {
    var met, more := seen + rest, seen + ([item] + rest);
    forall name ensures name in met <==> name in more {
      assert name in [item] + rest <==> name == item || name in rest;
    }
    forall i, j, k | 0 <= i < j < |all| && 0 <= k < |more| && more[k] == all[j] ensures MetBefore(more, all[i], k) {
      var at := MetAlready(seen, item, rest, k);
      assert met[at] == all[j];
      assert MetBefore(met, all[i], at);
      var m :| 0 <= m < at && m < |met| && met[m] == all[i];
      assert more[if m < |seen| then m else m + 1] == all[i];
    }
  }

  /** What stands at a place of what is met stood no later without the key met again. */
  lemma MetAlready(seen: seq<string>, item: string, rest: seq<string>, k: nat) returns (at: nat)
    requires item in seen && k <= |seen| + |rest|
    ensures at < |seen + rest| && (seen + rest)[at] == (seen + ([item] + rest))[k]
    ensures at <= k && (k > |seen| ==> at < k)
    ensures k == |seen| ==> at < |seen|
  {
    if k == |seen| {
      at :| 0 <= at < |seen| && seen[at] == item;
    } else {
      at := if k < |seen| then k else k - 1;
    }
  }

  /** Each key once, in the order they are first met. */
  lemma DedupedInFirstMetOrder(seen: seq<string>, items: seq<string>)
    requires InFirstMetOrder(seen, seen)
    ensures InFirstMetOrder(Deduped(seen, items), seen + items)
    ensures forall i, j :: 0 <= i < j < |Deduped(seen, items)| ==> Deduped(seen, items)[i] != Deduped(seen, items)[j]
  {
    FirstMetOrderIsKept(seen, items);
    InOrderNoneTwice(Deduped(seen, items), seen + items);
  }

  lemma {:induction false} FirstMetOrderIsKept(seen: seq<string>, items: seq<string>)
    requires InFirstMetOrder(seen, seen)
    ensures InFirstMetOrder(Deduped(seen, items), seen + items)
    decreases |items|
  {
    if items == [] {
      assert seen + items == seen;
    } else {
      assert items == [items[0]] + items[1..];
      if items[0] in seen {
        FirstMetOrderIsKept(seen, items[1..]);
        MetAgain(Deduped(seen, items), seen, items[0], items[1..]);
      } else {
        var more := seen + [items[0]];
        MetFirst(seen, items[0]);
        FirstMetOrderIsKept(more, items[1..]);
        FirstMoves(seen, items);
      }
    }
  }

  lemma MetFirst(seen: seq<string>, item: string)
    requires InFirstMetOrder(seen, seen) && item !in seen
    ensures InFirstMetOrder(seen + [item], seen + [item])
  {
    var more := seen + [item];
    forall i, j, k | 0 <= i < j < |more| && 0 <= k < |more| && more[k] == more[j] ensures MetBefore(more, more[i], k) {
      if k == |seen| {
        assert more[i] == more[i];
      } else {
        MetAmongFirst(seen, item, i, j, k);
      }
    }
  }

  lemma MetAmongFirst(seen: seq<string>, item: string, i: nat, j: nat, k: nat)
    requires InFirstMetOrder(seen, seen) && item !in seen
    requires i < j <= |seen| && k < |seen| && seen[k] == (seen + [item])[j]
    ensures MetBefore(seen + [item], (seen + [item])[i], k)
  {
    var more := seen + [item];
    assert seen[k] in seen;
    assert j < |seen| && more[j] == seen[j] && more[i] == seen[i];
    assert MetBefore(seen, seen[i], k);
    var m :| 0 <= m < k && m < |seen| && seen[m] == seen[i];
    assert more[m] == seen[m];
  }

  lemma InOrderNoneTwice(all: seq<string>, met: seq<string>)
    requires InFirstMetOrder(all, met)
    ensures forall i, j :: 0 <= i < j < |all| ==> all[i] != all[j]
  {
    forall i, j | 0 <= i < j < |all| ensures all[i] != all[j] {
      if all[i] == all[j] {
        assert all[j] in met;
        var k :| 0 <= k < |met| && met[k] == all[j];
        NeverMet(met, all[j], k);
      }
    }
  }

  /** What is met only where it is met before is not met. */
  lemma {:induction false} NeverMet(met: seq<string>, name: string, k: nat)
    requires k < |met| && forall n :: 0 <= n < |met| && met[n] == name ==> MetBefore(met, name, n)
    ensures met[k] != name
  {
    if met[k] == name {
      var m :| 0 <= m < k && m < |met| && met[m] == name;
      NeverMet(met, name, m);
    }
  }

  /** The object `a` and `b` describe together: closed, the properties of `b` over those of `a`. */
  function MergedObjects(a: Members, b: Members): Members {
    Members(a.properties + b.properties, Deduped(Deduped([], a.required), b.required), Never, None)
  }

  function HandedBeside(handed: seq<Held>, m: Members, isMap: bool): seq<Held> {
    if m.extra != Unsaid && (isMap || m.extra != Never) then handed + [Held(m.extra, m.names)] else handed
  }

  /** The finished object: a key it does not name is held to the first map it was handed. */
  function HandedOut(m: Members, handed: seq<Held>): Members {
    if handed == [] then m
    else
      var first := handed[0];
      m.(extra := first.extra, names := if first.names.Some? then first.names else m.names)
  }

  function TaggedMembers(name: string): Members {
    Members(map[name := NULL], [name], Unsaid, None)
  }

  /** A level offering a single branch writes no wrapper, and its spelling goes unread. */
  function Forked(spelling: Spelling, forks: seq<Merged>): Merged {
    if |forks| == 1 then forks[0] else Fork(spelling, forks)
  }

  /** What one base becomes once the choices of `source` are written into it. */
  function MergedInto(source: Branches, base: Members, handed: seq<Held>, isMap: bool): Merged {
    match source
    case Absent => Leaf(MergedObjects(base, NOTHING), handed)
    case Dropped => Leaf(MergedObjects(base, NOTHING), handed + [Held(Always, None)])
    case Closed(m) => Leaf(MergedObjects(base, m), HandedBeside(handed, m, isMap))
    case Tagged(name) => Leaf(MergedObjects(base, TaggedMembers(name)), handed)
    case Choice(spelling, below) =>
      Forked(spelling, seq(|below|, i requires 0 <= i < |below| => MergedInto(below[i], base, handed, isMap)))
  }

  /** Every leaf gains the members of one leaf of `source`. */
  function Multiplied(merged: Merged, source: Branches, isMap: bool): Merged {
    match merged
    case Leaf(base, handed) => MergedInto(source, base, handed, isMap)
    case Fork(spelling, forks) =>
      Fork(spelling, seq(|forks|, i requires 0 <= i < |forks| => Multiplied(forks[i], source, isMap)))
  }

  function OrAbsent(source: Branches): Branches {
    Choice(AnyOf, [source, Absent])
  }

  /** What the absence of a source read as the entries of a map leaves: the keys. */
  function EntriesLeft(source: Branches): Branches {
    match source
    case Absent => Dropped
    case Choice(spelling, below) => Choice(spelling, seq(|below|, i requires 0 <= i < |below| => EntriesLeft(below[i])))
    case _ => source
  }

  /** One source as the merge is handed it. */
  datatype Source = Source(schema: Schema, optional: bool, entries: bool, isMap: bool, unitMember: bool)

  /** What a source offers, once its schema is expanded. */
  function Offered(expanded: Branches, optional: bool, entries: bool): Branches {
    var offered := if optional then OrAbsent(expanded) else expanded;
    if entries then EntriesLeft(offered) else offered
  }

  function ObjectSchema(typed: string, members: Members): Schema {
    Keywords(None, Some(typed), false, None, Unwritten, Unwritten, members)
  }

  /** The merged tree as the schema it is written as. */
  function IntoValue(merged: Merged): Schema {
    match merged
    case Leaf(m, handed) => ObjectSchema("object", HandedOut(m, handed))
    case Fork(spelling, forks) =>
      var branches := seq(|forks|, i requires 0 <= i < |forks| => IntoValue(forks[i]));
      if spelling == OneOf then Keywords(None, Some("object"), false, None, Branching(branches), Unwritten, NOTHING)
      else Keywords(None, Some("object"), false, None, Unwritten, Branching(branches), NOTHING)
  }
}
