/** Reads of what was written, and reads of anything: a read of a value's JSON gives the value, and a
    read that does not throw gives a value of the type. */
module DartCodecReads {
  import opened Wrappers
  import opened Levels
  import opened Integers
  import opened Decimals
  import opened DartCodec
  import opened DartMaps
  import opened Texts
  import opened DartCodecMeaning

  // ----- what the JSON of a value is -----

  /** Only `null` and `()` are written as `null`. */
  lemma WireIsNull(t: Nested, v: Value)
    requires !t.Optional? && Is(t, v)
    ensures v != Null && (Wire(t, v) == Null <==> t == Group([]))
  {
  }

  lemma {:induction false} WiresCount(t: Nested, vs: seq<Value>)
    requires AreAll(t, vs)
    ensures |WireAll(t, vs)| == |vs|
  {
    if vs != [] {
      WiresCount(t, vs[1..]);
    }
  }

  lemma {:induction false} WiresEachCount(ts: seq<Nested>, vs: seq<Value>)
    requires AreEach(ts, vs)
    ensures |WireEach(ts, vs)| == |vs|
  {
    if ts != [] {
      WiresEachCount(ts[1..], vs[1..]);
    }
  }

  lemma {:induction false} ZippedAt(labels: seq<string>, values: seq<Value>, index: nat)
    requires |labels| == |values| && index < |labels| && Position(labels, labels[index]) == Some(index)
    ensures Held(Zipped(labels, values), Text(labels[index])) == Some(values[index])
  {
    if index > 0 {
      assert labels[1..][index - 1] == labels[index];
      ZippedAt(labels[1..], values[1..], index - 1);
    }
  }

  lemma {:induction false} ZippedKeys(labels: seq<string>, values: seq<Value>, keys: seq<string>)
    requires forall label_ :: label_ in labels ==> label_ in keys
    ensures KeysAreIn(Zipped(labels, values), keys) && AreTextKeys(Zipped(labels, values))
  {
    if labels != [] && values != [] {
      ZippedKeys(labels[1..], values[1..], keys);
      assert labels[0] in labels;
    }
  }

  // ----- reading back -----

  lemma OptionReads(optional: bool, t: Nested, expr: Expr, held: Expr, scope: Scope, v: Value)
    requires !t.Optional? && Is(MaybeOpt(optional, t), v) && Eval(expr, scope) == Some(Wire(MaybeOpt(optional, t), v))
    requires Is(t, v) ==> Eval(held, scope) == Some(Settled(t, v))
    ensures Eval(MaybeNull(optional, expr, held), scope) == Some(Settled(MaybeOpt(optional, t), v))
  {
    if Is(t, v) {
      WireIsNull(t, v);
    }
  }

  function ItemRead(field: FieldDef, level: nat): Expr {
    MaybeNull(IsMarked(field.nullable, level), Var("e"), DecodeAt(field, level, Var("e")))
  }

  lemma SizedReads(of: Expr, body: Expr, scope: Scope, wires: seq<Value>, read: seq<Value>)
    requires Eval(of, scope) == Some(List(wires)) && EvalEach(body, wires, scope["array" := List(wires)]) == Some(read)
    ensures Eval(Sized(AsList(of), "array", |wires|, Mapped(Var("array"), body)), scope) == Some(List(read))
  {
    ListGives(Var("array"), body, scope["array" := List(wires)], wires, read);
  }

  lemma BytesRead(of: Expr, scope: Scope, read: seq<Value>)
    requires Eval(of, scope) == Some(List(read)) && AreBytes(read)
    ensures Eval(Unary(ToBytes, of), scope) == Some(List(read))
  {
  }

  lemma {:induction false} BytesAreSettled(vs: seq<Value>)
    requires AreAll(Leaf(U8), vs)
    ensures AreBytes(SettledAll(Leaf(U8), vs))
  {
    if vs != [] {
      PowersOfTwo();
      BytesAreSettled(vs[1..]);
    }
  }

  /** The levels whose read is a list of bytes hold bytes. */
  lemma BytesHoldBytes(field: FieldDef)
    requires Sound(field) && field.bytes
    ensures Slot(field, 0, OfBase(field.base)) == Leaf(U8)
  {
  }

  /** What `field`'s read at `level` makes of a value's JSON is the value. */
  lemma {:induction false} ReadsItsJson(field: FieldDef, level: nat, expr: Expr, scope: Scope, v: Value)
    requires Readable(field) && level <= field.depth && Codable(Bare(field, level, OfBase(field.base)))
    requires Is(Bare(field, level, OfBase(field.base)), v)
    requires Eval(expr, scope) == Some(Wire(Bare(field, level, OfBase(field.base)), v))
    ensures Eval(DecodeAt(field, level, expr), scope) == Some(Settled(Bare(field, level, OfBase(field.base)), v))
    decreases field.base, level, 2
  {
    if level > 0 {
      ArrayReadsItsJson(field, level, expr, scope, v);
    } else if field.base.Sibling? {
      CollectionReadsItsJson(field, expr, scope, v);
    } else {
      BaseReadsItsJson(field, expr, scope, v);
    }
  }

  /** A collection is read as its elements' field is, at the levels that are the collection's own. */
  lemma CollectionRead(field: FieldDef, element: FieldDef, expr: Expr) returns (combined: FieldDef)
    requires field.base.Sibling? && field.base.arguments == [element] && IsSequenceWrapper(field.base.name)
      && Readable(field)
    ensures combined.base == element.base && Readable(combined) && field.depth <= combined.depth
    ensures Bare(combined, combined.depth - field.depth, OfBase(combined.base)) == OfBase(field.base)
    ensures DecodeAt(field, 0, expr) == DecodeAt(combined, combined.depth - field.depth, expr)
  {
    CombinedIsTheCollection(field, element);
    combined := CollectionElement(field, element);
    assert field.base.arguments[0] == element && |field.base.arguments| == 1;
  }

  lemma {:induction false} CollectionReadsItsJson(field: FieldDef, expr: Expr, scope: Scope, v: Value)
    requires Readable(field) && field.base.Sibling? && Codable(OfBase(field.base))
    requires Is(OfBase(field.base), v) && Eval(expr, scope) == Some(Wire(OfBase(field.base), v))
    ensures Eval(DecodeAt(field, 0, expr), scope) == Some(Settled(OfBase(field.base), v))
    decreases field.base, 0, 1
  {
    var combined := CollectionRead(field, field.base.arguments[0], expr);
    ReadsItsJson(combined, combined.depth - field.depth, expr, scope, v);
  }

  lemma {:induction false} ArrayReadsItsJson(field: FieldDef, level: nat, expr: Expr, scope: Scope, v: Value)
    requires Readable(field) && 0 < level <= field.depth && Codable(Bare(field, level, OfBase(field.base)))
    requires Is(Bare(field, level, OfBase(field.base)), v)
    requires Eval(expr, scope) == Some(Wire(Bare(field, level, OfBase(field.base)), v))
    ensures Eval(DecodeAt(field, level, expr), scope) == Some(Settled(Bare(field, level, OfBase(field.base)), v))
    decreases field.base, level, 1
  {
    var item := Slot(field, level - 1, OfBase(field.base));
    var wires, read := WireAll(item, v.items), SettledAll(item, v.items);
    WiresCount(item, v.items);
    if field.bytes && level == 1 {
      BytesHoldBytes(field);
      BytesAreSettled(v.items);
    }
    ItemsReadTheirJson(field, level - 1, v.items, scope["array" := List(wires)]);
    ItemsReadTheirJson(field, level - 1, v.items, scope);
    ArrayGives(field, level, expr, scope, wires, read);
  }

  /** An array's read gives what its items' reads do: of another name for the array where its length is
      asked, and as bytes where it holds them. */
  lemma ArrayGives(field: FieldDef, level: nat, expr: Expr, scope: Scope, wires: seq<Value>, read: seq<Value>)
    requires level > 0 && Eval(expr, scope) == Some(List(wires))
    requires EvalEach(ItemRead(field, level - 1), wires, scope["array" := List(wires)]) == Some(read)
    requires EvalEach(ItemRead(field, level - 1), wires, scope) == Some(read)
    requires LengthAt(field.lengths, level - 1).Some? ==> LengthAt(field.lengths, level - 1).value == |wires|
    requires field.bytes && level == 1 ==> AreBytes(read)
    ensures Eval(DecodeAt(field, level, expr), scope) == Some(List(read))
  {
    var body := ItemRead(field, level - 1);
    if LengthAt(field.lengths, level - 1).Some? {
      SizedReads(expr, body, scope, wires, read);
    } else {
      CastGives(expr, scope, wires);
      ListGives(AsList(expr), body, scope, wires, read);
      if field.bytes && level == 1 {
        BytesRead(Mapped(AsList(expr), body), scope, read);
      }
    }
  }

  lemma CastGives(of: Expr, scope: Scope, wires: seq<Value>)
    requires Eval(of, scope) == Some(List(wires))
    ensures Eval(AsList(of), scope) == Some(List(wires))
  {
  }

  lemma {:induction false} ItemsReadTheirJson(field: FieldDef, level: nat, items: seq<Value>, scope: Scope)
    requires Readable(field) && level < field.depth && Codable(Slot(field, level, OfBase(field.base)))
    requires AreAll(Slot(field, level, OfBase(field.base)), items)
    ensures EvalEach(ItemRead(field, level), WireAll(Slot(field, level, OfBase(field.base)), items), scope)
         == Some(SettledAll(Slot(field, level, OfBase(field.base)), items))
    decreases field.base, level, 3, |items|
  {
    if items != [] {
      var t, optional := Bare(field, level, OfBase(field.base)), IsMarked(field.nullable, level);
      BareIsNoOption(field, level);
      assert Slot(field, level, OfBase(field.base)) == MaybeOpt(optional, t);
      var inner := scope["e" := Wire(MaybeOpt(optional, t), items[0])];
      if Is(t, items[0]) {
        WireIsNull(t, items[0]);
        ReadsItsJson(field, level, Var("e"), inner, items[0]);
      }
      OptionReads(optional, t, Var("e"), DecodeAt(field, level, Var("e")), inner, items[0]);
      ItemsReadTheirJson(field, level, items[1..], scope);
    }
  }

  lemma {:induction false} FieldReadsItsJson(field: FieldDef, expr: Expr, scope: Scope, v: Value)
    requires Readable(field) && Codable(Whole(field)) && Is(Whole(field), v)
    requires Eval(expr, scope) == Some(Wire(Whole(field), v))
    ensures Eval(DecodeField(field, expr), scope) == Some(Settled(Whole(field), v))
    decreases field.base, field.depth, 4
  {
    var t := Bare(field, field.depth, OfBase(field.base));
    BareIsNoOption(field, field.depth);
    assert Whole(field) == MaybeOpt(IsOptional(field), t);
    if Is(t, v) {
      WireIsNull(t, v);
      ReadsItsJson(field, field.depth, expr, scope, v);
    }
    OptionReads(IsOptional(field), t, expr, DecodeAt(field, field.depth, expr), scope, v);
  }

  /** `field` reads `v` from its JSON below its arrays. */
  ghost predicate BaseReads(field: FieldDef, expr: Expr, scope: Scope, v: Value) {
    Is(OfBase(field.base), v) && Eval(DecodeAt(field, 0, expr), scope) == Some(Settled(OfBase(field.base), v))
  }

  lemma {:induction false} BaseReadsItsJson(field: FieldDef, expr: Expr, scope: Scope, v: Value)
    requires ReadableBase(field.base) && Codable(OfBase(field.base)) && !field.base.Sibling?
    requires Is(OfBase(field.base), v) && Eval(expr, scope) == Some(Wire(OfBase(field.base), v))
    ensures BaseReads(field, expr, scope, v)
    decreases field.base, 0, 1
  {
    match field.base
    case Plain(scalar) => ScalarReads(scalar, expr, scope, v);
    case Tuple(elements) => TupleReadsItsJson(field, elements, expr, scope, v);
    case Range(kind, bound) => RangeReadsItsJson(field, kind, bound, expr, scope, v);
    case ResultOf(ok, err) => ResultReadsItsJson(field, ok, err, expr, scope, v);
    case MapOf(key, value) => MapReadsItsJson(field, key, value, expr, scope, v);
    case TypeParam(_) =>
  }

  lemma ScalarReads(scalar: Scalar, expr: Expr, scope: Scope, v: Value)
    requires IsKeyScalar(scalar) && IsScalar(scalar, v) && Eval(expr, scope) == Some(v)
    ensures Eval(DecodeScalar(scalar, expr), scope) == Some(v)
  {
    if IsInteger(scalar) {
      HeldGives(scalar, Unary(CastInt, expr), scope, v);
    }
  }

  lemma {:induction false} TupleReadsItsJson(field: FieldDef, elements: seq<FieldDef>, expr: Expr, scope: Scope,
      v: Value)
    requires field.base == Tuple(elements)
    requires AllReadable(elements) && AllCodable(Wholes(elements)) && Is(Group(Wholes(elements)), v)
    requires Eval(expr, scope) == Some(Wire(Group(Wholes(elements)), v))
    ensures BaseReads(field, expr, scope, v)
    decreases elements, 1
  {
    if elements != [] {
      var wires := WireEach(Wholes(elements), v.parts);
      WiresEachCount(Wholes(elements), v.parts);
      SameCount(elements, v.parts);
      assert v.parts[0..] == v.parts && wires[0..] == wires;
      ElementsReadTheirJson(elements, 0, scope["tuple" := List(wires)], v.parts, wires);
      TupleGives(expr, DecodeElements(elements, 0), scope, wires, SettledEach(Wholes(elements), v.parts));
    }
  }

  lemma {:induction false} SameCount(elements: seq<FieldDef>, parts: seq<Value>)
    requires AreEach(Wholes(elements), parts)
    ensures |elements| == |parts|
  {
    if elements != [] {
      assert Wholes(elements)[1..] == Wholes(elements[1..]);
      SameCount(elements[1..], parts[1..]);
    }
  }

  lemma TupleGives(of: Expr, parts: seq<Expr>, scope: Scope, wires: seq<Value>, read: seq<Value>)
    requires Eval(of, scope) == Some(List(wires)) && EvalAll(parts, scope["tuple" := List(wires)]) == Some(read)
    ensures Eval(Sized(AsList(of), "tuple", |wires|, Built(RecordShape, parts)), scope) == Some(Record(read))
  {
  }

  lemma {:induction false} ElementsReadTheirJson(elements: seq<FieldDef>, index: nat, scope: Scope, parts: seq<Value>,
      wires: seq<Value>)
    requires AllReadable(elements) && AllCodable(Wholes(elements))
    requires "tuple" in scope && scope["tuple"] == List(wires)
    requires index <= |parts| && index <= |wires| && AreEach(Wholes(elements), parts[index..])
    requires wires[index..] == WireEach(Wholes(elements), parts[index..])
    ensures EvalAll(DecodeElements(elements, index), scope) == Some(SettledEach(Wholes(elements), parts[index..]))
    decreases elements, 0
  {
    if elements != [] {
      assert parts[index..][0] == parts[index] && parts[index..][1..] == parts[index + 1..];
      assert wires[index..][0] == wires[index] && wires[index..][1..] == wires[index + 1..];
      assert Wholes(elements)[1..] == Wholes(elements[1..]);
      FieldReadsItsJson(elements[0], At(Var("tuple"), index), scope, parts[index]);
      ElementsReadTheirJson(elements[1..], index + 1, scope, parts, wires);
    }
  }

  lemma {:induction false} RangeReadsItsJson(field: FieldDef, kind: RangeKind, bound: FieldDef, expr: Expr,
      scope: Scope, v: Value)
    requires field.base == Range(kind, bound)
    requires Readable(bound) && Codable(Whole(bound)) && Is(Bounds(kind, Whole(bound)), v)
    requires Eval(expr, scope) == Some(Wire(Bounds(kind, Whole(bound)), v))
    ensures BaseReads(field, expr, scope, v)
    decreases bound, |KindLabels(kind)| + 1
  {
    var labels, wires := KindLabels(kind), WireAll(Whole(bound), v.bounds);
    WiresCount(Whole(bound), v.bounds);
    assert v.bounds[0..] == v.bounds && labels[0..] == labels && wires[0..] == wires;
    BoundsReadTheirJson(kind, bound, 0, scope["range" := Map(Zipped(labels, wires))], v.bounds, wires);
    RangeGives(expr, labels, DecodeBounds(bound, labels), scope, wires, SettledAll(Whole(bound), v.bounds));
  }

  lemma RangeGives(of: Expr, labels: seq<string>, parts: seq<Expr>, scope: Scope, wires: seq<Value>, read: seq<Value>)
    requires Eval(of, scope) == Some(Map(Zipped(labels, wires)))
    requires EvalAll(parts, scope["range" := Map(Zipped(labels, wires))]) == Some(read)
    ensures Eval(KeysIn(AsObject(of), labels, Built(LabelledShape(labels), parts)), scope)
      == Some(Labelled(labels, read))
  {
    ZippedKeys(labels, wires, labels);
  }

  lemma {:induction false} BoundsReadTheirJson(kind: RangeKind, bound: FieldDef, index: nat, scope: Scope,
      bounds: seq<Value>, wires: seq<Value>)
    requires Readable(bound) && Codable(Whole(bound))
    requires |bounds| == |wires| == |KindLabels(kind)| && index <= |bounds| && AreAll(Whole(bound), bounds[index..])
    requires wires[index..] == WireAll(Whole(bound), bounds[index..])
    requires "range" in scope && scope["range"] == Map(Zipped(KindLabels(kind), wires))
    ensures EvalAll(DecodeBounds(bound, KindLabels(kind)[index..]), scope)
      == Some(SettledAll(Whole(bound), bounds[index..]))
    decreases bound, |KindLabels(kind)| - index
  {
    if index < |bounds| {
      var labels := KindLabels(kind);
      assert labels[index..][0] == labels[index] && labels[index..][1..] == labels[index + 1..];
      assert bounds[index..][0] == bounds[index] && bounds[index..][1..] == bounds[index + 1..];
      assert wires[index..][0] == wires[index] && wires[index..][1..] == wires[index + 1..];
      LabelsAreApart(kind, index);
      ZippedAt(labels, wires, index);
      FieldReadsItsJson(bound, Under(Var("range"), labels[index]), scope, bounds[index]);
      BoundsReadTheirJson(kind, bound, index + 1, scope, bounds, wires);
    }
  }

  function ResultRead(ok: FieldDef, err: FieldDef, expr: Expr): Expr {
    ArmRead(AsObject(expr), IsUnit(ok), IsUnit(err), DecodeField(ok, Under(Var("result"), "Ok")),
      DecodeField(err, Under(Var("result"), "Err")))
  }

  lemma {:induction false} ResultReadsItsJson(field: FieldDef, ok: FieldDef, err: FieldDef, expr: Expr, scope: Scope,
      v: Value)
    requires field.base == ResultOf(ok, err)
    requires Readable(ok) && Codable(Whole(ok)) && Readable(err) && Codable(Whole(err))
      && Is(Either(Whole(ok), Whole(err)), v)
    requires Eval(expr, scope) == Some(Wire(Either(Whole(ok), Whole(err)), v))
    ensures BaseReads(field, expr, scope, v)
    decreases field.base, 0, 0
  {
    ResultIsRead(ok, err, if v.arm == "Ok" then ok else err, expr, scope, v);
    assert DecodeAt(field, 0, expr) == ResultRead(ok, err, expr);
  }

  lemma {:induction false} ResultIsRead(ok: FieldDef, err: FieldDef, arm: FieldDef, expr: Expr, scope: Scope, v: Value)
    requires v.Arm? && (v.arm == "Ok" || v.arm == "Err") && arm == if v.arm == "Ok" then ok else err
    requires Readable(arm) && Codable(Whole(arm)) && Is(Whole(arm), v.held)
    requires Eval(expr, scope) == Some(Map([Entry(Text(v.arm), Wire(Whole(arm), v.held))]))
    ensures Eval(ResultRead(ok, err, expr), scope) == Some(Arm(v.arm, Settled(Whole(arm), v.held)))
    decreases arm, 1
  {
    ArmReadsItsJson(v.arm, arm, scope, v.held);
    ArmReadGives(expr, IsUnit(ok), IsUnit(err), DecodeField(ok, Under(Var("result"), "Ok")),
      DecodeField(err, Under(Var("result"), "Err")),
      scope, v.arm, Wire(Whole(arm), v.held), Settled(Whole(arm), v.held));
  }

  lemma {:induction false} ArmReadsItsJson(name: string, arm: FieldDef, scope: Scope, v: Value)
    requires Readable(arm) && Codable(Whole(arm)) && Is(Whole(arm), v)
    ensures var wire := Wire(Whole(arm), v);
      var inner := scope["result" := Map([Entry(Text(name), wire)])];
      if IsUnit(arm) then wire == Null && Settled(Whole(arm), v) == UnitValue
      else Eval(DecodeField(arm, Under(Var("result"), name)), inner) == Some(Settled(Whole(arm), v))
    decreases arm, 0
  {
    if IsUnit(arm) {
      UnitIsUnit(arm);
    } else {
      var wire := Wire(Whole(arm), v);
      var inner := scope["result" := Map([Entry(Text(name), wire)])];
      assert Eval(Under(Var("result"), name), inner) == Some(wire);
      FieldReadsItsJson(arm, Under(Var("result"), name), inner, v);
    }
  }

  lemma ArmReadGives(of: Expr, okIsUnit: bool, errIsUnit: bool, ok: Expr, err: Expr, scope: Scope, arm: string,
      wire: Value, read: Value)
    requires arm == "Ok" || arm == "Err"
    requires Eval(of, scope) == Some(Map([Entry(Text(arm), wire)]))
    requires var isUnit := if arm == "Ok" then okIsUnit else errIsUnit;
      if isUnit then wire == Null && read == UnitValue
      else Eval(if arm == "Ok" then ok else err, scope["result" := Map([Entry(Text(arm), wire)])]) == Some(read)
    ensures Eval(ArmRead(AsObject(of), okIsUnit, errIsUnit, ok, err), scope) == Some(Arm(arm, read))
  {
    assert Eval(AsObject(of), scope) == Some(Map([Entry(Text(arm), wire)]));
    assert "Ok" != "Err";
  }

  function EntryRead(key: FieldDef, value: FieldDef): EntryBody {
    EntryBody(DecodeKey(key, Unary(KeyOfEntry, Var("e"))), DecodeField(value, Unary(ValueOfEntry, Var("e"))))
  }

  lemma {:induction false} SettledKeysDiffer(key: Nested, value: Nested, pairs: seq<Pair>)
    requires AreEntries(key, value, pairs)
    ensures |SettledEntries(key, value, pairs)| == |pairs|
    ensures forall i :: 0 <= i < |pairs| ==> SettledEntries(key, value, pairs)[i].key == pairs[i].key
  {
    if pairs != [] {
      SettledKeysDiffer(key, value, pairs[1..]);
    }
  }

  lemma {:induction false} MapReadsItsJson(field: FieldDef, key: FieldDef, value: FieldDef, expr: Expr, scope: Scope,
      v: Value)
    requires field.base == MapOf(key, value)
    requires Readable(value) && IsKeyType(Whole(key)) && Codable(Whole(value))
      && Is(Entries(Whole(key), Whole(value)), v)
    requires Eval(expr, scope) == Some(Wire(Entries(Whole(key), Whole(value)), v))
    ensures BaseReads(field, expr, scope, v)
    decreases value, |v.pairs| + 1
  {
    var wires, read := WireEntries(Whole(key), Whole(value), v.pairs),
      SettledEntries(Whole(key), Whole(value), v.pairs);
    EntriesReadTheirJson(key, value, v.pairs, scope);
    WireKeysDiffer(Whole(key), Whole(value), v.pairs);
    SettledKeysDiffer(Whole(key), Whole(value), v.pairs);
    ObjectGives(expr, scope, wires);
    MapOfEntries(AsObject(expr), EntryRead(key, value), scope, wires, read);
  }

  lemma ObjectGives(of: Expr, scope: Scope, pairs: seq<Pair>)
    requires Eval(of, scope) == Some(Map(pairs)) && AreTextKeys(pairs)
    ensures Eval(AsObject(of), scope) == Some(Map(pairs))
  {
  }

  lemma {:induction false} EntriesReadTheirJson(key: FieldDef, value: FieldDef, pairs: seq<Pair>, scope: Scope)
    requires Readable(value) && IsKeyType(Whole(key)) && Codable(Whole(value))
      && AreEntries(Whole(key), Whole(value), pairs)
    ensures EvalPairs(EntryRead(key, value), WireEntries(Whole(key), Whole(value), pairs), scope)
         == Some(SettledEntries(Whole(key), Whole(value), pairs))
    decreases value, |pairs|
  {
    if pairs != [] {
      var k, t := Whole(key), Whole(value);
      var wire := Entry(Text(KeyText(pairs[0].key)), Wire(t, pairs[0].value));
      var inner := scope["e" := MapEntry(wire)];
      KeyRead(key, Unary(KeyOfEntry, Var("e")), inner, pairs[0].key);
      FieldReadsItsJson(value, Unary(ValueOfEntry, Var("e")), inner, pairs[0].value);
      EntriesReadTheirJson(key, value, pairs[1..], scope);
      PairsGive(EntryRead(key, value), wire, WireEntries(k, t, pairs[1..]), scope, pairs[0].key,
        Settled(t, pairs[0].value), SettledEntries(k, t, pairs[1..]));
    }
  }

  lemma PairsGive(entry: EntryBody, first: Pair, rest: seq<Pair>, scope: Scope, key: Value, value: Value,
      more: seq<Pair>)
    requires Eval(entry.key, scope["e" := MapEntry(first)]) == Some(key)
    requires Eval(entry.value, scope["e" := MapEntry(first)]) == Some(value)
    requires EvalPairs(entry, rest, scope) == Some(more)
    ensures EvalPairs(entry, [first] + rest, scope) == Some([Entry(key, value)] + more)
  {
    assert ([first] + rest)[1..] == rest;
  }
}
