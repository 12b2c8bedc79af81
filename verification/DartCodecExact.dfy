/** When reading undoes writing, and what a read can give: one value alone is not read back, a `()`
    under an `Option`, and nothing that is not of the type is ever read. */
module DartCodecExact {
  import opened Wrappers
  import opened Levels
  import opened Integers
  import opened DartCodec
  import opened DartMaps
  import opened DartCodecMeaning
  import opened DartCodecReads

  // ----- the round trip -----

  /** No `Option` in `v` holds a `()`. */
  predicate HoldsNoOptionalUnit(t: Nested, v: Value)
    requires Is(t, v)
    decreases t, 1
  {
    match t
    case Leaf(_) => true
    case Group(elements) => EachHoldsNone(elements, v.parts)
    case Bounds(_, bound) => AllHoldNone(bound, v.bounds)
    case Either(ok, err) => if v.arm == "Ok" then HoldsNoOptionalUnit(ok, v.held) else HoldsNoOptionalUnit(err, v.held)
    case Entries(key, value) => EntriesHoldNone(key, value, v.pairs)
    case Listed(item, _, _) => AllHoldNone(item, v.items)
    case Optional(held) => v == Null || (held != Group([]) && HoldsNoOptionalUnit(held, v))
  }

  predicate EachHoldsNone(ts: seq<Nested>, vs: seq<Value>)
    requires AreEach(ts, vs)
    decreases ts, 0
  {
    ts == [] || (HoldsNoOptionalUnit(ts[0], vs[0]) && EachHoldsNone(ts[1..], vs[1..]))
  }

  predicate AllHoldNone(t: Nested, vs: seq<Value>)
    requires AreAll(t, vs)
    decreases t, 2, |vs|
  {
    vs == [] || (HoldsNoOptionalUnit(t, vs[0]) && AllHoldNone(t, vs[1..]))
  }

  predicate EntriesHoldNone(key: Nested, value: Nested, pairs: seq<Pair>)
    requires AreEntries(key, value, pairs)
    decreases value, 2, |pairs|
  {
    pairs == [] || (HoldsNoOptionalUnit(value, pairs[0].value) && EntriesHoldNone(key, value, pairs[1..]))
  }

  lemma {:induction false} SettledWhereNoneIsHeld(t: Nested, v: Value)
    requires Is(t, v)
    ensures Settled(t, v) == v <==> HoldsNoOptionalUnit(t, v)
    decreases t, 1
  {
    match t
    case Leaf(_) =>
    case Group(elements) => EachSettled(elements, v.parts);
    case Bounds(_, bound) => AllSettled(bound, v.bounds);
    case Either(ok, err) =>
      if v.arm == "Ok" {
        SettledWhereNoneIsHeld(ok, v.held);
      } else {
        SettledWhereNoneIsHeld(err, v.held);
      }
    case Entries(key, value) => EntriesSettled(key, value, v.pairs);
    case Listed(item, _, _) => AllSettled(item, v.items);
    case Optional(held) =>
      if v != Null && held != Group([]) {
        SettledWhereNoneIsHeld(held, v);
      }
  }

  lemma {:induction false} EachSettled(ts: seq<Nested>, vs: seq<Value>)
    requires AreEach(ts, vs)
    ensures SettledEach(ts, vs) == vs <==> EachHoldsNone(ts, vs)
    decreases ts, 0
  {
    if ts != [] {
      SettledWhereNoneIsHeld(ts[0], vs[0]);
      EachSettled(ts[1..], vs[1..]);
      FirstAndRest(Settled(ts[0], vs[0]), SettledEach(ts[1..], vs[1..]), vs);
    }
  }

  lemma FirstAndRest<T>(first: T, rest: seq<T>, all: seq<T>)
    requires all != []
    ensures [first] + rest == all <==> first == all[0] && rest == all[1..]
  {
    if [first] + rest == all {
      assert ([first] + rest)[1..] == rest;
    }
  }

  lemma {:induction false} AllSettled(t: Nested, vs: seq<Value>)
    requires AreAll(t, vs)
    ensures SettledAll(t, vs) == vs <==> AllHoldNone(t, vs)
    decreases t, 2, |vs|
  {
    if vs != [] {
      SettledWhereNoneIsHeld(t, vs[0]);
      AllSettled(t, vs[1..]);
      FirstAndRest(Settled(t, vs[0]), SettledAll(t, vs[1..]), vs);
    }
  }

  lemma {:induction false} EntriesSettled(key: Nested, value: Nested, pairs: seq<Pair>)
    requires AreEntries(key, value, pairs)
    ensures SettledEntries(key, value, pairs) == pairs <==> EntriesHoldNone(key, value, pairs)
    decreases value, 2, |pairs|
  {
    if pairs != [] {
      SettledWhereNoneIsHeld(value, pairs[0].value);
      EntriesSettled(key, value, pairs[1..]);
      FirstAndRest(Entry(pairs[0].key, Settled(value, pairs[0].value)), SettledEntries(key, value, pairs[1..]), pairs);
    }
  }

  /** Every value of the type is written, and the read of what was written gives it back where no
      `Option` in it holds a `()`, and only there. */
  lemma ReadUndoesWrite(field: FieldDef, promoted: bool, v: Value)
    requires Readable(field) && Codable(Whole(field)) && Is(Whole(field), v)
    ensures var written := Eval(EncodeField(field, Var("value"), promoted), map["value" := v]);
      && written.Some?
      && (Eval(DecodeField(field, Var("json")), map["json" := written.value]) == Some(v)
        <==> HoldsNoOptionalUnit(Whole(field), v))
  {
    FieldWritesItsJson(field, Var("value"), promoted, map["value" := v], v);
    var wire := Wire(Whole(field), v);
    FieldReadsItsJson(field, Var("json"), map["json" := wire], v);
    SettledWhereNoneIsHeld(Whole(field), v);
  }

  /** The two values of an `Option<()>` are one in JSON: what was `Some` is read as `None`. */
  lemma SomeUnitIsReadAsNone()
    ensures var field, t := FieldDef("unit", Tuple([]), 0, [Mark(0, None)], [], [], false), Optional(Group([]));
      && Whole(field) == t
      && Is(t, UnitValue) && Wire(t, UnitValue) == Wire(t, Null)
      && Eval(DecodeField(field, Var("json")), map["json" := Wire(t, UnitValue)]) == Some(Null)
  {
    var field := FieldDef("unit", Tuple([]), 0, [Mark(0, None)], [], [], false);
    assert field.nullable[0].level == 0;
  }

  // ----- only values of the type -----

  lemma OptionGives(optional: bool, t: Nested, expr: Expr, held: Expr, scope: Scope)
    requires !t.Optional? && Eval(MaybeNull(optional, expr, held), scope).Some?
    requires Eval(held, scope).Some? ==> Is(t, Eval(held, scope).value)
    ensures Is(MaybeOpt(optional, t), Eval(MaybeNull(optional, expr, held), scope).value)
  {
  }

  lemma ListGave(of: Expr, body: Expr, scope: Scope) returns (items: seq<Value>, read: seq<Value>)
    requires Eval(Mapped(of, body), scope).Some?
    ensures EvalEach(body, items, scope) == Some(read) && Eval(Mapped(of, body), scope) == Some(List(read))
    ensures Eval(of, scope) == Some(List(items))
  {
    items := Eval(of, scope).value.items;
    read := EvalEach(body, items, scope).value;
  }

  lemma SizedGave(of: Expr, binder: string, length: nat, body: Expr, scope: Scope) returns (items: seq<Value>)
    requires Eval(Sized(of, binder, length, body), scope).Some?
    ensures |items| == length && Eval(of, scope) == Some(List(items))
    ensures Eval(Sized(of, binder, length, body), scope) == Eval(body, scope[binder := List(items)])
  {
    items := Eval(of, scope).value.items;
  }

  lemma BytesGave(of: Expr, scope: Scope)
    requires Eval(Unary(ToBytes, of), scope).Some?
    ensures Eval(of, scope) == Eval(Unary(ToBytes, of), scope)
  {
  }

  /** What `field`'s read at `level` gives, of whatever it reads, is of the type. */
  lemma {:induction false} ReadIsOfItsType(field: FieldDef, level: nat, expr: Expr, scope: Scope)
    requires Readable(field) && level <= field.depth && Codable(Bare(field, level, OfBase(field.base)))
    ensures var read := Eval(DecodeAt(field, level, expr), scope); read.Some? ==>
      Is(Bare(field, level, OfBase(field.base)), read.value)
    decreases field.base, level, 2
  {
    if Eval(DecodeAt(field, level, expr), scope).Some? {
      if level > 0 {
        ArrayIsOfItsType(field, level, expr, scope);
      } else if field.base.Sibling? {
        CollectionIsOfItsType(field, expr, scope);
      } else {
        BaseIsOfItsType(field, expr, scope);
      }
    }
  }

  lemma {:induction false} CollectionIsOfItsType(field: FieldDef, expr: Expr, scope: Scope)
    requires Readable(field) && field.base.Sibling? && Codable(OfBase(field.base))
    ensures BaseGives(field, expr, scope)
    decreases field.base, 0, 1
  {
    var combined := CollectionRead(field, field.base.arguments[0], expr);
    ReadIsOfItsType(combined, combined.depth - field.depth, expr, scope);
  }

  lemma {:induction false} ArrayIsOfItsType(field: FieldDef, level: nat, expr: Expr, scope: Scope)
    requires Readable(field) && 0 < level <= field.depth && Codable(Bare(field, level, OfBase(field.base)))
    requires Eval(DecodeAt(field, level, expr), scope).Some?
    ensures Is(Bare(field, level, OfBase(field.base)), Eval(DecodeAt(field, level, expr), scope).value)
    decreases field.base, level, 1
  {
    var items, read, inner := ArrayGave(field, level, expr, scope);
    ItemsAreOfTheirType(field, level - 1, items, inner);
  }

  /** What an array's read gave is what its items' reads did, of an array of its length. */
  lemma ArrayGave(field: FieldDef, level: nat, expr: Expr, scope: Scope) returns (items: seq<Value>, read: seq<Value>,
      inner: Scope)
    requires level > 0 && Eval(DecodeAt(field, level, expr), scope).Some?
    ensures Eval(DecodeAt(field, level, expr), scope) == Some(List(read))
    ensures EvalEach(ItemRead(field, level - 1), items, inner) == Some(read)
    ensures LengthAt(field.lengths, level - 1).Some? ==> LengthAt(field.lengths, level - 1).value == |items|
  {
    var body, length := ItemRead(field, level - 1), LengthAt(field.lengths, level - 1);
    if length.Some? {
      items := SizedGave(AsList(expr), "array", length.value, Mapped(Var("array"), body), scope);
      inner := scope["array" := List(items)];
      var listed;
      listed, read := ListGave(Var("array"), body, inner);
    } else {
      inner := scope;
      if field.bytes && level == 1 {
        BytesGave(Mapped(AsList(expr), body), scope);
      }
      items, read := ListGave(AsList(expr), body, scope);
    }
  }

  lemma {:induction false} ItemsAreOfTheirType(field: FieldDef, level: nat, items: seq<Value>, scope: Scope)
    requires Readable(field) && level < field.depth && Codable(Slot(field, level, OfBase(field.base)))
    requires EvalEach(ItemRead(field, level), items, scope).Some?
    ensures AreAll(Slot(field, level, OfBase(field.base)), EvalEach(ItemRead(field, level), items, scope).value)
    ensures |EvalEach(ItemRead(field, level), items, scope).value| == |items|
    decreases field.base, level, 3, |items|
  {
    if items != [] {
      var t, optional := Bare(field, level, OfBase(field.base)), IsMarked(field.nullable, level);
      var inner, held := scope["e" := items[0]], DecodeAt(field, level, Var("e"));
      BareIsNoOption(field, level);
      assert Slot(field, level, OfBase(field.base)) == MaybeOpt(optional, t);
      ReadIsOfItsType(field, level, Var("e"), inner);
      OptionGives(optional, t, Var("e"), held, inner);
      ItemsAreOfTheirType(field, level, items[1..], scope);
    }
  }

  lemma {:induction false} FieldIsOfItsType(field: FieldDef, expr: Expr, scope: Scope)
    requires Readable(field) && Codable(Whole(field)) && Eval(DecodeField(field, expr), scope).Some?
    ensures Is(Whole(field), Eval(DecodeField(field, expr), scope).value)
    decreases field.base, field.depth, 4
  {
    var t, held := Bare(field, field.depth, OfBase(field.base)), DecodeAt(field, field.depth, expr);
    BareIsNoOption(field, field.depth);
    assert Whole(field) == MaybeOpt(IsOptional(field), t);
    ReadIsOfItsType(field, field.depth, expr, scope);
    OptionGives(IsOptional(field), t, expr, held, scope);
  }

  /** What `field` reads below its arrays is of its type. */
  ghost predicate BaseGives(field: FieldDef, expr: Expr, scope: Scope) {
    Eval(DecodeAt(field, 0, expr), scope).Some? ==> Is(OfBase(field.base), Eval(DecodeAt(field, 0, expr), scope).value)
  }

  lemma {:induction false} BaseIsOfItsType(field: FieldDef, expr: Expr, scope: Scope)
    requires ReadableBase(field.base) && Codable(OfBase(field.base)) && !field.base.Sibling?
    requires Eval(DecodeAt(field, 0, expr), scope).Some?
    ensures BaseGives(field, expr, scope)
    decreases field.base, 0, 1
  {
    match field.base
    case Plain(scalar) => ScalarGives(scalar, expr, scope);
    case Tuple(elements) => TupleIsOfItsType(field, elements, expr, scope);
    case Range(kind, bound) => RangeIsOfItsType(field, kind, bound, expr, scope);
    case ResultOf(ok, err) => ResultIsOfItsType(field, ok, err, expr, scope);
    case MapOf(key, value) => MapIsOfItsType(field, key, value, expr, scope);
    case TypeParam(_) =>
  }

  lemma ScalarGives(scalar: Scalar, expr: Expr, scope: Scope)
    requires IsKeyScalar(scalar) && Eval(DecodeScalar(scalar, expr), scope).Some?
    ensures IsScalar(scalar, Eval(DecodeScalar(scalar, expr), scope).value)
  {
    if IsInteger(scalar) {
      HeldIsScalar(scalar, Unary(CastInt, expr), scope);
    }
  }

  lemma {:induction false} TupleIsOfItsType(field: FieldDef, elements: seq<FieldDef>, expr: Expr, scope: Scope)
    requires field.base == Tuple(elements) && AllReadable(elements) && AllCodable(Wholes(elements))
    requires Eval(DecodeAt(field, 0, expr), scope).Some?
    ensures BaseGives(field, expr, scope)
    decreases elements, 1
  {
    if elements != [] {
      var parts := DecodeElements(elements, 0);
      var items := SizedGave(AsList(expr), "tuple", |elements|, Built(RecordShape, parts), scope);
      var inner := scope["tuple" := List(items)];
      BuiltGave(RecordShape, parts, inner);
      ElementsAreOfTheirTypes(elements, 0, inner);
    }
  }

  lemma BuiltGave(shape: Shape, parts: seq<Expr>, scope: Scope)
    requires Eval(Built(shape, parts), scope).Some?
    ensures EvalAll(parts, scope).Some?
      && Eval(Built(shape, parts), scope) == Some(Shaped(shape, EvalAll(parts, scope).value))
  {
  }

  lemma {:induction false} ElementsAreOfTheirTypes(elements: seq<FieldDef>, index: nat, scope: Scope)
    requires AllReadable(elements) && AllCodable(Wholes(elements))
      && EvalAll(DecodeElements(elements, index), scope).Some?
    ensures AreEach(Wholes(elements), EvalAll(DecodeElements(elements, index), scope).value)
    decreases elements, 0
  {
    if elements != [] {
      assert Wholes(elements)[1..] == Wholes(elements[1..]);
      FieldIsOfItsType(elements[0], At(Var("tuple"), index), scope);
      ElementsAreOfTheirTypes(elements[1..], index + 1, scope);
    }
  }

  lemma {:induction false} RangeIsOfItsType(field: FieldDef, kind: RangeKind, bound: FieldDef, expr: Expr, scope: Scope)
    requires field.base == Range(kind, bound) && Readable(bound) && Codable(Whole(bound))
    requires Eval(DecodeAt(field, 0, expr), scope).Some?
    ensures BaseGives(field, expr, scope)
    decreases bound, |KindLabels(kind)| + 1
  {
    var labels := KindLabels(kind);
    var parts := DecodeBounds(bound, labels);
    var inner := KeysInGave(AsObject(expr), labels, Built(LabelledShape(labels), parts), scope);
    BuiltGave(LabelledShape(labels), parts, inner);
    BoundsAreOfTheirType(bound, labels, inner);
  }

  lemma KeysInGave(of: Expr, keys: seq<string>, body: Expr, scope: Scope) returns (inner: Scope)
    requires Eval(KeysIn(of, keys, body), scope).Some?
    ensures Eval(KeysIn(of, keys, body), scope) == Eval(body, inner)
  {
    inner := scope["range" := Eval(of, scope).value];
  }

  lemma {:induction false} BoundsAreOfTheirType(bound: FieldDef, labels: seq<string>, scope: Scope)
    requires Readable(bound) && Codable(Whole(bound)) && EvalAll(DecodeBounds(bound, labels), scope).Some?
    ensures AreAll(Whole(bound), EvalAll(DecodeBounds(bound, labels), scope).value)
    ensures |EvalAll(DecodeBounds(bound, labels), scope).value| == |labels|
    decreases bound, |labels|
  {
    if labels != [] {
      FieldIsOfItsType(bound, Under(Var("range"), labels[0]), scope);
      BoundsAreOfTheirType(bound, labels[1..], scope);
    }
  }

  lemma {:induction false} ResultIsOfItsType(field: FieldDef, ok: FieldDef, err: FieldDef, expr: Expr, scope: Scope)
    requires field.base == ResultOf(ok, err)
    requires Readable(ok) && Codable(Whole(ok)) && Readable(err) && Codable(Whole(err))
    requires Eval(DecodeAt(field, 0, expr), scope).Some?
    ensures BaseGives(field, expr, scope)
    decreases field.base, 0, 0
  {
    var okRead, errRead := DecodeField(ok, Under(Var("result"), "Ok")), DecodeField(err, Under(Var("result"), "Err"));
    var inner := ArmGave(AsObject(expr), IsUnit(ok), IsUnit(err), okRead, errRead, scope);
    var read := Eval(DecodeAt(field, 0, expr), scope).value;
    if read.arm == "Ok" {
      if IsUnit(ok) { UnitIsUnit(ok); } else { FieldIsOfItsType(ok, Under(Var("result"), "Ok"), inner); }
    } else {
      if IsUnit(err) { UnitIsUnit(err); } else { FieldIsOfItsType(err, Under(Var("result"), "Err"), inner); }
    }
  }

  lemma ArmGave(of: Expr, okIsUnit: bool, errIsUnit: bool, ok: Expr, err: Expr, scope: Scope) returns (inner: Scope)
    requires Eval(ArmRead(of, okIsUnit, errIsUnit, ok, err), scope).Some?
    ensures var read := Eval(ArmRead(of, okIsUnit, errIsUnit, ok, err), scope).value;
      && read.Arm?
      && (read.arm == "Ok" || read.arm == "Err")
      && (read.arm == "Ok" ==> if okIsUnit then read.held == UnitValue else Eval(ok, inner) == Some(read.held))
      && (read.arm == "Err" ==> if errIsUnit then read.held == UnitValue else Eval(err, inner) == Some(read.held))
  {
    inner := scope["result" := Eval(of, scope).value];
    assert "Ok" != "Err";
  }

  lemma {:induction false} MapIsOfItsType(field: FieldDef, key: FieldDef, value: FieldDef, expr: Expr, scope: Scope)
    requires field.base == MapOf(key, value) && Readable(value) && IsKeyType(Whole(key)) && Codable(Whole(value))
    requires Eval(DecodeAt(field, 0, expr), scope).Some?
    ensures BaseGives(field, expr, scope)
    decreases value, |Eval(AsObject(expr), scope).value.pairs| + 1
  {
    var pairs := Eval(AsObject(expr), scope).value.pairs;
    var read := EvalPairs(EntryRead(key, value), pairs, scope);
    EntriesAreOfTheirTypes(key, value, pairs, scope);
    FromEntriesKeepsTypes(Whole(key), Whole(value), read.value);
  }

  lemma {:induction false} EntriesAreOfTheirTypes(key: FieldDef, value: FieldDef, pairs: seq<Pair>, scope: Scope)
    requires Readable(value) && IsKeyType(Whole(key)) && Codable(Whole(value)) && AreTextKeys(pairs)
    requires EvalPairs(EntryRead(key, value), pairs, scope).Some?
    ensures AreEntries(Whole(key), Whole(value), EvalPairs(EntryRead(key, value), pairs, scope).value)
    decreases value, |pairs|
  {
    if pairs != [] {
      var inner := scope["e" := MapEntry(pairs[0])];
      assert pairs[0].key.Text?;
      assert Eval(Unary(KeyOfEntry, Var("e")), inner) == Some(pairs[0].key);
      KeyReadInhabits(key, Unary(KeyOfEntry, Var("e")), inner);
      FieldIsOfItsType(value, Unary(ValueOfEntry, Var("e")), inner);
      EntriesAreOfTheirTypes(key, value, pairs[1..], scope);
    }
  }

  lemma {:induction false} PutKeepsTypes(key: Nested, value: Nested, pairs: seq<Pair>, pair: Pair)
    requires AreEntries(key, value, pairs) && IsMap(pairs) && IsKey(key, pair.key) && Is(value, pair.value)
    ensures AreEntries(key, value, Put(pairs, pair.key, pair.value)) && IsMap(Put(pairs, pair.key, pair.value))
    ensures forall i :: 0 <= i < |Put(pairs, pair.key, pair.value)| ==>
      var key := Put(pairs, pair.key, pair.value)[i].key;
      key == pair.key || exists j :: 0 <= j < |pairs| && pairs[j].key == key
  {
    if pairs != [] {
      var put := Put(pairs, pair.key, pair.value);
      if pairs[0].key != pair.key {
        PutKeepsTypes(key, value, pairs[1..], pair);
        var rest := Put(pairs[1..], pair.key, pair.value);
        assert put == [pairs[0]] + rest;
        forall i | 0 <= i < |rest| ensures rest[i].key != pairs[0].key {
          if j :| 0 <= j < |pairs[1..]| && pairs[1..][j].key == rest[i].key {
            assert pairs[j + 1] == pairs[1..][j];
          }
        }
        forall i | 0 <= i < |put|
          ensures put[i].key == pair.key || exists j :: 0 <= j < |pairs| && pairs[j].key == put[i].key
        {
          if i > 0 && put[i].key != pair.key {
            assert put[i] == rest[i - 1];
            var j :| 0 <= j < |pairs[1..]| && pairs[1..][j].key == rest[i - 1].key;
            assert pairs[j + 1] == pairs[1..][j];
          }
        }
      } else {
        assert put[1..] == pairs[1..];
      }
    }
  }

  lemma {:induction false} FromEntriesKeepsTypes(key: Nested, value: Nested, pairs: seq<Pair>)
    requires AreEntries(key, value, pairs)
    ensures AreEntries(key, value, FromEntries(pairs)) && IsMap(FromEntries(pairs))
  {
    if pairs != [] {
      var n := |pairs| - 1;
      EntriesSplit(key, value, pairs);
      FromEntriesKeepsTypes(key, value, pairs[..n]);
      PutKeepsTypes(key, value, FromEntries(pairs[..n]), pairs[n]);
    }
  }

  lemma {:induction false} EntriesSplit(key: Nested, value: Nested, pairs: seq<Pair>)
    requires pairs != [] && AreEntries(key, value, pairs)
    ensures AreEntries(key, value, pairs[..|pairs| - 1])
    ensures IsKey(key, pairs[|pairs| - 1].key) && Is(value, pairs[|pairs| - 1].value)
  {
    if |pairs| > 1 {
      EntriesSplit(key, value, pairs[1..]);
      assert pairs[..|pairs| - 1][1..] == pairs[1..][..|pairs| - 2];
    }
  }

  /** An array of another length than the one its level is written with is refused. */
  lemma AnotherLengthIsRefused(field: FieldDef, level: nat, expr: Expr, scope: Scope, items: seq<Value>)
    requires 0 < level && Eval(expr, scope) == Some(List(items))
    requires LengthAt(field.lengths, level - 1).Some? && LengthAt(field.lengths, level - 1).value != |items|
    ensures Eval(DecodeAt(field, level, expr), scope) == None
  {
  }

  /** And so are a tuple of another length, a range under another key, and a `Result` of no key or two. */
  lemma AnotherShapeIsRefused(field: FieldDef, expr: Expr, scope: Scope, json: Value)
    requires Eval(expr, scope) == Some(json)
    requires match field.base
      case Tuple(elements) => if elements == [] then json != Null else !json.List? || |json.items| != |elements|
      case Range(kind, _) => !json.Map? || !KeysAreIn(json.pairs, KindLabels(kind))
      case ResultOf(_, _) => !json.Map? || |json.pairs| != 1 || json.pairs[0].key !in {Text("Ok"), Text("Err")}
      case _ => false
    ensures Eval(DecodeAt(field, 0, expr), scope) == None
  {
    match field.base
    case Tuple(elements) =>
      if elements != [] {
        OtherLengthsAreRefused(expr, "tuple", |elements|, Built(RecordShape, DecodeElements(elements, 0)), scope);
      }
    case Range(kind, bound) =>
      OnlyAnObjectIsCast(expr, scope, json);
      OtherKeysAreRefused(AsObject(expr), KindLabels(kind),
        Built(LabelledShape(KindLabels(kind)), DecodeBounds(bound, KindLabels(kind))), scope);
    case ResultOf(ok, err) =>
      OnlyAnObjectIsCast(expr, scope, json);
      OtherArmsAreRefused(AsObject(expr), IsUnit(ok), IsUnit(err), DecodeField(ok, Under(Var("result"), "Ok")),
        DecodeField(err, Under(Var("result"), "Err")), scope);
    case _ =>
  }

  lemma OnlyAnObjectIsCast(expr: Expr, scope: Scope, json: Value)
    requires Eval(expr, scope) == Some(json)
    ensures Eval(AsObject(expr), scope) == if json.Map? && AreTextKeys(json.pairs) then Some(json) else None
  {
  }

  lemma OtherLengthsAreRefused(expr: Expr, binder: string, length: nat, body: Expr, scope: Scope)
    requires var v := Eval(expr, scope); v.Some? && v.value.List? ==> |v.value.items| != length
    ensures Eval(Sized(AsList(expr), binder, length, body), scope) == None
  {
  }

  lemma OtherKeysAreRefused(of: Expr, keys: seq<string>, body: Expr, scope: Scope)
    requires var v := Eval(of, scope); v.Some? ==> v.value.Map? && !KeysAreIn(v.value.pairs, keys)
    ensures Eval(KeysIn(of, keys, body), scope) == None
  {
  }

  lemma OtherArmsAreRefused(of: Expr, okIsUnit: bool, errIsUnit: bool, ok: Expr, err: Expr, scope: Scope)
    requires var v := Eval(of, scope); v.Some? ==>
      v.value.Map? && (|v.value.pairs| != 1 || v.value.pairs[0].key !in {Text("Ok"), Text("Err")})
    ensures Eval(ArmRead(of, okIsUnit, errIsUnit, ok, err), scope) == None
  {
  }
}
