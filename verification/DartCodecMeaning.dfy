/** What the emitted reads and writes do, for every type and value: a write makes the JSON the type's
    values are written as, a read of that JSON gives the value back, and a read that gives a value
    gives one of the type. */
module DartCodecMeaning {
  import opened Wrappers
  import opened Decimals
  import opened Integers
  import opened Levels
  import opened DartCodec
  import opened DartMaps
  import opened Texts

  // ----- the types, their values and their JSON -----

  predicate IsKeyType(t: Nested) {
    t.Leaf? && IsKeyScalar(t.scalar)
  }

  /** The types whose reads and writes are written here whole. */
  predicate Codable(t: Nested) {
    match t
    case Leaf(scalar) => IsKeyScalar(scalar)
    case Group(elements) => AllCodable(elements)
    case Bounds(_, bound) => Codable(bound)
    case Either(ok, err) => Codable(ok) && Codable(err)
    case Entries(key, value) => IsKeyType(key) && Codable(value)
    case Listed(item, _, _) => Codable(item)
    case Optional(held) => !held.Optional? && Codable(held)
    case Named(_, _) => false
    case Parameter(_) => false
  }

  predicate AllCodable(ts: seq<Nested>) {
    ts == [] || (Codable(ts[0]) && AllCodable(ts[1..]))
  }

  /** The emitted check lets a Dart `int` pass where it is an integer of the Rust type, and only there. */
  lemma HeldToTheType(scalar: Scalar, number: Expr, scope: Scope, n: int)
    requires Bits(scalar) > 0 && Eval(number, scope) == Some(Int(n)) && IsDartInt(n)
    ensures IsInteger(scalar)
    ensures Eval(HeldTo(scalar, number), scope) == if IsRustInt(scalar, n) then Some(Int(n)) else None
  {
    PowersOfTwo();
    HeldWithin(scalar, n);
    var (least, most) := IntegerRange(scalar);
    assert Eval(Unary(Within(least, most), number), scope) == if Holds(n, least, most) then Some(Int(n)) else None;
  }

  lemma HeldWithin(scalar: Scalar, n: int)
    requires Bits(scalar) > 0 && IsDartInt(n)
    ensures Holds(n, IntegerRange(scalar).0, IntegerRange(scalar).1) <==> IsRustInt(scalar, n)
  {
    PowersOfTwo();
  }

  /** A range is told by the bounds it has, its start ahead of its end. */
  lemma LabelsAreTheBounds(kind: RangeKind)
    ensures KindLabels(kind) == (if HasStart(kind) then ["start"] else []) + (if HasEnd(kind) then ["end"] else [])
  {
  }

  /** Every type but a float and what has none is a key's and a member's: an integer by its width. */
  lemma ScalarsAreTold(scalar: Scalar)
    ensures IsInteger(scalar) <==> Bits(scalar) > 0
    ensures IsKeyScalar(scalar) <==> Bits(scalar) > 0 || scalar.Boolean? || scalar.String? || scalar.Char?
  {
  }

  predicate IsScalar(scalar: Scalar, v: Value) {
    if IsInteger(scalar) then v.Int? && IsDartInt(v.number) && IsRustInt(scalar, v.number)
    else match scalar
      case Boolean => v.Bool?
      case String => v.Text?
      case Char => v.Text? && |v.text| == 1
      case _ => false
  }

  /** `v` is a value of type `t`. */
  predicate Is(t: Nested, v: Value)
    decreases t, 1
  {
    match t
    case Leaf(scalar) => IsScalar(scalar, v)
    case Group(elements) => v.Record? && AreEach(elements, v.parts)
    case Bounds(kind, bound) => v.Labelled? && v.labels == KindLabels(kind) && |v.bounds| == |KindLabels(kind)|
      && AreAll(bound, v.bounds)
    case Either(ok, err) => v.Arm? && ((v.arm == "Ok" && Is(ok, v.held)) || (v.arm == "Err" && Is(err, v.held)))
    case Entries(key, value) => v.Map? && IsMap(v.pairs) && AreEntries(key, value, v.pairs)
    case Listed(item, _, length) => v.List? && (length.Some? ==> |v.items| == length.value) && AreAll(item, v.items)
    case Optional(held) => v == Null || Is(held, v)
    case Named(_, _) => false
    case Parameter(_) => false
  }

  predicate AreEach(ts: seq<Nested>, vs: seq<Value>)
    decreases ts, 0
  {
    |ts| == |vs| && (ts == [] || (Is(ts[0], vs[0]) && AreEach(ts[1..], vs[1..])))
  }

  predicate AreAll(t: Nested, vs: seq<Value>)
    decreases t, 2, |vs|
  {
    vs == [] || (Is(t, vs[0]) && AreAll(t, vs[1..]))
  }

  predicate AreEntries(key: Nested, value: Nested, pairs: seq<Pair>)
    decreases value, 2, |pairs|
  {
    pairs == [] || (IsKey(key, pairs[0].key) && Is(value, pairs[0].value) && AreEntries(key, value, pairs[1..]))
  }

  predicate IsKey(key: Nested, v: Value) {
    key.Leaf? && IsScalar(key.scalar, v)
  }

  /** The text a map's key is written as. */
  function KeyText(v: Value): string {
    match v
    case Bool(truth) => if truth then "true" else "false"
    case Int(number) => IntText(number)
    case Text(text) => text
    case _ => ""
  }

  /** The JSON a value of `t` is written as. */
  function Wire(t: Nested, v: Value): Value
    requires Is(t, v)
    decreases t, 1
  {
    match t
    case Leaf(_) => v
    case Group(elements) => if elements == [] then Null else List(WireEach(elements, v.parts))
    case Bounds(kind, bound) => Map(Zipped(KindLabels(kind), WireAll(bound, v.bounds)))
    case Either(ok, err) => Map([Entry(Text(v.arm), if v.arm == "Ok" then Wire(ok, v.held) else Wire(err, v.held))])
    case Entries(key, value) => Map(WireEntries(key, value, v.pairs))
    case Listed(item, _, _) => List(WireAll(item, v.items))
    case Optional(held) => if v == Null then Null else Wire(held, v)
  }

  function WireEach(ts: seq<Nested>, vs: seq<Value>): seq<Value>
    requires AreEach(ts, vs)
    decreases ts, 0
  {
    if ts == [] then [] else [Wire(ts[0], vs[0])] + WireEach(ts[1..], vs[1..])
  }

  function WireAll(t: Nested, vs: seq<Value>): seq<Value>
    requires AreAll(t, vs)
    decreases t, 2, |vs|
  {
    if vs == [] then [] else [Wire(t, vs[0])] + WireAll(t, vs[1..])
  }

  function WireEntries(key: Nested, value: Nested, pairs: seq<Pair>): seq<Pair>
    requires AreEntries(key, value, pairs)
    decreases value, 2, |pairs|
  {
    if pairs == [] then []
    else [Entry(Text(KeyText(pairs[0].key)), Wire(value, pairs[0].value))] + WireEntries(key, value, pairs[1..])
  }

  /** `v` with each `()` an `Option` holds made the `null` it is written as. */
  function Settled(t: Nested, v: Value): Value
    requires Is(t, v)
    decreases t, 1
  {
    match t
    case Leaf(_) => v
    case Group(elements) => Record(SettledEach(elements, v.parts))
    case Bounds(kind, bound) => Labelled(v.labels, SettledAll(bound, v.bounds))
    case Either(ok, err) => Arm(v.arm, if v.arm == "Ok" then Settled(ok, v.held) else Settled(err, v.held))
    case Entries(key, value) => Map(SettledEntries(key, value, v.pairs))
    case Listed(item, _, _) => List(SettledAll(item, v.items))
    case Optional(held) => if v == Null || held == Group([]) then Null else Settled(held, v)
  }

  function SettledEach(ts: seq<Nested>, vs: seq<Value>): seq<Value>
    requires AreEach(ts, vs)
    decreases ts, 0
  {
    if ts == [] then [] else [Settled(ts[0], vs[0])] + SettledEach(ts[1..], vs[1..])
  }

  function SettledAll(t: Nested, vs: seq<Value>): seq<Value>
    requires AreAll(t, vs)
    decreases t, 2, |vs|
  {
    if vs == [] then [] else [Settled(t, vs[0])] + SettledAll(t, vs[1..])
  }

  function SettledEntries(key: Nested, value: Nested, pairs: seq<Pair>): seq<Pair>
    requires AreEntries(key, value, pairs)
    decreases value, 2, |pairs|
  {
    if pairs == [] then []
    else [Entry(pairs[0].key, Settled(value, pairs[0].value))] + SettledEntries(key, value, pairs[1..])
  }

  lemma UnitIsUnit(field: FieldDef)
    requires IsUnit(field)
    ensures Whole(field) == Group([])
  {
    assert !IsMarked(field.nullable, 0);
  }

  // ----- keys -----

  /** A key's text is the key's alone. */
  lemma KeyTextsDiffer(key: Nested, one: Value, other: Value)
    requires IsKeyType(key) && IsKey(key, one) && IsKey(key, other) && KeyText(one) == KeyText(other)
    ensures one == other
  {
    if one.Int? {
      IntReadsBack(one.number);
      IntReadsBack(other.number);
    }
  }

  lemma {:induction false} WireKeysDiffer(key: Nested, value: Nested, pairs: seq<Pair>)
    requires IsKeyType(key) && AreEntries(key, value, pairs) && IsMap(pairs)
    ensures var wire := WireEntries(key, value, pairs);
      && IsMap(wire)
      && |wire| == |pairs|
      && (forall i :: 0 <= i < |wire| ==> IsKey(key, pairs[i].key) && wire[i].key == Text(KeyText(pairs[i].key)))
  {
    if pairs != [] {
      WireKeysDiffer(key, value, pairs[1..]);
      var wire, rest := WireEntries(key, value, pairs), WireEntries(key, value, pairs[1..]);
      forall i | 0 <= i < |pairs|
        ensures IsKey(key, pairs[i].key) && wire[i].key == Text(KeyText(pairs[i].key))
      {
        assert i > 0 ==> pairs[i] == pairs[1..][i - 1] && wire[i] == rest[i - 1];
      }
      forall i, j | 0 <= i < j < |wire| ensures wire[i].key != wire[j].key {
        if KeyText(pairs[i].key) == KeyText(pairs[j].key) {
          KeyTextsDiffer(key, pairs[i].key, pairs[j].key);
        }
      }
    }
  }

  lemma {:induction false} FromDistinct(pairs: seq<Pair>)
    requires IsMap(pairs)
    ensures FromEntries(pairs) == pairs
  {
    if pairs != [] {
      var n := |pairs| - 1;
      FromDistinct(pairs[..n]);
      PutAppends(pairs[..n], pairs[n].key, pairs[n].value);
      assert pairs == pairs[..n] + [pairs[n]];
    }
  }

  lemma HeldGives(scalar: Scalar, number: Expr, scope: Scope, v: Value)
    requires IsInteger(scalar) && IsScalar(scalar, v) && Eval(number, scope) == Some(v)
    ensures Eval(HeldTo(scalar, number), scope) == Some(v)
  {
    HeldToTheType(scalar, number, scope, v.number);
  }

  lemma ScalarKeyWritten(scalar: Scalar, expr: Expr, scope: Scope, v: Value)
    requires IsKeyScalar(scalar) && IsScalar(scalar, v) && Eval(expr, scope) == Some(v)
    ensures Eval(EncodeScalarKey(scalar, expr), scope) == Some(Text(KeyText(v)))
  {
    if IsInteger(scalar) {
      HeldGives(scalar, expr, scope, v);
      TextGives(HeldTo(scalar, expr), scope, v);
    } else {
      PlainKeyGives(scalar, expr, scope, v);
    }
  }

  lemma TextGives(number: Expr, scope: Scope, v: Value)
    requires Eval(number, scope) == Some(v) && v.Int?
    ensures Eval(Unary(IntToText, number), scope) == Some(Text(KeyText(v)))
  {
  }

  /** A key that is no number is written as its text, and read from it. */
  lemma PlainKeyGives(scalar: Scalar, expr: Expr, scope: Scope, v: Value)
    requires IsKeyScalar(scalar) && !IsInteger(scalar) && IsScalar(scalar, v)
    ensures Eval(expr, scope) == Some(v) ==> Eval(EncodeScalarKey(scalar, expr), scope) == Some(Text(KeyText(v)))
    ensures Eval(expr, scope) == Some(Text(KeyText(v))) ==> Eval(DecodeScalarKey(scalar, expr), scope) == Some(v)
  {
  }

  lemma ScalarKeyRead(scalar: Scalar, expr: Expr, scope: Scope, v: Value)
    requires IsKeyScalar(scalar) && IsScalar(scalar, v) && Eval(expr, scope) == Some(Text(KeyText(v)))
    ensures Eval(DecodeScalarKey(scalar, expr), scope) == Some(v)
  {
    if IsInteger(scalar) {
      IntReadsBack(v.number);
      NumberGives(expr, scope, KeyText(v), v.number);
      HeldGives(scalar, Unary(TextToInt, expr), scope, v);
    } else {
      PlainKeyGives(scalar, expr, scope, v);
    }
  }

  lemma NumberGives(expr: Expr, scope: Scope, text: string, n: int)
    requires Eval(expr, scope) == Some(Text(text)) && IntOf(text) == Some(n)
    ensures Eval(Unary(TextToInt, expr), scope) == Some(Int(n))
  {
  }

  lemma KeyWritten(key: FieldDef, expr: Expr, scope: Scope, v: Value)
    requires IsKeyType(Whole(key)) && IsKey(Whole(key), v) && Eval(expr, scope) == Some(v)
    ensures Eval(EncodeKey(key, expr), scope) == Some(Text(KeyText(v)))
  {
    KeyIsPlain(key);
    ScalarKeyWritten(key.base.scalar, expr, scope, v);
  }

  lemma KeyRead(key: FieldDef, expr: Expr, scope: Scope, v: Value)
    requires IsKeyType(Whole(key)) && IsKey(Whole(key), v) && Eval(expr, scope) == Some(Text(KeyText(v)))
    ensures Eval(DecodeKey(key, expr), scope) == Some(v)
  {
    KeyIsPlain(key);
    ScalarKeyRead(key.base.scalar, expr, scope, v);
  }

  lemma HeldIsScalar(scalar: Scalar, number: Expr, scope: Scope)
    requires IsInteger(scalar) && Eval(HeldTo(scalar, number), scope).Some?
    requires Eval(number, scope).Some? ==> Eval(number, scope).value.Int? && IsDartInt(Eval(number, scope).value.number)
    ensures IsScalar(scalar, Eval(HeldTo(scalar, number), scope).value)
  {
    if Eval(number, scope).Some? {
      HeldToTheType(scalar, number, scope, Eval(number, scope).value.number);
    }
  }

  lemma ScalarKeyReadInhabits(scalar: Scalar, expr: Expr, scope: Scope)
    requires IsKeyScalar(scalar) && Eval(DecodeScalarKey(scalar, expr), scope).Some?
    requires Eval(expr, scope).Some? && Eval(expr, scope).value.Text?
    ensures IsScalar(scalar, Eval(DecodeScalarKey(scalar, expr), scope).value)
  {
    if IsInteger(scalar) {
      IntOfIsDartInt(Eval(expr, scope).value.text);
      HeldIsScalar(scalar, Unary(TextToInt, expr), scope);
    } else {
      PlainKeyInhabits(scalar, expr, scope);
    }
  }

  lemma PlainKeyInhabits(scalar: Scalar, expr: Expr, scope: Scope)
    requires IsKeyScalar(scalar) && !IsInteger(scalar) && Eval(DecodeScalarKey(scalar, expr), scope).Some?
    requires Eval(expr, scope).Some? && Eval(expr, scope).value.Text?
    ensures IsScalar(scalar, Eval(DecodeScalarKey(scalar, expr), scope).value)
  {
  }

  lemma KeyReadInhabits(key: FieldDef, expr: Expr, scope: Scope)
    requires IsKeyType(Whole(key)) && Eval(DecodeKey(key, expr), scope).Some?
    requires Eval(expr, scope).Some? && Eval(expr, scope).value.Text?
    ensures IsKey(Whole(key), Eval(DecodeKey(key, expr), scope).value)
  {
    KeyIsPlain(key);
    ScalarKeyReadInhabits(key.base.scalar, expr, scope);
  }

  lemma IntOfIsDartInt(text: string)
    ensures IntOf(text).Some? ==> IsDartInt(IntOf(text).value)
  {
  }

  lemma KeyIsPlain(key: FieldDef)
    requires Whole(key).Leaf?
    ensures key.base == Plain(Whole(key).scalar) && key.depth == 0 && !IsOptional(key)
  {
    var bare := Bare(key, key.depth, OfBase(key.base));
    assert Whole(key) == if IsOptional(key) then Opt(bare) else bare;
    assert key.depth > 0 ==> bare.Listed?;
  }

  // ----- writing -----

  /** `t`, or an `Option` of it. */
  function MaybeOpt(optional: bool, t: Nested): Nested {
    if optional then Opt(t) else t
  }

  function MaybeNull(optional: bool, expr: Expr, held: Expr): Expr {
    if optional then NullOr(expr, held) else held
  }

  lemma OptionWrites(optional: bool, t: Nested, expr: Expr, held: Expr, scope: Scope, v: Value)
    requires !t.Optional? && Is(MaybeOpt(optional, t), v) && Eval(expr, scope) == Some(v)
    requires Is(t, v) && !(optional && v == Null) ==> Eval(held, scope) == Some(Wire(t, v))
    ensures Eval(MaybeNull(optional, expr, held), scope) == Some(Wire(MaybeOpt(optional, t), v))
  {
  }

  /** What `field`'s value at `level` is written as is the JSON of its type. */
  lemma {:induction false} WritesItsJson(field: FieldDef, level: nat, expr: Expr, scope: Scope, v: Value)
    requires Readable(field) && level <= field.depth && Codable(Bare(field, level, OfBase(field.base)))
    requires Is(Bare(field, level, OfBase(field.base)), v) && Eval(expr, scope) == Some(v)
    ensures Eval(EncodeAt(field, level, expr), scope) == Some(Wire(Bare(field, level, OfBase(field.base)), v))
    decreases field.base, level, 2
  {
    if level > 0 {
      ArrayWritesItsJson(field, level, expr, scope, v);
    } else if field.base.Sibling? {
      CollectionWritesItsJson(field, expr, scope, v);
    } else {
      BaseWritesItsJson(field, expr, scope, v);
    }
  }

  /** `field`, a `v` of which is what `expr` holds, writes it as its JSON below its arrays. */
  ghost predicate BaseWrites(field: FieldDef, expr: Expr, scope: Scope, v: Value) {
    Is(OfBase(field.base), v) && Eval(EncodeAt(field, 0, expr), scope) == Some(Wire(OfBase(field.base), v))
  }

  /** A collection is written as its elements' field is, at the levels that are the collection's own. */
  lemma CollectionWrite(field: FieldDef, element: FieldDef, expr: Expr) returns (combined: FieldDef)
    requires field.base.Sibling? && field.base.arguments == [element] && IsSequenceWrapper(field.base.name)
      && Readable(field)
    ensures combined.base == element.base && Readable(combined) && field.depth <= combined.depth
    ensures Bare(combined, combined.depth - field.depth, OfBase(combined.base)) == OfBase(field.base)
    ensures EncodeAt(field, 0, expr) == EncodeAt(combined, combined.depth - field.depth, expr)
  {
    CombinedIsTheCollection(field, element);
    combined := CollectionElement(field, element);
    assert field.base.arguments[0] == element && |field.base.arguments| == 1;
  }

  lemma {:induction false} CollectionWritesItsJson(field: FieldDef, expr: Expr, scope: Scope, v: Value)
    requires Readable(field) && field.base.Sibling? && Codable(OfBase(field.base))
    requires Is(OfBase(field.base), v) && Eval(expr, scope) == Some(v)
    ensures Eval(EncodeAt(field, 0, expr), scope) == Some(Wire(OfBase(field.base), v))
    decreases field.base, 0, 1
  {
    var combined := CollectionWrite(field, field.base.arguments[0], expr);
    WritesItsJson(combined, combined.depth - field.depth, expr, scope, v);
  }

  lemma {:induction false} ArrayWritesItsJson(field: FieldDef, level: nat, expr: Expr, scope: Scope, v: Value)
    requires Readable(field) && 0 < level <= field.depth && Codable(Bare(field, level, OfBase(field.base)))
    requires Is(Bare(field, level, OfBase(field.base)), v) && Eval(expr, scope) == Some(v)
    ensures Eval(EncodeAt(field, level, expr), scope) == Some(Wire(Bare(field, level, OfBase(field.base)), v))
    decreases field.base, level, 1
  {
    var item := Slot(field, level - 1, OfBase(field.base));
    ItemsWriteTheirJson(field, level - 1, v.items, scope);
    ListGives(expr, ItemWrite(field, level - 1), scope, v.items, WireAll(item, v.items));
  }

  lemma ListGives(of: Expr, body: Expr, scope: Scope, items: seq<Value>, made: seq<Value>)
    requires Eval(of, scope) == Some(List(items)) && EvalEach(body, items, scope) == Some(made)
    ensures Eval(Mapped(of, body), scope) == Some(List(made))
  {
  }

  lemma {:induction false} BaseWritesItsJson(field: FieldDef, expr: Expr, scope: Scope, v: Value)
    requires ReadableBase(field.base) && Codable(OfBase(field.base)) && !field.base.Sibling?
    requires Is(OfBase(field.base), v) && Eval(expr, scope) == Some(v)
    ensures BaseWrites(field, expr, scope, v)
    decreases field.base, 0, 1
  {
    match field.base
    case Plain(scalar) => ScalarWrites(scalar, expr, scope, v);
    case Tuple(elements) => TupleWritesItsJson(field, elements, expr, scope, v);
    case Range(kind, bound) => RangeWritesItsJson(field, kind, bound, expr, scope, v);
    case ResultOf(ok, err) => ResultWritesItsJson(field, ok, err, expr, scope, v);
    case MapOf(key, value) => MapWritesItsJson(field, key, value, expr, scope, v);
    case TypeParam(_) =>
  }

  lemma {:induction false} TupleWritesItsJson(field: FieldDef, elements: seq<FieldDef>, expr: Expr, scope: Scope,
      v: Value)
    requires field.base == Tuple(elements)
    requires AllReadable(elements) && AllCodable(Wholes(elements)) && Eval(expr, scope) == Some(v)
    requires Is(Group(Wholes(elements)), v)
    ensures BaseWrites(field, expr, scope, v)
    decreases elements, 1
  {
    if elements != [] {
      assert v.parts[0..] == v.parts;
      ElementsWriteTheirJson(elements, expr, 0, scope, v);
    }
  }

  lemma {:induction false} RangeWritesItsJson(field: FieldDef, kind: RangeKind, bound: FieldDef, expr: Expr,
      scope: Scope, v: Value)
    requires field.base == Range(kind, bound)
    requires Readable(bound) && Codable(Whole(bound)) && Eval(expr, scope) == Some(v)
      && Is(Bounds(kind, Whole(bound)), v)
    ensures BaseWrites(field, expr, scope, v)
    decreases bound, |KindLabels(kind)| + 1
  {
    assert v.bounds[0..] == v.bounds && KindLabels(kind)[0..] == KindLabels(kind);
    BoundsWriteTheirJson(kind, bound, expr, 0, scope, v);
    RangeIsBuilt(field, kind, bound, expr, scope, v);
  }

  lemma RangeIsBuilt(field: FieldDef, kind: RangeKind, bound: FieldDef, expr: Expr, scope: Scope, v: Value)
    requires field.base == Range(kind, bound) && Is(Bounds(kind, Whole(bound)), v)
    requires EvalAll(EncodeBounds(bound, expr, KindLabels(kind)), scope) == Some(WireAll(Whole(bound), v.bounds))
    ensures BaseWrites(field, expr, scope, v)
  {
    ObjectGives(KindLabels(kind), EncodeBounds(bound, expr, KindLabels(kind)), scope, WireAll(Whole(bound), v.bounds));
  }

  lemma ObjectGives(labels: seq<string>, parts: seq<Expr>, scope: Scope, values: seq<Value>)
    requires EvalAll(parts, scope) == Some(values)
    ensures Eval(Built(ObjectShape(labels), parts), scope) == Some(Map(Zipped(labels, values)))
  {
  }

  lemma {:induction false} ResultWritesItsJson(field: FieldDef, ok: FieldDef, err: FieldDef, expr: Expr, scope: Scope,
      v: Value)
    requires field.base == ResultOf(ok, err)
    requires Readable(ok) && Codable(Whole(ok)) && Readable(err) && Codable(Whole(err))
    requires Eval(expr, scope) == Some(v) && Is(Either(Whole(ok), Whole(err)), v)
    ensures BaseWrites(field, expr, scope, v)
    decreases field.base, 0, 0
  {
    var arm := if v.arm == "Ok" then ok else err;
    ArmWritesItsJson(v.arm, arm, scope, v.held);
    ArmWriteGives(expr, ArmWrites("Ok", ok), ArmWrites("Err", err), scope, v,
      Map([Entry(Text(v.arm), Wire(Whole(arm), v.held))]));
  }

  function ArmWrites(name: string, arm: FieldDef): Expr {
    Built(ObjectShape([name]), [if IsUnit(arm) then NullLiteral else EncodeField(arm, Var("held"), true)])
  }

  lemma ArmWriteGives(of: Expr, ok: Expr, err: Expr, scope: Scope, v: Value, wire: Value)
    requires Eval(of, scope) == Some(v) && v.Arm? && (v.arm == "Ok" || v.arm == "Err")
    requires Eval(if v.arm == "Ok" then ok else err, scope["held" := v.held]) == Some(wire)
    ensures Eval(ArmWrite(of, ok, err), scope) == Some(wire)
  {
  }

  lemma {:induction false} MapWritesItsJson(field: FieldDef, key: FieldDef, value: FieldDef, expr: Expr, scope: Scope,
      v: Value)
    requires field.base == MapOf(key, value)
    requires Readable(value) && IsKeyType(Whole(key)) && Codable(Whole(value))
    requires Eval(expr, scope) == Some(v) && Is(Entries(Whole(key), Whole(value)), v)
    ensures BaseWrites(field, expr, scope, v)
    decreases value, |v.pairs| + 1
  {
    EntriesWriteTheirJson(key, value, v.pairs, scope);
    EntriesWire(Whole(key), Whole(value), v);
    MapOfEntries(expr, EntryWrite(key, value), scope, v.pairs, WireEntries(Whole(key), Whole(value), v.pairs));
  }

  lemma EntriesWire(key: Nested, value: Nested, v: Value)
    requires IsKeyType(key) && Is(Entries(key, value), v)
    ensures IsMap(WireEntries(key, value, v.pairs))
    ensures Wire(Entries(key, value), v) == Map(WireEntries(key, value, v.pairs))
  {
    WireKeysDiffer(key, value, v.pairs);
  }

  lemma MapOfEntries(of: Expr, entry: EntryBody, scope: Scope, pairs: seq<Pair>, made: seq<Pair>)
    requires Eval(of, scope) == Some(Map(pairs)) && EvalPairs(entry, pairs, scope) == Some(made) && IsMap(made)
    ensures Eval(MappedEntries(of, entry), scope) == Some(Map(made))
  {
    FromDistinct(made);
  }

  function EntryWrite(key: FieldDef, value: FieldDef): EntryBody {
    EntryBody(EncodeKey(key, Unary(KeyOfEntry, Var("e"))), EncodeField(value, Unary(ValueOfEntry, Var("e")), false))
  }

  lemma ScalarWrites(scalar: Scalar, expr: Expr, scope: Scope, v: Value)
    requires IsScalar(scalar, v) && Eval(expr, scope) == Some(v)
    ensures Eval(EncodeScalar(scalar, expr), scope) == Some(v)
  {
    if IsInteger(scalar) {
      HeldGives(scalar, expr, scope, v);
    }
  }

  lemma {:induction false} FieldWritesItsJson(field: FieldDef, expr: Expr, promoted: bool, scope: Scope, v: Value)
    requires Readable(field) && Codable(Whole(field)) && Is(Whole(field), v) && Eval(expr, scope) == Some(v)
    ensures Eval(EncodeField(field, expr, promoted), scope) == Some(Wire(Whole(field), v))
    decreases field.base, field.depth, 4
  {
    var t := Bare(field, field.depth, OfBase(field.base));
    BareIsNoOption(field, field.depth);
    assert Whole(field) == MaybeOpt(IsOptional(field), t);
    var plain, asserted := EncodeAt(field, field.depth, expr), EncodeAt(field, field.depth, Asserted(expr));
    if Is(t, v) && !(IsOptional(field) && v == Null) {
      WritesItsJson(field, field.depth, expr, scope, v);
      if v != Null {
        WritesItsJson(field, field.depth, Asserted(expr), scope, v);
      }
    }
    OptionWrites(IsOptional(field), t, expr, plain, scope, v);
    if IsOptional(field) {
      OptionWrites(true, t, expr, asserted, scope, v);
    }
  }

  function ItemWrite(field: FieldDef, level: nat): Expr {
    MaybeNull(IsMarked(field.nullable, level), Var("e"), EncodeAt(field, level, Var("e")))
  }

  lemma {:induction false} ItemsWriteTheirJson(field: FieldDef, level: nat, items: seq<Value>, scope: Scope)
    requires Readable(field) && level < field.depth && Codable(Slot(field, level, OfBase(field.base)))
    requires AreAll(Slot(field, level, OfBase(field.base)), items)
    ensures EvalEach(ItemWrite(field, level), items, scope)
      == Some(WireAll(Slot(field, level, OfBase(field.base)), items))
    decreases field.base, level, 3, |items|
  {
    if items != [] {
      var t, optional, inner := Bare(field, level, OfBase(field.base)), IsMarked(field.nullable, level),
        scope["e" := items[0]];
      BareIsNoOption(field, level);
      assert Slot(field, level, OfBase(field.base)) == MaybeOpt(optional, t);
      if Is(t, items[0]) && !(optional && items[0] == Null) {
        WritesItsJson(field, level, Var("e"), inner, items[0]);
      }
      OptionWrites(optional, t, Var("e"), EncodeAt(field, level, Var("e")), inner, items[0]);
      ItemsWriteTheirJson(field, level, items[1..], scope);
    }
  }

  lemma {:induction false} ElementsWriteTheirJson(elements: seq<FieldDef>, expr: Expr, index: nat, scope: Scope,
      v: Value)
    requires AllReadable(elements) && AllCodable(Wholes(elements))
    requires Eval(expr, scope) == Some(v) && v.Record? && index <= |v.parts|
      && AreEach(Wholes(elements), v.parts[index..])
    ensures EvalAll(EncodeElements(elements, expr, index), scope) == Some(WireEach(Wholes(elements), v.parts[index..]))
    decreases elements, 0
  {
    if elements != [] {
      assert v.parts[index..][0] == v.parts[index] && v.parts[index..][1..] == v.parts[index + 1..];
      assert Wholes(elements)[1..] == Wholes(elements[1..]);
      FieldWritesItsJson(elements[0], Part(expr, index), false, scope, v.parts[index]);
      ElementsWriteTheirJson(elements[1..], expr, index + 1, scope, v);
    }
  }

  lemma ObjectOfOne(name: string, part: Expr, scope: Scope, wire: Value)
    requires Eval(part, scope) == Some(wire)
    ensures Eval(Built(ObjectShape([name]), [part]), scope) == Some(Map([Entry(Text(name), wire)]))
  {
    assert EvalAll([part], scope) == Some([wire]) by {
      assert [part][1..] == [];
      assert EvalAll([part][1..], scope) == Some([]);
      assert [wire] + [] == [wire];
    }
    assert Zipped([name], [wire]) == [Entry(Text(name), wire)] by {
      assert [name][1..] == [];
      assert Zipped([name][1..], [wire][1..]) == [];
    }
  }

  lemma {:induction false} ArmWritesItsJson(name: string, arm: FieldDef, scope: Scope, v: Value)
    requires Readable(arm) && Codable(Whole(arm)) && Is(Whole(arm), v)
    ensures Eval(ArmWrites(name, arm), scope["held" := v]) == Some(Map([Entry(Text(name), Wire(Whole(arm), v))]))
    decreases arm
  {
    var part := if IsUnit(arm) then NullLiteral else EncodeField(arm, Var("held"), true);
    if IsUnit(arm) {
      UnitIsUnit(arm);
    } else {
      FieldWritesItsJson(arm, Var("held"), true, scope["held" := v], v);
    }
    ObjectOfOne(name, part, scope["held" := v], Wire(Whole(arm), v));
  }

  lemma LabelsAreApart(kind: RangeKind, index: nat)
    requires index < |KindLabels(kind)|
    ensures Position(KindLabels(kind), KindLabels(kind)[index]) == Some(index)
  {
    assert "start" != "end";
    var labels := KindLabels(kind);
    if index == 1 {
      assert labels[1..][0] == labels[1];
    }
  }

  lemma {:induction false} BoundsWriteTheirJson(kind: RangeKind, bound: FieldDef, expr: Expr, index: nat,
      scope: Scope, v: Value)
    requires Readable(bound) && Codable(Whole(bound)) && Eval(expr, scope) == Some(v)
    requires v.Labelled? && v.labels == KindLabels(kind) && |v.bounds| == |KindLabels(kind)| && index <= |v.bounds|
    requires AreAll(Whole(bound), v.bounds[index..])
    ensures EvalAll(EncodeBounds(bound, expr, KindLabels(kind)[index..]), scope)
      == Some(WireAll(Whole(bound), v.bounds[index..]))
    decreases bound, |KindLabels(kind)| - index
  {
    if index < |v.bounds| {
      var labels, held := KindLabels(kind)[index..], v.bounds[index..];
      assert labels[0] == KindLabels(kind)[index] && labels[1..] == KindLabels(kind)[index + 1..];
      assert held[0] == v.bounds[index] && held[1..] == v.bounds[index + 1..];
      LabelGives(kind, expr, index, scope, v);
      FieldWritesItsJson(bound, Unary(Label(labels[0]), expr), false, scope, held[0]);
      BoundsWriteTheirJson(kind, bound, expr, index + 1, scope, v);
      OneMoreBound(bound, expr, labels, scope, held);
    }
  }

  /** Bounds are written where the first of them is, and the rest are. */
  lemma OneMoreBound(bound: FieldDef, expr: Expr, labels: seq<string>, scope: Scope, held: seq<Value>)
    requires labels != [] && held != [] && AreAll(Whole(bound), held)
    requires Eval(EncodeField(bound, Unary(Label(labels[0]), expr), false), scope)
      == Some(Wire(Whole(bound), held[0]))
    requires EvalAll(EncodeBounds(bound, expr, labels[1..]), scope) == Some(WireAll(Whole(bound), held[1..]))
    ensures EvalAll(EncodeBounds(bound, expr, labels), scope) == Some(WireAll(Whole(bound), held))
  {
    PartsGive(EncodeField(bound, Unary(Label(labels[0]), expr), false), EncodeBounds(bound, expr, labels[1..]), scope,
      Wire(Whole(bound), held[0]), WireAll(Whole(bound), held[1..]));
  }

  lemma LabelGives(kind: RangeKind, expr: Expr, index: nat, scope: Scope, v: Value)
    requires Eval(expr, scope) == Some(v) && v.Labelled? && v.labels == KindLabels(kind)
    requires |v.bounds| == |KindLabels(kind)| && index < |v.bounds|
    ensures Eval(Unary(Label(KindLabels(kind)[index]), expr), scope) == Some(v.bounds[index])
  {
    LabelsAreApart(kind, index);
  }

  lemma PartsGive(first: Expr, rest: seq<Expr>, scope: Scope, value: Value, more: seq<Value>)
    requires Eval(first, scope) == Some(value) && EvalAll(rest, scope) == Some(more)
    ensures EvalAll([first] + rest, scope) == Some([value] + more)
  {
    assert ([first] + rest)[1..] == rest;
  }

  lemma {:induction false} EntriesWriteTheirJson(key: FieldDef, value: FieldDef, pairs: seq<Pair>, scope: Scope)
    requires Readable(value) && IsKeyType(Whole(key)) && Codable(Whole(value))
      && AreEntries(Whole(key), Whole(value), pairs)
    ensures EvalPairs(EntryWrite(key, value), pairs, scope) == Some(WireEntries(Whole(key), Whole(value), pairs))
    decreases value, |pairs|
  {
    if pairs != [] {
      var inner := scope["e" := MapEntry(pairs[0])];
      KeyWritten(key, Unary(KeyOfEntry, Var("e")), inner, pairs[0].key);
      FieldWritesItsJson(value, Unary(ValueOfEntry, Var("e")), false, inner, pairs[0].value);
      EntriesWriteTheirJson(key, value, pairs[1..], scope);
    }
  }
}
