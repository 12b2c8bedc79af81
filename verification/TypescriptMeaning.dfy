/** What a TypeScript spelling means: the type it spells, and the JSON values that inhabit the type. What
    serde writes of a value of a field inhabits the type the field is spelled as. */
module TypescriptMeaning {
  import opened Wrappers
  import opened Levels
  import opened Decimals
  import opened Integers
  import opened DartMaps
  import opened DartCodec
  import opened Typescript
  import M = DartCodecMeaning

  /** A TypeScript type, as far as a field is spelled: a keyword or a name, an array, a tuple, an object
      of named members, a union, a partial record, a string literal, and a name with arguments. */
  datatype Ts =
    | Keyword(text: string)
    | Bytes
    | ArrayOf(item: Ts)
    | TupleOf(items: seq<Ts>)
    | ObjectOf(labels: seq<string>, types: seq<Ts>)
    | Union(one: Ts, other: Ts)
    | RecordOf(key: Ts, value: Ts)
    | Quoted(text: string)
    | Applied(name: string, arguments: seq<Ts>)

  // ----- how a type is spelled -----

  function Spelled(ts: Ts): string
    decreases ts, 1
  {
    match ts
    case Keyword(text) => text
    case Bytes => "Uint8Array"
    case ArrayOf(item) => "Array<" + (Spelled(item) + ">")
    case TupleOf(items) => "[" + (SpelledAll(items) + "]")
    case ObjectOf(labels, types) => "{ " + (SpelledMembers(labels, types) + " }")
    case Union(one, other) => Spelled(one) + " | " + Spelled(other)
    case RecordOf(key, value) => "Partial<Record<" + (Spelled(key) + (", " + (Spelled(value) + ">>")))
    case Quoted(text) => "\"" + text + "\""
    case Applied(name, arguments) => name + ("<" + (SpelledAll(arguments) + ">"))
  }

  function SpelledAll(items: seq<Ts>): string
    decreases items, 0
  {
    if items == [] then "" else if |items| == 1 then Spelled(items[0])
    else Spelled(items[0]) + (", " + SpelledAll(items[1..]))
  }

  function SpelledMembers(labels: seq<string>, types: seq<Ts>): string
    decreases types, 0
  {
    if labels == [] || types == [] then ""
    else if |types| == 1 || |labels| == 1 then labels[0] + ": " + Spelled(types[0])
    else labels[0] + ": " + Spelled(types[0]) + ("; " + SpelledMembers(labels[1..], types[1..]))
  }

  // ----- the type a field is spelled as -----

  function BareTs(field: FieldDef, level: nat, t: Ts): Ts
    decreases level, 0
  {
    if level == 0 then t
    else if level == 1 && field.bytes then Bytes
    else ArrayOf(LevelTs(field, level - 1, t))
  }

  function LevelTs(field: FieldDef, level: nat, t: Ts): Ts
    decreases level, 1
  {
    var bare := BareTs(field, level, t);
    if IsMarked(field.nullable, level) then Union(bare, Keyword("null")) else bare
  }

  function FieldTs(field: FieldDef): Ts
    decreases field, 0
  {
    LevelTs(field, field.depth, OwnTs(field.base))
  }

  function OwnTs(base: FieldBase): Ts
    decreases base, 0
  {
    match base
    case Plain(scalar) => Keyword(ScalarText(scalar))
    case Tuple(elements) => if elements == [] then Keyword("null") else TupleOf(AllTs(elements))
    case Range(kind, bound) =>
      var held := FieldTs(bound);
      if HasStart(kind) && HasEnd(kind) then ObjectOf(["start", "end"], [held, held])
      else ObjectOf([if HasStart(kind) then "start" else "end"], [held])
    case ResultOf(ok, err) => Union(ObjectOf(["Ok"], [FieldTs(ok)]), ObjectOf(["Err"], [FieldTs(err)]))
    case MapOf(key, value) => RecordOf(KeyTs(key), FieldTs(value))
    case Sibling(name, arguments) =>
      if |arguments| == 1 && IsSequenceWrapper(name) then ArrayOf(FieldTs(arguments[0]))
      else if arguments == [] then Keyword(name)
      else Applied(name, AllTs(arguments))
    case TypeParam(parameter) => Keyword(parameter)
  }

  function AllTs(fields: seq<FieldDef>): seq<Ts>
    decreases fields, 0
  {
    if fields == [] then [] else [FieldTs(fields[0])] + AllTs(fields[1..])
  }

  function KeyTs(key: FieldDef): Ts
    decreases key, 1
  {
    var plainly := key.depth == 0 && !IsOptional(key);
    var base := BareTs(key, key.depth, OwnTs(key.base));
    if key.base.TypeParam? then Keyword("string")
    else if plainly && key.base == Plain(Boolean) then Union(Quoted("true"), Quoted("false"))
    else if plainly && (key.base == Plain(U64) || key.base == Plain(I64)) then Keyword("number")
    else if IsOptional(key) then Union(base, Keyword("undefined"))
    else base
  }

  lemma {:induction false} LevelIsSpelled(field: FieldDef, level: nat, t: Ts)
    ensures Spelled(BareTs(field, level, t)) == BareText(field, level, Spelled(t))
    ensures Spelled(LevelTs(field, level, t)) == LevelText(field, level, Spelled(t))
  {
    if level > 0 {
      LevelIsSpelled(field, level - 1, t);
    }
  }

  lemma {:induction false} FieldIsSpelled(field: FieldDef)
    ensures Spelled(FieldTs(field)) == SlotText(field)
    decreases field, 0
  {
    OwnIsSpelled(field.base);
    LevelIsSpelled(field, field.depth, OwnTs(field.base));
  }

  lemma {:induction false} OwnIsSpelled(base: FieldBase)
    ensures Spelled(OwnTs(base)) == OwnText(base)
    decreases base, 0
  {
    match base
    case Plain(_) =>
    case Tuple(elements) => AllAreSpelled(elements);
    case Range(kind, bound) =>
      FieldIsSpelled(bound);
      RangeIsSpelled(kind, FieldTs(bound));
    case ResultOf(ok, err) =>
      FieldIsSpelled(ok);
      FieldIsSpelled(err);
      ResultIsSpelled(FieldTs(ok), FieldTs(err));
    case MapOf(key, value) =>
      KeyIsSpelled(key);
      FieldIsSpelled(value);
    case Sibling(name, arguments) =>
      AllAreSpelled(arguments);
      if |arguments| == 1 {
        FieldIsSpelled(arguments[0]);
      }
    case TypeParam(_) =>
  }

  lemma RangeIsSpelled(kind: RangeKind, held: Ts)
    ensures Spelled(ObjectOf(["start"], [held])) == "{ start: " + (Spelled(held) + " }")
    ensures Spelled(ObjectOf(["end"], [held])) == "{ end: " + (Spelled(held) + " }")
    ensures Spelled(ObjectOf(["start", "end"], [held, held]))
      == "{ start: " + (Spelled(held) + ("; end: " + (Spelled(held) + " }")))
  {
    ArmIsSpelled("start", "{ start: ", held);
    ArmIsSpelled("end", "{ end: ", held);
    PairIsSpelled("start", "end", held);
    assert "{ " + ("start" + ": ") == "{ start: " && "; " + ("end" + ": ") == "; end: ";
  }

  lemma PairIsSpelled(one: string, other: string, held: Ts)
    ensures Spelled(ObjectOf([one, other], [held, held]))
      == "{ " + (one + ": ") + (Spelled(held) + ("; " + (other + ": ") + (Spelled(held) + " }")))
  {
    var text := Spelled(held);
    assert [one, other][1..] == [other] && [held, held][1..] == [held];
    assert SpelledMembers([other], [held]) == other + ": " + text;
    assert SpelledMembers([one, other], [held, held]) == one + ": " + text + ("; " + (other + ": " + text));
    Bracketed("{ ", one + ": ", text, "; ", other + ": ", " }");
  }

  lemma Bracketed(open: string, one: string, text: string, between: string, other: string, close: string)
    ensures open + ((one + text + (between + (other + text))) + close)
         == open + one + (text + (between + other + (text + close)))
  {
  }

  lemma ResultIsSpelled(ok: Ts, err: Ts)
    ensures Spelled(Union(ObjectOf(["Ok"], [ok]), ObjectOf(["Err"], [err])))
      == "{ Ok: " + (Spelled(ok) + (" } | { Err: " + (Spelled(err) + " }")))
  {
    ArmIsSpelled("Ok", "{ Ok: ", ok);
    ArmIsSpelled("Err", "{ Err: ", err);
    Enclosed("{ Ok: ", Spelled(ok), " }", " | ", "{ Err: ", Spelled(err) + " }");
    assert " }" + (" | " + "{ Err: ") == " } | { Err: ";
  }

  lemma ArmIsSpelled(label_: string, open: string, t: Ts)
    requires open == "{ " + (label_ + ": ")
    ensures Spelled(ObjectOf([label_], [t])) == open + (Spelled(t) + " }")
  {
    var text := Spelled(t);
    assert SpelledMembers([label_], [t]) == label_ + ": " + text;
    assert "{ " + ((label_ + ": " + text) + " }") == ("{ " + (label_ + ": ")) + (text + " }");
  }

  lemma Enclosed(open: string, one: string, close: string, between: string, next: string, other: string)
    ensures (open + (one + close)) + between + (next + other) == open + (one + ((close + (between + next)) + other))
  {
  }

  lemma {:induction false} AllAreSpelled(fields: seq<FieldDef>)
    ensures |AllTs(fields)| == |fields| && SpelledAll(AllTs(fields)) == JoinedText(fields)
    decreases fields, 0
  {
    if fields != [] {
      FieldIsSpelled(fields[0]);
      AllAreSpelled(fields[1..]);
      assert AllTs(fields)[1..] == AllTs(fields[1..]);
    }
  }

  lemma {:induction false} KeyIsSpelled(key: FieldDef)
    ensures Spelled(KeyTs(key)) == KeyText(key)
    decreases key, 1
  {
    OwnIsSpelled(key.base);
    LevelIsSpelled(key, key.depth, OwnTs(key.base));
    TruthsAreSpelled();
  }

  lemma TruthsAreSpelled()
    ensures Spelled(Union(Quoted("true"), Quoted("false"))) == "\"true\" | \"false\""
  {
  }

  // ----- what inhabits a type -----

  /** `json` is of type `ts`. A `bigint` and a `number` are JSON integers alike; nothing is known of a
      name. */
  predicate Takes(ts: Ts, json: Value)
    decreases ts, 1
  {
    match ts
    case Keyword(text) =>
      text == "unknown" || (text == "boolean" && json.Bool?) || (text == "string" && json.Text?)
      || ((text == "number" || text == "bigint") && json.Int?) || (text == "null" && json == Null)
    case Bytes => json.List? && AreBytes(json.items)
    case ArrayOf(item) => json.List? && AllTake(item, json.items)
    case TupleOf(items) => json.List? && EachTakes(items, json.items)
    case ObjectOf(labels, types) => json.Map? && MembersTake(labels, types, json.pairs)
    case Union(one, other) => Takes(one, json) || Takes(other, json)
    case RecordOf(key, value) => json.Map? && EntriesTake(key, value, json.pairs)
    case Quoted(text) => json == Text(text)
    case Applied(_, _) => false
  }

  predicate AllTake(item: Ts, values: seq<Value>)
    decreases item, 2, |values|
  {
    values == [] || (Takes(item, values[0]) && AllTake(item, values[1..]))
  }

  predicate EachTakes(items: seq<Ts>, values: seq<Value>)
    decreases items, 0
  {
    |items| == |values| && (items == [] || (Takes(items[0], values[0]) && EachTakes(items[1..], values[1..])))
  }

  /** Each member stands under its own label, and nothing else does. */
  predicate MembersTake(labels: seq<string>, types: seq<Ts>, pairs: seq<Pair>)
    decreases types, 0
  {
    && |labels| == |types| == |pairs|
    && (types == []
        || (pairs[0].key == Text(labels[0]) && Takes(types[0], pairs[0].value)
            && MembersTake(labels[1..], types[1..], pairs[1..])))
  }

  predicate EntriesTake(key: Ts, value: Ts, pairs: seq<Pair>)
    decreases value, 2, |pairs|
  {
    pairs == []
    || (pairs[0].key.Text? && IsNamed(key, pairs[0].key.text) && Takes(value, pairs[0].value)
        && EntriesTake(key, value, pairs[1..]))
  }

  /** `text` is a property name of type `key`: a number is one by its digits. */
  predicate IsNamed(key: Ts, text: string) {
    match key
    case Keyword(named) => named == "string" || (named == "number" && IntOf(text).Some?)
    case Quoted(quoted) => text == quoted
    case Union(one, other) => IsNamed(one, text) || IsNamed(other, text)
    case _ => false
  }

  // ----- what serde writes inhabits what is spelled -----

  lemma {:induction false} FieldTakesItsJson(field: FieldDef, v: Value)
    requires Readable(field) && M.Codable(Whole(field)) && M.Is(Whole(field), v)
    ensures Takes(FieldTs(field), M.Wire(Whole(field), v))
    decreases field.base, 1, field.depth, 2, 0
  {
    SlotTakes(field, field.depth, v);
  }

  /** The `Option` of a level stands over no other. */
  lemma SlotIsOptional(field: FieldDef, level: nat)
    ensures IsMarked(field.nullable, level)
      ==> Slot(field, level, OfBase(field.base)) == Optional(Bare(field, level, OfBase(field.base)))
    ensures !IsMarked(field.nullable, level)
      ==> Slot(field, level, OfBase(field.base)) == Bare(field, level, OfBase(field.base))
  {
    BareIsNoOption(field, level);
  }

  lemma {:induction false} SlotTakes(field: FieldDef, level: nat, v: Value)
    requires Readable(field) && M.Codable(Slot(field, level, OfBase(field.base)))
    requires M.Is(Slot(field, level, OfBase(field.base)), v)
    ensures Takes(LevelTs(field, level, OwnTs(field.base)), M.Wire(Slot(field, level, OfBase(field.base)), v))
    decreases field.base, 1, level, 1, 0
  {
    SlotIsOptional(field, level);
    if M.Is(Bare(field, level, OfBase(field.base)), v) && !(IsMarked(field.nullable, level) && v == Null) {
      BareTakes(field, level, v);
    }
  }

  lemma {:induction false} BareTakes(field: FieldDef, level: nat, v: Value)
    requires Readable(field) && M.Codable(Bare(field, level, OfBase(field.base)))
    requires M.Is(Bare(field, level, OfBase(field.base)), v)
    ensures Takes(BareTs(field, level, OwnTs(field.base)), M.Wire(Bare(field, level, OfBase(field.base)), v))
    decreases field.base, 1, level, 0, 0
  {
    if level == 0 {
      OwnTakes(field.base, v);
    } else if level == 1 && field.bytes {
      BytesTake(v.items);
    } else {
      ItemsTake(field, level - 1, v.items);
    }
  }

  lemma {:induction false} BytesTake(items: seq<Value>)
    requires M.AreAll(Leaf(U8), items)
    ensures AreBytes(M.WireAll(Leaf(U8), items))
  {
    if items != [] {
      PowersOfTwo();
      BytesTake(items[1..]);
    }
  }

  lemma {:induction false} ItemsTake(field: FieldDef, level: nat, items: seq<Value>)
    requires Readable(field) && M.Codable(Slot(field, level, OfBase(field.base)))
    requires M.AreAll(Slot(field, level, OfBase(field.base)), items)
    ensures AllTake(LevelTs(field, level, OwnTs(field.base)), M.WireAll(Slot(field, level, OfBase(field.base)), items))
    decreases field.base, 1, level, 2, |items|
  {
    if items != [] {
      SlotTakes(field, level, items[0]);
      ItemsTake(field, level, items[1..]);
      var wires := M.WireAll(Slot(field, level, OfBase(field.base)), items);
      assert wires[1..] == M.WireAll(Slot(field, level, OfBase(field.base)), items[1..]);
    }
  }

  lemma ScalarTakes(scalar: Scalar, v: Value)
    requires M.IsScalar(scalar, v)
    ensures Takes(Keyword(ScalarText(scalar)), v)
  {
  }

  lemma {:induction false} OwnTakes(base: FieldBase, v: Value)
    requires ReadableBase(base) && M.Codable(OfBase(base)) && M.Is(OfBase(base), v)
    ensures Takes(OwnTs(base), M.Wire(OfBase(base), v))
    decreases base, 0, 1, 0, 0
  {
    match base
    case Plain(scalar) => ScalarTakes(scalar, v);
    case Tuple(elements) =>
      if elements != [] {
        EachIsTaken(elements, v.parts);
      }
    case Range(kind, bound) => RangeTakes(kind, bound, v);
    case ResultOf(ok, err) => ResultTakes(ok, err, v);
    case MapOf(key, value) => EntriesAreTaken(key, value, v.pairs);
    case Sibling(name, arguments) =>
      assert Readable(arguments[0]);
      ItemsTake(arguments[0], arguments[0].depth, v.items);
  }

  lemma {:induction false} EachIsTaken(elements: seq<FieldDef>, parts: seq<Value>)
    requires AllReadable(elements) && M.AllCodable(Wholes(elements)) && M.AreEach(Wholes(elements), parts)
    ensures EachTakes(AllTs(elements), M.WireEach(Wholes(elements), parts))
    decreases elements, 0, 0, 0, 0
  {
    if elements != [] {
      var wires := M.WireEach(Wholes(elements), parts);
      assert Wholes(elements)[1..] == Wholes(elements[1..]);
      FieldTakesItsJson(elements[0], parts[0]);
      EachIsTaken(elements[1..], parts[1..]);
      assert AllTs(elements)[1..] == AllTs(elements[1..]);
      assert wires[1..] == M.WireEach(Wholes(elements[1..]), parts[1..]);
    }
  }

  lemma {:induction false} RangeTakes(kind: RangeKind, bound: FieldDef, v: Value)
    requires Readable(bound) && M.Codable(Whole(bound)) && M.Is(Bounds(kind, Whole(bound)), v)
    ensures Takes(OwnTs(Range(kind, bound)), M.Wire(Bounds(kind, Whole(bound)), v))
    decreases bound, 1, 0, 0, 0
  {
    var t, held := Whole(bound), FieldTs(bound);
    var wires := M.WireAll(t, v.bounds);
    M.LabelsAreTheBounds(kind);
    FieldTakesItsJson(bound, v.bounds[0]);
    assert wires[0] == M.Wire(t, v.bounds[0]) && wires[1..] == M.WireAll(t, v.bounds[1..]);
    if |v.bounds| == 1 {
      assert v.bounds[1..] == [];
      OneMember(KindLabels(kind)[0], held, wires[0]);
      assert wires == [wires[0]] && KindLabels(kind) == [KindLabels(kind)[0]];
    } else {
      var rest := v.bounds[1..];
      assert M.AreAll(t, rest) && rest[0] == v.bounds[1] && rest[1..] == [];
      FieldTakesItsJson(bound, rest[0]);
      assert M.WireAll(t, rest) == [M.Wire(t, rest[0])] + M.WireAll(t, rest[1..]);
      assert wires[1..] == M.WireAll(t, rest) && wires[1] == M.Wire(t, rest[0]);
      TwoMembers(held, wires[0], wires[1]);
      assert wires == [wires[0], wires[1]];
    }
  }

  lemma OneMember(label_: string, held: Ts, json: Value)
    requires Takes(held, json)
    ensures MembersTake([label_], [held], Zipped([label_], [json]))
  {
    var pairs := Zipped([label_], [json]);
    assert [label_][1..] == [] && [json][1..] == [] && [held][1..] == [];
    assert Zipped([label_][1..], [json][1..]) == [];
    assert pairs == [Entry(Text(label_), json)] && pairs[1..] == [];
  }

  lemma TwoMembers(held: Ts, start: Value, end: Value)
    requires Takes(held, start) && Takes(held, end)
    ensures MembersTake(["start", "end"], [held, held], Zipped(["start", "end"], [start, end]))
  {
    assert ["start", "end"][1..] == ["end"] && [held, held][1..] == [held] && [start, end][1..] == [end];
    OneMember("end", held, end);
    var pairs := Zipped(["start", "end"], [start, end]);
    assert pairs[1..] == Zipped(["end"], [end]);
  }

  lemma {:induction false} ResultTakes(ok: FieldDef, err: FieldDef, v: Value)
    requires Readable(ok) && M.Codable(Whole(ok)) && Readable(err) && M.Codable(Whole(err))
    requires M.Is(Either(Whole(ok), Whole(err)), v)
    ensures Takes(OwnTs(ResultOf(ok, err)), M.Wire(Either(Whole(ok), Whole(err)), v))
    decreases ResultOf(ok, err), 0, 0, 0, 0
  {
    var arm := if v.arm == "Ok" then ok else err;
    var json := M.Wire(Whole(arm), v.held);
    FieldTakesItsJson(arm, v.held);
    OneMember(v.arm, FieldTs(arm), json);
    assert [v.arm][1..] == [] && [json][1..] == [];
    assert Zipped([v.arm], [json]) == [Entry(Text(v.arm), json)];
  }

  lemma {:induction false} EntriesAreTaken(key: FieldDef, value: FieldDef, pairs: seq<Pair>)
    requires M.IsKeyType(Whole(key)) && Readable(value) && M.Codable(Whole(value))
    requires M.AreEntries(Whole(key), Whole(value), pairs)
    ensures EntriesTake(KeyTs(key), FieldTs(value), M.WireEntries(Whole(key), Whole(value), pairs))
    decreases value, 1, |pairs|, 0, 0
  {
    if pairs != [] {
      var wires := M.WireEntries(Whole(key), Whole(value), pairs);
      KeyIsNamed(key, pairs[0].key);
      FieldTakesItsJson(value, pairs[0].value);
      EntriesAreTaken(key, value, pairs[1..]);
      assert wires[1..] == M.WireEntries(Whole(key), Whole(value), pairs[1..]);
    }
  }

  lemma KeyIsNamed(key: FieldDef, v: Value)
    requires M.IsKeyType(Whole(key)) && M.IsKey(Whole(key), v)
    ensures IsNamed(KeyTs(key), M.KeyText(v))
  {
    M.KeyIsPlain(key);
    var scalar := key.base.scalar;
    if v.Int? {
      IntReadsBack(v.number);
    }
    assert OwnTs(key.base) == Keyword(ScalarText(scalar));
    assert BareTs(key, 0, OwnTs(key.base)) == OwnTs(key.base);
    ScalarIsNamed(scalar, v);
  }

  lemma ScalarIsNamed(scalar: Scalar, v: Value)
    requires IsKeyScalar(scalar) && M.IsScalar(scalar, v) && (v.Int? ==> IntOf(IntText(v.number)).Some?)
    ensures IsNamed(if scalar.Boolean? then Union(Quoted("true"), Quoted("false"))
              else Keyword(if scalar.U64? || scalar.I64? then "number" else ScalarText(scalar)), M.KeyText(v))
  {
    M.ScalarsAreTold(scalar);
  }

  // ----- numbers -----

  /** A fixed-width integer of 64 bits is a `bigint`, and every other number a `number`: one of at most
      32 bits is a whole number a `number` holds exactly. */
  lemma NumbersAreHeld(scalar: Scalar, n: int)
    requires Bits(scalar) > 0
    ensures ScalarText(scalar) == "bigint" <==> scalar.U64? || scalar.I64?
    ensures ScalarText(scalar) == "number" <==> !(scalar.U64? || scalar.I64?)
    ensures Bits(scalar) <= 32 && IsRustInt(scalar, n) ==> -0x20_0000_0000_0000 < n < 0x20_0000_0000_0000
  {
    PowersOfTwo();
  }
}
