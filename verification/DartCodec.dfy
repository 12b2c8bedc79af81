/** The expressions a Dart class reads and writes a member through, as the emitter composes them over
    the member's type, and what Dart makes of them. */
module DartCodec {
  import opened Wrappers
  import opened Levels
  import opened Decimals
  import opened Texts
  import opened DartMaps

  // ----- what Dart holds -----

  /** A Dart value, decoded JSON among them: a record by position, a record by name, an arm of a
      `Result`'s class, and a map's entry while it is walked. */
  datatype Value =
    | Null
    | Bool(truth: bool)
    | Int(number: int)
    | Text(text: string)
    | List(items: seq<Value>)
    | Map(pairs: seq<Entry<Value, Value>>)
    | Record(parts: seq<Value>)
    | Labelled(labels: seq<string>, bounds: seq<Value>)
    | Arm(arm: string, held: Value)
    | MapEntry(pair: Entry<Value, Value>)

  type Pair = Entry<Value, Value>

  const UnitValue := Record([])

  predicate IsDartInt(n: int) {
    -0x8000_0000_0000_0000 <= n < 0x8000_0000_0000_0000
  }

  // ----- numbers as text -----

  /** `n.toString()` */
  function IntText(n: int): string {
    if n < 0 then "-" + NatText(-n) else NatText(n)
  }

  /** `int.parse(text)` of decimal digits, signed or not. */
  function IntOf(text: string): Option<int> {
    if text == [] then None
    else if text[0] == '-' then
      var magnitude := NatOf(text[1..]);
      if magnitude.None? || !IsDartInt(0 - magnitude.value) then None else Some(0 - magnitude.value)
    else
      var magnitude := NatOf(if text[0] == '+' then text[1..] else text);
      if magnitude.None? || !IsDartInt(magnitude.value) then None else Some(magnitude.value)
  }

  lemma IntReadsBack(n: int)
    requires IsDartInt(n)
    ensures IntOf(IntText(n)) == Some(n)
  {
    if n < 0 {
      NatReadsBack(-n);
      var digits: string := NatText(-n);
      assert ("-" + digits)[0] == '-' && ("-" + digits)[1..] == digits;
    } else {
      NatReadsBack(n);
      DigitsReadUnsigned(NatText(n), n);
    }
  }

  lemma DigitsReadUnsigned(digits: string, n: nat)
    requires digits != [] && AreDigits(digits) && NatOf(digits) == Some(n) && IsDartInt(n)
    ensures IntOf(digits) == Some(n)
  {
  }

  // ----- expressions -----

  /** What one value is made of another by: an element, a cast, a check, a key as text. */
  datatype Op =
    | Index(at: nat)
    | Key(key: string)
    | Place(at: nat)
    | Label(name: string)
    | KeyOfEntry
    | ValueOfEntry
    | CastBool
    | CastInt
    | CastText
    | CastList
    | CastObject
    | NotNull
    | ToBytes
    | ToUnit
    | Within(least: Option<int>, most: Option<int>)
    | SingleRune
    | TextToBool
    | BoolToText
    | TextToInt
    | IntToText

  datatype Shape = RecordShape | LabelledShape(labels: seq<string>) | ListShape | ObjectShape(labels: seq<string>)

  /** What the emitter writes. A name a construct declares is the one the emitter writes there, so that
      an expression put under one keeps its meaning or loses it as it would in Dart. */
  datatype Expr =
    | Var(name: string)
    | NullLiteral
    | Unary(op: Op, of: Expr)
    | NullOr(of: Expr, otherwise: Expr)
    | Mapped(of: Expr, body: Expr)
    | Sized(of: Expr, binder: string, length: nat, body: Expr)
    | KeysIn(of: Expr, keys: seq<string>, body: Expr)
    | Built(shape: Shape, parts: seq<Expr>)
    | ArmRead(of: Expr, okIsUnit: bool, errIsUnit: bool, ok: Expr, err: Expr)
    | ArmWrite(of: Expr, ok: Expr, err: Expr)
    | MappedEntries(of: Expr, entry: EntryBody)
    | Elsewhere

  function At(of: Expr, index: nat): Expr { Unary(Index(index), of) }
  function Under(of: Expr, key: string): Expr { Unary(Key(key), of) }
  function Part(of: Expr, index: nat): Expr { Unary(Place(index), of) }
  function AsList(of: Expr): Expr { Unary(CastList, of) }
  function AsObject(of: Expr): Expr { Unary(CastObject, of) }
  function AsText(of: Expr): Expr { Unary(CastText, of) }
  function Asserted(of: Expr): Expr { Unary(NotNull, of) }
  function OneRune(of: Expr): Expr { Unary(SingleRune, of) }

  /** `(e) => MapEntry(key, value)` */
  datatype EntryBody = EntryBody(key: Expr, value: Expr)

  type Scope = map<string, Value>

  /** `Map.fromEntries` */
  function FromEntries(pairs: seq<Pair>): seq<Pair> {
    if pairs == [] then [] else var last := pairs[|pairs| - 1]; Put(FromEntries(pairs[..|pairs| - 1]), last.key,
      last.value)
  }

  function Zipped(labels: seq<string>, values: seq<Value>): seq<Pair> {
    if labels == [] || values == [] then [] else [Entry(Text(labels[0]), values[0])] + Zipped(labels[1..], values[1..])
  }

  predicate Holds(n: int, least: Option<int>, most: Option<int>) {
    (least.Some? ==> n >= least.value) && (most.Some? ==> n <= most.value)
  }

  predicate AreBytes(items: seq<Value>) {
    forall i :: 0 <= i < |items| ==> items[i].Int? && 0 <= items[i].number < 256
  }

  predicate KeysAreIn(pairs: seq<Pair>, keys: seq<string>) {
    forall i :: 0 <= i < |pairs| ==> pairs[i].key.Text? && pairs[i].key.text in keys
  }

  predicate AreTextKeys(pairs: seq<Pair>) {
    forall i :: 0 <= i < |pairs| ==> pairs[i].key.Text?
  }

  /** What `op` makes of `v`, and none where it throws. */
  function Apply(op: Op, v: Value): Option<Value> {
    match op
    case Index(at) => if v.List? && at < |v.items| then Some(v.items[at]) else None
    case Key(key) =>
      if v.Map? then
        var held := Held(v.pairs, Text(key));
        Some(if held.Some? then held.value else Null)
      else None
    case Place(at) => if v.Record? && at < |v.parts| then Some(v.parts[at]) else None
    case Label(name) =>
      if v.Labelled? then
        var at := Position(v.labels, name);
        if at.Some? && at.value < |v.bounds| then Some(v.bounds[at.value]) else None
      else None
    case KeyOfEntry => if v.MapEntry? then Some(v.pair.key) else None
    case ValueOfEntry => if v.MapEntry? then Some(v.pair.value) else None
    case CastBool => if v.Bool? then Some(v) else None
    case CastInt => if v.Int? && IsDartInt(v.number) then Some(v) else None
    case CastText => if v.Text? then Some(v) else None
    case CastList => if v.List? then Some(v) else None
    case CastObject => if v.Map? && AreTextKeys(v.pairs) then Some(v) else None
    case NotNull => if v != Null then Some(v) else None
    case ToBytes => if v.List? && AreBytes(v.items) then Some(v) else None
    case ToUnit => if v == Null then Some(UnitValue) else None
    case Within(least, most) => if v.Int? && Holds(v.number, least, most) then Some(v) else None
    case SingleRune => if v.Text? && |v.text| == 1 then Some(v) else None
    case TextToBool => if v == Text("true") then Some(Bool(true)) else if v == Text("false") then Some(Bool(false))
      else None
    case BoolToText => if v.Bool? then Some(Text(if v.truth then "true" else "false")) else None
    case TextToInt =>
      if v.Text? then
        var n := IntOf(v.text);
        if n.Some? then Some(Int(n.value)) else None
      else None
    case IntToText => if v.Int? then Some(Text(IntText(v.number))) else None
  }

  function Shaped(shape: Shape, values: seq<Value>): Value {
    match shape
    case RecordShape => Record(values)
    case LabelledShape(labels) => Labelled(labels, values)
    case ListShape => List(values)
    case ObjectShape(labels) => Map(Zipped(labels, values))
  }

  /** The value of an expression, and none where evaluating it throws. */
  function Eval(e: Expr, scope: Scope): Option<Value>
    decreases e, 0
  {
    match e
    case Var(name) => if name in scope then Some(scope[name]) else None
    case NullLiteral => Some(Null)
    case Unary(op, of) =>
      var v := Eval(of, scope);
      if v.None? then None else Apply(op, v.value)
    case NullOr(of, otherwise) =>
      var v := Eval(of, scope);
      if v.None? then None else if v.value == Null then Some(Null) else Eval(otherwise, scope)
    case Mapped(of, body) =>
      var v := Eval(of, scope);
      if v.None? || !v.value.List? then None
      else
        var items := EvalEach(body, v.value.items, scope);
        if items.Some? then Some(List(items.value)) else None
    case Sized(of, binder, length, body) =>
      var v := Eval(of, scope);
      if v.Some? && v.value.List? && |v.value.items| == length then Eval(body, scope[binder := v.value]) else None
    case KeysIn(of, keys, body) =>
      var v := Eval(of, scope);
      if v.Some? && v.value.Map? && KeysAreIn(v.value.pairs, keys) then Eval(body, scope["range" := v.value]) else None
    case Built(shape, parts) =>
      var values := EvalAll(parts, scope);
      if values.Some? then Some(Shaped(shape, values.value)) else None
    case ArmRead(of, okIsUnit, errIsUnit, ok, err) =>
      var v := Eval(of, scope);
      if v.Some? && v.value.Map? && |v.value.pairs| == 1 then
        var pair := v.value.pairs[0];
        if pair.key == Text("Ok") && (okIsUnit ==> pair.value == Null) then
          if okIsUnit then Some(Arm("Ok", UnitValue)) else Armed("Ok", Eval(ok, scope["result" := v.value]))
        else if pair.key == Text("Err") && (errIsUnit ==> pair.value == Null) then
          if errIsUnit then Some(Arm("Err", UnitValue)) else Armed("Err", Eval(err, scope["result" := v.value]))
        else None
      else None
    case ArmWrite(of, ok, err) =>
      var v := Eval(of, scope);
      if v.None? || !v.value.Arm? then None
      else if v.value.arm == "Ok" then Eval(ok, scope["held" := v.value.held])
      else if v.value.arm == "Err" then Eval(err, scope["held" := v.value.held])
      else None
    case MappedEntries(of, entry) =>
      var v := Eval(of, scope);
      if v.None? || !v.value.Map? then None
      else
        var pairs := EvalPairs(entry, v.value.pairs, scope);
        if pairs.Some? then Some(Map(FromEntries(pairs.value))) else None
    case Elsewhere => None
  }

  function Armed(arm: string, v: Option<Value>): Option<Value> {
    if v.Some? then Some(Arm(arm, v.value)) else None
  }

  function EvalAll(parts: seq<Expr>, scope: Scope): Option<seq<Value>>
    decreases parts, 0
  {
    if parts == [] then Some([])
    else
      var first, rest := Eval(parts[0], scope), EvalAll(parts[1..], scope);
      if first.Some? && rest.Some? then Some([first.value] + rest.value) else None
  }

  /** `body` of each item, bound as `e`. */
  function EvalEach(body: Expr, items: seq<Value>, scope: Scope): Option<seq<Value>>
    decreases body, |items| + 1
  {
    if items == [] then Some([])
    else
      var first, rest := Eval(body, scope["e" := items[0]]), EvalEach(body, items[1..], scope);
      if first.Some? && rest.Some? then Some([first.value] + rest.value) else None
  }

  /** The entries `entry` makes of each, bound as `e`. */
  function EvalPairs(entry: EntryBody, pairs: seq<Pair>, scope: Scope): Option<seq<Pair>>
    decreases entry, |pairs| + 1
  {
    if pairs == [] then Some([])
    else
      var inner := scope["e" := MapEntry(pairs[0])];
      var key, value, rest := Eval(entry.key, inner), Eval(entry.value, inner), EvalPairs(entry, pairs[1..], scope);
      if key.Some? && value.Some? && rest.Some? then Some([Entry(key.value, value.value)] + rest.value) else None
  }

  // ----- the emitter -----

  function KindLabels(kind: RangeKind): seq<string> {
    match kind
    case RangeFrom => ["start"]
    case HalfOpen => ["start", "end"]
    case Inclusive => ["start", "end"]
    case RangeTo => ["end"]
  }

  /** The least and the most an integer type is read within, where a Dart `int` is not already. */
  function IntegerRange(scalar: Scalar): (Option<int>, Option<int>) {
    match scalar
    case U8 => (Some(0), Some(255))
    case U16 => (Some(0), Some(65_535))
    case U32 => (Some(0), Some(4_294_967_295))
    case U64 => (Some(0), None)
    case Usize => (Some(0), None)
    case I8 => (Some(-128), Some(127))
    case I16 => (Some(-32_768), Some(32_767))
    case I32 => (Some(-2_147_483_648), Some(2_147_483_647))
    case _ => (None, None)
  }

  predicate IsInteger(scalar: Scalar) {
    scalar.U8? || scalar.U16? || scalar.U32? || scalar.U64? || scalar.Usize?
    || scalar.I8? || scalar.I16? || scalar.I32? || scalar.I64? || scalar.Isize?
  }

  function HeldTo(scalar: Scalar, number: Expr): Expr {
    var (least, most) := IntegerRange(scalar);
    if least.None? && most.None? then number else Unary(Within(least, most), number)
  }

  predicate IsUnit(field: FieldDef) {
    field.depth == 0 && field.nullable == [] && field.base == Tuple([])
  }

  function DecodeScalar(scalar: Scalar, expr: Expr): Expr {
    if IsInteger(scalar) then HeldTo(scalar, Unary(CastInt, expr))
    else match scalar
      case Boolean => Unary(CastBool, expr)
      case String => AsText(expr)
      case Char => OneRune(AsText(expr))
      case Unknown => expr
      case _ => Elsewhere
  }

  function EncodeScalar(scalar: Scalar, expr: Expr): Expr {
    if IsInteger(scalar) then HeldTo(scalar, expr)
    else match scalar
      case Char => OneRune(expr)
      case Boolean => expr
      case String => expr
      case Unknown => expr
      case _ => Elsewhere
  }

  function SaturatingSub(a: nat, b: nat): nat {
    if a < b then 0 else a - b
  }

  function DecodeField(field: FieldDef, expr: Expr): Expr
    decreases field.base, field.depth + 1
  {
    var unwrapped := DecodeAt(field, field.depth, expr);
    if IsOptional(field) then NullOr(expr, unwrapped) else unwrapped
  }

  function DecodeAt(field: FieldDef, level: nat, expr: Expr): Expr
    decreases field.base, level
  {
    if level > 0 then
      var inner := DecodeAt(field, level - 1, Var("e"));
      var body := if IsMarked(field.nullable, level - 1) then NullOr(Var("e"), inner) else inner;
      var length := LengthAt(field.lengths, level - 1);
      if length.Some? then Sized(AsList(expr), "array", length.value, Mapped(Var("array"), body))
      else
        var listed := Mapped(AsList(expr), body);
        if field.bytes && level == 1 then Unary(ToBytes, listed) else listed
    else
      match field.base
      case Plain(scalar) => DecodeScalar(scalar, expr)
      case Tuple(elements) =>
        if elements == [] then Unary(ToUnit, expr)
        else Sized(AsList(expr), "tuple", |elements|, Built(RecordShape, DecodeElements(elements, 0)))
      case Range(kind, bound) =>
        KeysIn(AsObject(expr), KindLabels(kind),
          Built(LabelledShape(KindLabels(kind)), DecodeBounds(bound, KindLabels(kind))))
      case ResultOf(ok, err) =>
        ArmRead(AsObject(expr), IsUnit(ok), IsUnit(err),
          DecodeField(ok, Under(Var("result"), "Ok")), DecodeField(err, Under(Var("result"), "Err")))
      case MapOf(key, value) =>
        MappedEntries(AsObject(expr),
          EntryBody(DecodeKey(key, Unary(KeyOfEntry, Var("e"))), DecodeField(value, Unary(ValueOfEntry, Var("e")))))
      case Sibling(name, arguments) =>
        if |arguments| == 1 && IsSequenceWrapper(name) then
          var combined := CollectionElement(field, arguments[0]);
          DecodeAt(combined, SaturatingSub(combined.depth, field.depth), expr)
        else Elsewhere
      case TypeParam(_) => Elsewhere
  }

  function DecodeElements(elements: seq<FieldDef>, index: nat): seq<Expr>
    decreases elements
  {
    if elements == [] then []
    else [DecodeField(elements[0], At(Var("tuple"), index))] + DecodeElements(elements[1..], index + 1)
  }

  function DecodeBounds(bound: FieldDef, labels: seq<string>): seq<Expr>
    decreases bound, |labels|
  {
    if labels == [] then [] else [DecodeField(bound, Under(Var("range"), labels[0]))] + DecodeBounds(bound, labels[1..])
  }

  predicate IsKeyScalar(scalar: Scalar) {
    IsInteger(scalar) || scalar.Boolean? || scalar.String? || scalar.Char?
  }

  /** A key of a type whose text is not its JSON, or needs no cast. */
  predicate HasKeyForm(key: FieldDef) {
    key.base.Plain? && IsKeyScalar(key.base.scalar) && (key.base.scalar.Boolean? ==> key.depth == 0 && !IsOptional(key))
  }

  function DecodeScalarKey(scalar: Scalar, expr: Expr): Expr {
    if IsInteger(scalar) then HeldTo(scalar, Unary(TextToInt, expr))
    else if scalar.Boolean? then Unary(TextToBool, expr)
    else if scalar.Char? then OneRune(expr)
    else expr
  }

  function EncodeScalarKey(scalar: Scalar, expr: Expr): Expr {
    if IsInteger(scalar) then Unary(IntToText, HeldTo(scalar, expr))
    else if scalar.Boolean? then Unary(BoolToText, expr)
    else if scalar.Char? then OneRune(expr)
    else expr
  }

  function DecodeKey(key: FieldDef, expr: Expr): Expr
    decreases key.base, key.depth + 2
  {
    if HasKeyForm(key) then DecodeScalarKey(key.base.scalar, expr) else DecodeField(key, expr)
  }

  /** `promoted`: Dart narrows `expr` to what is not null once it is asked whether it is. */
  function EncodeField(field: FieldDef, expr: Expr, promoted: bool): Expr
    decreases field.base, field.depth + 1
  {
    var unwrapped := EncodeAt(field, field.depth, expr);
    if !IsOptional(field) then unwrapped
    else if promoted || unwrapped == expr then NullOr(expr, unwrapped)
    else NullOr(expr, EncodeAt(field, field.depth, Asserted(expr)))
  }

  function EncodeAt(field: FieldDef, level: nat, expr: Expr): Expr
    decreases field.base, level
  {
    if level > 0 then
      var inner := EncodeAt(field, level - 1, Var("e"));
      Mapped(expr, if IsMarked(field.nullable, level - 1) then NullOr(Var("e"), inner) else inner)
    else
      match field.base
      case Plain(scalar) => EncodeScalar(scalar, expr)
      case Tuple(elements) => if elements == [] then NullLiteral
        else Built(ListShape, EncodeElements(elements, expr, 0))
      case Range(kind, bound) => Built(ObjectShape(KindLabels(kind)), EncodeBounds(bound, expr, KindLabels(kind)))
      case ResultOf(ok, err) =>
        ArmWrite(expr,
          Built(ObjectShape(["Ok"]), [if IsUnit(ok) then NullLiteral else EncodeField(ok, Var("held"), true)]),
          Built(ObjectShape(["Err"]), [if IsUnit(err) then NullLiteral else EncodeField(err, Var("held"), true)]))
      case MapOf(key, value) =>
        MappedEntries(expr, EntryBody(EncodeKey(key, Unary(KeyOfEntry, Var("e"))), EncodeField(value,
          Unary(ValueOfEntry, Var("e")), false)))
      case Sibling(name, arguments) =>
        if |arguments| == 1 && IsSequenceWrapper(name) then
          var combined := CollectionElement(field, arguments[0]);
          EncodeAt(combined, SaturatingSub(combined.depth, field.depth), expr)
        else Elsewhere
      case TypeParam(_) => Elsewhere
  }

  function EncodeElements(elements: seq<FieldDef>, expr: Expr, index: nat): seq<Expr>
    decreases elements
  {
    if elements == [] then []
    else [EncodeField(elements[0], Part(expr, index), false)] + EncodeElements(elements[1..], expr, index + 1)
  }

  function EncodeBounds(bound: FieldDef, expr: Expr, labels: seq<string>): seq<Expr>
    decreases bound, |labels|
  {
    if labels == [] then []
    else [EncodeField(bound, Unary(Label(labels[0]), expr), false)] + EncodeBounds(bound, expr, labels[1..])
  }

  function EncodeKey(key: FieldDef, expr: Expr): Expr
    decreases key.base, key.depth + 2
  {
    if HasKeyForm(key) then EncodeScalarKey(key.base.scalar, expr) else AsText(EncodeField(key, expr, false))
  }
}
