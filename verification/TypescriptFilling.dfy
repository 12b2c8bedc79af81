/** Filling the placeholders of a spelling spells the filled field: substitution in the text is
    substitution in the type. */
module TypescriptFilling {
  import opened Wrappers
  import opened Levels
  import opened Filling
  import opened Texts
  import opened Typescript
  import P = Placeholders

  // ----- placeholders for parameters -----

  /** `field` with each of the item's own parameters spelled as the placeholder of its position. */
  function Placed(field: FieldDef, parameters: seq<string>): FieldDef
    decreases field, 1
  {
    field.(base := PlacedBase(field.base, parameters))
  }

  function PlacedBase(base: FieldBase, parameters: seq<string>): FieldBase
    decreases base, 0
  {
    match base
    case Tuple(elements) => Tuple(PlacedAll(elements, parameters))
    case Range(kind, bound) => Range(kind, Placed(bound, parameters))
    case ResultOf(ok, err) => ResultOf(Placed(ok, parameters), Placed(err, parameters))
    case MapOf(key, value) => MapOf(Placed(key, parameters), Placed(value, parameters))
    case Sibling(name, arguments) => Sibling(name, PlacedAll(arguments, parameters))
    case TypeParam(name) =>
      var at := Position(parameters, name);
      if at.Some? then TypeParam(P.Placeholder(at.value)) else base
    case Plain(_) => base
  }

  function PlacedAll(fields: seq<FieldDef>, parameters: seq<string>): seq<FieldDef>
    decreases fields, 0
  {
    if fields == [] then [] else [Placed(fields[0], parameters)] + PlacedAll(fields[1..], parameters)
  }

  /** What a holder writes at a position: its argument there. */
  function Fillings(arguments: seq<FieldDef>): P.Filling {
    (at: nat) => if at < |arguments| then Some(SlotText(arguments[at])) else None
  }

  // ----- which fields -----

  /** `base` holds none of `parameters`. */
  predicate IsFree(base: FieldBase, parameters: seq<string>)
    decreases base, 0
  {
    match base
    case Plain(_) => true
    case Tuple(elements) => AllFree(elements, parameters)
    case Range(_, bound) => IsFree(bound.base, parameters)
    case ResultOf(ok, err) => IsFree(ok.base, parameters) && IsFree(err.base, parameters)
    case MapOf(key, value) => IsFree(key.base, parameters) && IsFree(value.base, parameters)
    case Sibling(_, arguments) => AllFree(arguments, parameters)
    case TypeParam(name) => Position(parameters, name).None?
  }

  predicate AllFree(fields: seq<FieldDef>, parameters: seq<string>)
    decreases fields, 0
  {
    fields == [] || (IsFree(fields[0].base, parameters) && AllFree(fields[1..], parameters))
  }

  /** Each parameter has an argument, that is no `Option` and fits under the levels it is written under;
      no map is keyed by one; and no name is spelled with a placeholder's opening. */
  ghost predicate Fillable(field: FieldDef, parameters: seq<string>, arguments: seq<FieldDef>)
    decreases field, 1
  {
    if field.base.TypeParam? && Position(parameters, field.base.parameter).Some? then
      var at := Position(parameters, field.base.parameter).value;
      at < |arguments| && Fits(field, arguments[at]) && !field.bytes && !IsOptional(arguments[at])
    else FillableBase(field.base, parameters, arguments)
  }

  ghost predicate FillableBase(base: FieldBase, parameters: seq<string>, arguments: seq<FieldDef>)
    decreases base, 0
  {
    match base
    case Plain(_) => true
    case Tuple(elements) => AllFillable(elements, parameters, arguments)
    case Range(_, bound) => Fillable(bound, parameters, arguments)
    case ResultOf(ok, err) => Fillable(ok, parameters, arguments) && Fillable(err, parameters, arguments)
    case MapOf(key, value) => IsFree(key.base, parameters) && P.IsPlain(KeyText(key))
      && Fillable(value, parameters, arguments)
    case Sibling(name, generics) => P.IsPlain(name) && AllFillable(generics, parameters, arguments)
    case TypeParam(name) => P.IsPlain(name) && Position(parameters, name).None?
  }

  ghost predicate AllFillable(fields: seq<FieldDef>, parameters: seq<string>, arguments: seq<FieldDef>)
    decreases fields, 0
  {
    fields == [] || (Fillable(fields[0], parameters, arguments) && AllFillable(fields[1..], parameters, arguments))
  }

  lemma {:induction false} FreeIsKept(base: FieldBase, parameters: seq<string>, arguments: seq<FieldDef>)
    requires IsFree(base, parameters)
    ensures PlacedBase(base, parameters) == base
    ensures FilledBase(base, parameters, arguments) == base
    decreases base, 0
  {
    match base
    case Plain(_) =>
    case Tuple(elements) => AllFreeAreKept(elements, parameters, arguments);
    case Range(_, bound) => FreeFieldIsKept(bound, parameters, arguments);
    case ResultOf(ok, err) =>
      FreeFieldIsKept(ok, parameters, arguments);
      FreeFieldIsKept(err, parameters, arguments);
    case MapOf(key, value) =>
      FreeFieldIsKept(key, parameters, arguments);
      FreeFieldIsKept(value, parameters, arguments);
    case Sibling(_, generics) => AllFreeAreKept(generics, parameters, arguments);
    case TypeParam(_) =>
  }

  lemma {:induction false} FreeFieldIsKept(field: FieldDef, parameters: seq<string>, arguments: seq<FieldDef>)
    requires IsFree(field.base, parameters)
    ensures Placed(field, parameters) == field && Filled(field, parameters, arguments) == field
    decreases field, 0
  {
    FreeIsKept(field.base, parameters, arguments);
  }

  lemma {:induction false} AllFreeAreKept(fields: seq<FieldDef>, parameters: seq<string>, arguments: seq<FieldDef>)
    requires AllFree(fields, parameters)
    ensures PlacedAll(fields, parameters) == fields && FilledAll(fields, parameters, arguments) == fields
    decreases fields, 0
  {
    if fields != [] {
      FreeFieldIsKept(fields[0], parameters, arguments);
      AllFreeAreKept(fields[1..], parameters, arguments);
    }
  }

  // ----- text that fills to text -----

  /** Ahead of `rest`, `x` is filled to `y`. */
  ghost predicate FillsAhead(x: string, y: string, filling: P.Filling, rest: string) {
    P.Filled(x + rest, filling) == P.Led(y, P.Filled(rest, filling))
  }

  /** Wherever no name goes on after it, `x` is filled to `y`. */
  ghost predicate FillsTo(x: string, y: string, filling: P.Filling) {
    forall rest {:trigger FillsAhead(x, y, filling, rest)} :: P.Follows(rest) ==> FillsAhead(x, y, filling, rest)
  }

  lemma {:induction false} ShortIsPlain(text: string)
    requires |text| < 22
    ensures P.IsPlain(text)
  {
    P.OpensIsName();
    if text != [] {
      ShortIsPlain(text[1..]);
    }
  }

  lemma PlainFills(text: string, filling: P.Filling)
    requires P.IsPlain(text)
    ensures FillsTo(text, text, filling)
  {
    forall rest | P.Follows(rest) ensures FillsAhead(text, text, filling, rest) {
      P.PlainBeforeBreak(text, rest);
      P.KeptPast(text, rest, filling);
    }
  }

  /** A mark that no name goes on after, ahead of text that is filled. */
  lemma FillsAfter(mark: string, x: string, y: string, filling: P.Filling)
    requires 0 < |mark| < 22 && !P.IsNameChar(mark[|mark| - 1]) && FillsTo(x, y, filling)
    ensures FillsTo(mark + x, mark + y, filling)
  {
    ShortIsPlain(mark);
    forall rest | P.Follows(rest) ensures FillsAhead(mark + x, mark + y, filling, rest) {
      P.PlainBreak(mark, x + rest);
      P.KeptPast(mark, x + rest, filling);
      assert FillsAhead(x, y, filling, rest);
      Joined(mark, x, rest, y, filling);
    }
  }

  /** Two texts one after another are filled one after another. */
  lemma Joined(x: string, after: string, rest: string, y: string, filling: P.Filling)
    ensures x + after + rest == x + (after + rest)
    ensures P.Led(x, P.Led(y, P.Filled(rest, filling))) == P.Led(x + y, P.Filled(rest, filling))
  {
    P.LedMore(x, y, P.Filled(rest, filling));
  }

  /** Text that is filled, ahead of text that begins with no part of a name and is filled. */
  lemma FillsBefore(x: string, y: string, after: string, afterFilled: string, filling: P.Filling)
    requires FillsTo(x, y, filling) && FillsTo(after, afterFilled, filling)
    requires after != [] && !P.IsNameChar(after[0])
    ensures FillsTo(x + after, y + afterFilled, filling)
  {
    forall rest | P.Follows(rest) ensures FillsAhead(x + after, y + afterFilled, filling, rest) {
      assert P.Follows(after + rest) by {
        assert (after + rest)[0] == after[0];
      }
      assert FillsAhead(after, afterFilled, filling, rest) && FillsAhead(x, y, filling, after + rest);
      assert x + after + rest == x + (after + rest);
      P.LedMore(y, afterFilled, P.Filled(rest, filling));
    }
  }

  /** `open`, text that is filled, and `close`. */
  lemma Enclosed(open: string, x: string, y: string, close: string, closeFilled: string, filling: P.Filling)
    requires 0 < |open| < 22 && !P.IsNameChar(open[|open| - 1]) && FillsTo(x, y, filling)
    requires FillsTo(close, closeFilled, filling) && close != [] && !P.IsNameChar(close[0])
    ensures FillsTo(open + (x + close), open + (y + closeFilled), filling)
  {
    FillsBefore(x, y, close, closeFilled, filling);
    FillsAfter(open, x + close, y + closeFilled, filling);
  }

  lemma ShortFills(text: string, filling: P.Filling)
    requires |text| < 22
    ensures FillsTo(text, text, filling)
  {
    ShortIsPlain(text);
    PlainFills(text, filling);
  }

  lemma {:induction false} LevelFills(field: FieldDef, level: nat, x: string, y: string, filling: P.Filling)
    requires FillsTo(x, y, filling)
    ensures FillsTo(BareText(field, level, x), BareText(field, level, y), filling)
    ensures FillsTo(LevelText(field, level, x), LevelText(field, level, y), filling)
  {
    if level > 0 {
      if level == 1 && field.bytes {
        ShortFills("Uint8Array", filling);
      } else {
        LevelFills(field, level - 1, x, y, filling);
        ArrayFills(LevelText(field, level - 1, x), LevelText(field, level - 1, y), filling);
      }
    }
    OrNullFills(IsMarked(field.nullable, level), BareText(field, level, x), BareText(field, level, y), filling);
  }

  lemma ArrayFills(x: string, y: string, filling: P.Filling)
    requires FillsTo(x, y, filling)
    ensures FillsTo("Array<" + (x + ">"), "Array<" + (y + ">"), filling)
  {
    ShortFills(">", filling);
    Enclosed("Array<", x, y, ">", ">", filling);
  }

  lemma OrNullFills(optional: bool, x: string, y: string, filling: P.Filling)
    requires FillsTo(x, y, filling)
    ensures FillsTo(OrNull(optional, x), OrNull(optional, y), filling)
  {
    ShortFills(" | null", filling);
    FillsBefore(x, y, " | null", " | null", filling);
  }

  // ----- a field's spelling -----

  ghost predicate SlotFills(field: FieldDef, parameters: seq<string>, arguments: seq<FieldDef>) {
    FillsTo(SlotText(Placed(field, parameters)), SlotText(Filled(field, parameters, arguments)), Fillings(arguments))
  }

  lemma {:induction false} SlotIsFilled(field: FieldDef, parameters: seq<string>, arguments: seq<FieldDef>)
    requires Fillable(field, parameters, arguments)
    ensures SlotFills(field, parameters, arguments)
    decreases field, 1
  {
    if field.base.TypeParam? && Position(parameters, field.base.parameter).Some? {
      ParameterIsFilled(field, parameters, arguments);
    } else {
      OwnIsFilled(field.base, parameters, arguments);
      SlotTextOf(field, PlacedBase(field.base, parameters));
      SlotTextOf(field, FilledBase(field.base, parameters, arguments));
      LevelFills(field, field.depth, OwnText(PlacedBase(field.base, parameters)),
        OwnText(FilledBase(field.base, parameters, arguments)), Fillings(arguments));
    }
  }

  lemma SlotTextOf(field: FieldDef, base: FieldBase)
    ensures SlotText(field.(base := base)) == LevelText(field, field.depth, OwnText(base))
  {
    SameLevelText(field, field.(base := base), field.depth, OwnText(base));
  }

  lemma ParameterIsFilled(field: FieldDef, parameters: seq<string>, arguments: seq<FieldDef>)
    requires field.base.TypeParam? && Position(parameters, field.base.parameter).Some?
      && Fillable(field, parameters, arguments)
    ensures SlotFills(field, parameters, arguments)
  {
    var at := Position(parameters, field.base.parameter).value;
    PlaceholderFills(at, SlotText(arguments[at]), Fillings(arguments));
    StackedIsSpelledAround(field, arguments[at]);
    LevelFills(field, field.depth, P.Placeholder(at), SlotText(arguments[at]), Fillings(arguments));
    SlotTextOf(field, TypeParam(P.Placeholder(at)));
  }

  lemma PlaceholderFills(at: nat, y: string, filling: P.Filling)
    requires filling(at) == Some(y)
    ensures FillsTo(P.Placeholder(at), y, filling)
  {
    forall rest | P.Follows(rest) ensures FillsAhead(P.Placeholder(at), y, filling, rest) {
      P.PlaceholderIsFilled(at, rest, filling);
    }
  }

  lemma {:induction false} SameLevelText(one: FieldDef, other: FieldDef, level: nat, t: string)
    requires one.nullable == other.nullable && one.bytes == other.bytes
    ensures BareText(one, level, t) == BareText(other, level, t)
      && LevelText(one, level, t) == LevelText(other, level, t)
  {
    if level > 0 {
      SameLevelText(one, other, level - 1, t);
    }
  }

  ghost predicate OwnFills(base: FieldBase, parameters: seq<string>, arguments: seq<FieldDef>) {
    FillsTo(OwnText(PlacedBase(base, parameters)), OwnText(FilledBase(base, parameters, arguments)),
      Fillings(arguments))
  }

  lemma {:induction false} OwnIsFilled(base: FieldBase, parameters: seq<string>, arguments: seq<FieldDef>)
    requires FillableBase(base, parameters, arguments)
    ensures OwnFills(base, parameters, arguments)
    decreases base, 2
  {
    var filling := Fillings(arguments);
    match base
    case Plain(scalar) => ShortFills(ScalarText(scalar), filling);
    case Tuple(elements) => TupleIsFilled(elements, parameters, arguments);
    case Range(kind, bound) => RangeIsFilled(kind, bound, parameters, arguments);
    case ResultOf(ok, err) => ResultIsFilled(ok, err, parameters, arguments);
    case MapOf(key, value) => MapIsFilled(key, value, parameters, arguments);
    case Sibling(name, generics) => NamedIsFilled(name, generics, parameters, arguments);
    case TypeParam(name) => PlainFills(name, filling);
  }

  lemma {:induction false} TupleIsFilled(elements: seq<FieldDef>, parameters: seq<string>, arguments: seq<FieldDef>)
    requires AllFillable(elements, parameters, arguments)
    ensures OwnFills(Tuple(elements), parameters, arguments)
    decreases elements, 1
  {
    var filling := Fillings(arguments);
    if elements == [] {
      ShortFills("null", filling);
    } else {
      JoinedIsFilled(elements, parameters, arguments);
      ShortFills("]", filling);
      Enclosed("[", JoinedText(PlacedAll(elements, parameters)),
        JoinedText(FilledAll(elements, parameters, arguments)), "]", "]", filling);
    }
  }

  lemma {:induction false} JoinedIsFilled(fields: seq<FieldDef>, parameters: seq<string>, arguments: seq<FieldDef>)
    requires fields != [] && AllFillable(fields, parameters, arguments)
    ensures PlacedAll(fields, parameters) != [] && FilledAll(fields, parameters, arguments) != []
    ensures |PlacedAll(fields, parameters)| == |fields| == |FilledAll(fields, parameters, arguments)|
    ensures FillsTo(JoinedText(PlacedAll(fields, parameters)), JoinedText(FilledAll(fields, parameters, arguments)),
      Fillings(arguments))
    decreases fields, 0
  {
    var placed, filled := PlacedAll(fields, parameters), FilledAll(fields, parameters, arguments);
    var filling := Fillings(arguments);
    SlotIsFilled(fields[0], parameters, arguments);
    if |fields| > 1 {
      JoinedIsFilled(fields[1..], parameters, arguments);
      assert placed[1..] == PlacedAll(fields[1..], parameters)
        && filled[1..] == FilledAll(fields[1..], parameters, arguments);
      FillsAfter(", ", JoinedText(placed[1..]), JoinedText(filled[1..]), filling);
      FillsBefore(SlotText(placed[0]), SlotText(filled[0]), ", " + JoinedText(placed[1..]), ", "
        + JoinedText(filled[1..]), filling);
    } else {
      assert PlacedAll(fields[1..], parameters) == [] && FilledAll(fields[1..], parameters, arguments) == [];
    }
  }

  lemma {:induction false} RangeIsFilled(kind: RangeKind, bound: FieldDef, parameters: seq<string>,
      arguments: seq<FieldDef>)
    requires Fillable(bound, parameters, arguments)
    ensures OwnFills(Range(kind, bound), parameters, arguments)
    decreases bound, 2
  {
    var filling := Fillings(arguments);
    var x, y := SlotText(Placed(bound, parameters)), SlotText(Filled(bound, parameters, arguments));
    SlotIsFilled(bound, parameters, arguments);
    ShortFills(" }", filling);
    Enclosed("; end: ", x, y, " }", " }", filling);
    match kind
    case RangeFrom => Enclosed("{ start: ", x, y, " }", " }", filling);
    case RangeTo => Enclosed("{ end: ", x, y, " }", " }", filling);
    case HalfOpen => Enclosed("{ start: ", x, y, "; end: " + (x + " }"), "; end: " + (y + " }"), filling);
    case Inclusive => Enclosed("{ start: ", x, y, "; end: " + (x + " }"), "; end: " + (y + " }"), filling);
  }

  lemma {:induction false} ResultIsFilled(ok: FieldDef, err: FieldDef, parameters: seq<string>,
      arguments: seq<FieldDef>)
    requires Fillable(ok, parameters, arguments) && Fillable(err, parameters, arguments)
    ensures OwnFills(ResultOf(ok, err), parameters, arguments)
    decreases ResultOf(ok, err), 1
  {
    SlotIsFilled(ok, parameters, arguments);
    SlotIsFilled(err, parameters, arguments);
    ArmsFill(SlotText(Placed(ok, parameters)), SlotText(Filled(ok, parameters, arguments)),
      SlotText(Placed(err, parameters)), SlotText(Filled(err, parameters, arguments)), Fillings(arguments));
  }

  lemma ArmsFill(ok: string, okFilled: string, err: string, errFilled: string, filling: P.Filling)
    requires FillsTo(ok, okFilled, filling) && FillsTo(err, errFilled, filling)
    ensures FillsTo("{ Ok: " + (ok + (" } | { Err: " + (err + " }"))), "{ Ok: "
      + (okFilled + (" } | { Err: " + (errFilled + " }"))), filling)
  {
    ShortFills(" }", filling);
    Enclosed(" } | { Err: ", err, errFilled, " }", " }", filling);
    Enclosed("{ Ok: ", ok, okFilled, " } | { Err: " + (err + " }"), " } | { Err: " + (errFilled + " }"), filling);
  }

  lemma {:induction false} MapIsFilled(key: FieldDef, value: FieldDef, parameters: seq<string>,
      arguments: seq<FieldDef>)
    requires IsFree(key.base, parameters) && P.IsPlain(KeyText(key)) && Fillable(value, parameters, arguments)
    ensures OwnFills(MapOf(key, value), parameters, arguments)
    decreases value, 2
  {
    var filling := Fillings(arguments);
    FreeFieldIsKept(key, parameters, arguments);
    SlotIsFilled(value, parameters, arguments);
    ShortFills(">>", filling);
    PlainFills(KeyText(key), filling);
    var x, y := SlotText(Placed(value, parameters)), SlotText(Filled(value, parameters, arguments));
    Enclosed(", ", x, y, ">>", ">>", filling);
    Enclosed("Partial<Record<", KeyText(key), KeyText(key), ", " + (x + ">>"), ", " + (y + ">>"), filling);
  }

  lemma {:induction false} NamedIsFilled(name: string, generics: seq<FieldDef>, parameters: seq<string>,
      arguments: seq<FieldDef>)
    requires P.IsPlain(name) && AllFillable(generics, parameters, arguments)
    ensures OwnFills(Sibling(name, generics), parameters, arguments)
    decreases generics, 1
  {
    PlainFills(name, Fillings(arguments));
    if generics != [] {
      JoinedIsFilled(generics, parameters, arguments);
      var x, y := JoinedText(PlacedAll(generics, parameters)), JoinedText(FilledAll(generics, parameters, arguments));
      ArgumentsFill(name, x, y, Fillings(arguments));
    }
  }

  lemma ArgumentsFill(name: string, x: string, y: string, filling: P.Filling)
    requires P.IsPlain(name) && FillsTo(x, y, filling)
    ensures FillsTo("Array<" + (x + ">"), "Array<" + (y + ">"), filling)
    ensures FillsTo(name + ("<" + (x + ">")), name + ("<" + (y + ">")), filling)
  {
    ShortFills(">", filling);
    Enclosed("Array<", x, y, ">", ">", filling);
    Enclosed("<", x, y, ">", ">", filling);
    PlainFills(name, filling);
    FillsBefore(name, name, "<" + (x + ">"), "<" + (y + ">"), filling);
  }

  /** Filling the placeholders in a published spelling with the arguments' spellings spells the field
      that the arguments fill. */
  lemma TextFillingIsTypeFilling(field: FieldDef, parameters: seq<string>, arguments: seq<FieldDef>)
    requires Fillable(field, parameters, arguments)
    ensures P.Filled(SlotText(Placed(field, parameters)), Fillings(arguments))
      == Some(SlotText(Filled(field, parameters, arguments)))
  {
    SlotIsFilled(field, parameters, arguments);
    var x, y := SlotText(Placed(field, parameters)), SlotText(Filled(field, parameters, arguments));
    assert FillsAhead(x, y, Fillings(arguments), "");
    NothingIsFilled(Fillings(arguments));
    assert x + "" == x && y + "" == y;
  }

  lemma NothingIsFilled(filling: P.Filling)
    ensures P.Filled("", filling) == Some("")
  {
    ShortIsPlain("");
    assert P.Pieces("") == [""];
    assert P.FilledPieces([""][1..], filling) == Some("");
    assert "" + "" == "";
  }
}
