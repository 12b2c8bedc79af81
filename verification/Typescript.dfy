/** The TypeScript spelling of a field, and the spelling of an item published with placeholders for its
    parameters: filling the placeholders in the text spells the field the arguments make. */
module Typescript {
  import opened Wrappers
  import opened Levels

  // ----- the spelling -----

  function ScalarText(scalar: Scalar): string {
    match scalar
    case Boolean => "boolean"
    case Char => "string"
    case String => "string"
    case Unknown => "unknown"
    case U64 => "bigint"
    case I64 => "bigint"
    case _ => "number"
  }

  function OrNull(optional: bool, text: string): string {
    if optional then text + " | null" else text
  }

  /** `t` under the array levels of `field` up to `level`. */
  function BareText(field: FieldDef, level: nat, t: string): string
    decreases level, 0
  {
    if level == 0 then t
    else if level == 1 && field.bytes then "Uint8Array"
    else "Array<" + (LevelText(field, level - 1, t) + ">")
  }

  function LevelText(field: FieldDef, level: nat, t: string): string
    decreases level, 1
  {
    OrNull(IsMarked(field.nullable, level), BareText(field, level, t))
  }

  /** The spelling before the field's own `Option`. */
  function Base(field: FieldDef): string
    decreases field, 0
  {
    BareText(field, field.depth, OwnText(field.base))
  }

  /** The spelling where an absent value is written `null`. */
  function SlotText(field: FieldDef): string
    decreases field, 0
  {
    LevelText(field, field.depth, OwnText(field.base))
  }

  function OwnText(base: FieldBase): string
    decreases base, 0
  {
    match base
    case Plain(scalar) => ScalarText(scalar)
    case Tuple(elements) => if elements == [] then "null" else "[" + (JoinedText(elements) + "]")
    case Range(kind, bound) =>
      (match kind
       case RangeFrom => "{ start: " + (SlotText(bound) + " }")
       case RangeTo => "{ end: " + (SlotText(bound) + " }")
       case _ => "{ start: " + (SlotText(bound) + ("; end: " + (SlotText(bound) + " }"))))
    case ResultOf(ok, err) => "{ Ok: " + (SlotText(ok) + (" } | { Err: " + (SlotText(err) + " }")))
    case MapOf(key, value) => "Partial<Record<" + (KeyText(key) + (", " + (SlotText(value) + ">>")))
    case Sibling(name, arguments) =>
      if |arguments| == 1 && IsSequenceWrapper(name) then "Array<" + (SlotText(arguments[0]) + ">")
      else if arguments == [] then name
      else name + ("<" + (JoinedText(arguments) + ">"))
    case TypeParam(parameter) => parameter
  }

  function JoinedText(fields: seq<FieldDef>): string
    decreases fields, 0
  {
    if fields == [] then ""
    else if |fields| == 1 then SlotText(fields[0])
    else SlotText(fields[0]) + (", " + JoinedText(fields[1..]))
  }

  function KeyText(key: FieldDef): string
    decreases key, 1
  {
    var plainly := key.depth == 0 && !IsOptional(key);
    if key.base.TypeParam? then "string"
    else if plainly && key.base == Plain(Boolean) then "\"true\" | \"false\""
    else if plainly && (key.base == Plain(U64) || key.base == Plain(I64)) then "number"
    else if IsOptional(key) then Base(key) + " | undefined"
    else Base(key)
  }

  // ----- the spelling as it is written -----

  /** No collection is written as a `Vec` by name: reading a type makes each one a level. */
  predicate AsRead(base: FieldBase)
    decreases base, 0
  {
    match base
    case Tuple(elements) => AllAsRead(elements)
    case Range(_, bound) => AsRead(bound.base)
    case ResultOf(ok, err) => AsRead(ok.base) && AsRead(err.base)
    case MapOf(key, value) => AsRead(key.base) && AsRead(value.base)
    case Sibling(name, arguments) => !(|arguments| == 1 && name == "Vec") && AllAsRead(arguments)
    case _ => true
  }

  predicate AllAsRead(fields: seq<FieldDef>)
    decreases fields, 0
  {
    fields == [] || (AsRead(fields[0].base) && AllAsRead(fields[1..]))
  }

  method TypescriptBase(field: FieldDef) returns (text: string)
    requires Readable(field) && AsRead(field.base)
    ensures text == Base(field)
    decreases field.base, 2
  {
    if field.base.Sibling? && |field.base.arguments| == 1 && IsSequenceWrapper(field.base.name) {
      var element := field.base.arguments[0];
      assert field.base.arguments == [element];
      CombinedIsTheCollection(field, element);
      CollectionIsSpelledAsItsElements(field, element);
      text := TypescriptBase(CollectionElement(field, element));
    } else {
      text := TypescriptOwn(field.base);
      for level := 0 to field.depth
        invariant text == BareText(field, level, OwnText(field.base))
      {
        if level == 0 && field.bytes {
          text := "Uint8Array";
        } else {
          text := "Array<" + (OrNull(IsMarked(field.nullable, level), text) + ">");
        }
      }
    }
  }

  method TypescriptSlot(field: FieldDef) returns (text: string)
    requires Readable(field) && AsRead(field.base)
    ensures text == SlotText(field)
    decreases field.base, 3
  {
    text := TypescriptBase(field);
    text := OrNull(IsOptional(field), text);
  }

  method TypescriptOwn(base: FieldBase) returns (text: string)
    requires ReadableBase(base) && AsRead(base)
    requires !(base.Sibling? && |base.arguments| == 1 && IsSequenceWrapper(base.name))
    ensures text == OwnText(base)
    decreases base, 1
  {
    match base {
      case Plain(scalar) => text := ScalarText(scalar);
      case Tuple(elements) =>
        if elements == [] {
          text := "null";
        } else {
          var joined := TypescriptJoined(elements);
          text := "[" + (joined + "]");
        }
      case Range(kind, bound) =>
        var held := TypescriptSlot(bound);
        match kind {
          case RangeFrom => text := "{ start: " + (held + " }");
          case RangeTo => text := "{ end: " + (held + " }");
          case _ => text := "{ start: " + (held + ("; end: " + (held + " }")));
        }
      case ResultOf(ok, err) =>
        var okText := TypescriptSlot(ok);
        var errText := TypescriptSlot(err);
        text := "{ Ok: " + (okText + (" } | { Err: " + (errText + " }")));
      case MapOf(key, value) =>
        var keyText := TypescriptKey(key);
        var valueText := TypescriptSlot(value);
        text := "Partial<Record<" + (keyText + (", " + (valueText + ">>")));
      case Sibling(name, arguments) =>
        if arguments == [] {
          text := name;
        } else {
          var joined := TypescriptJoined(arguments);
          text := name + ("<" + (joined + ">"));
        }
      case TypeParam(parameter) => text := parameter;
    }
  }

  method TypescriptKey(key: FieldDef) returns (text: string)
    requires Readable(key) && AsRead(key.base)
    ensures text == KeyText(key)
    decreases key.base, 3
  {
    var plainly := key.depth == 0 && !IsOptional(key);
    if key.base.TypeParam? {
      text := "string";
    } else if plainly && key.base == Plain(Boolean) {
      text := "\"true\" | \"false\"";
    } else if plainly && (key.base == Plain(U64) || key.base == Plain(I64)) {
      text := "number";
    } else {
      text := TypescriptBase(key);
      if IsOptional(key) {
        text := text + " | undefined";
      }
    }
  }

  method TypescriptJoined(fields: seq<FieldDef>) returns (text: string)
    requires fields != [] && AllReadable(fields) && AllAsRead(fields)
    ensures text == JoinedText(fields)
    decreases fields
  {
    text := TypescriptSlot(fields[0]);
    if |fields| > 1 {
      var more := TypescriptJoined(fields[1..]);
      text := text + (", " + more);
    }
  }

  // ----- stacked levels are spelled around what they hold -----

  lemma StackedOptions(field: FieldDef, held: FieldDef, level: nat)
    requires Fits(field, held)
    ensures IsMarked(Stacked(field, held).nullable, level)
       <==>
         || (level <= held.depth && IsMarked(held.nullable, level))
         || (level >= held.depth && IsMarked(field.nullable, level - held.depth))
  {
    StackedMarks(field, held, level);
  }

  lemma {:induction false} StackedTextBelow(field: FieldDef, held: FieldDef, level: nat, t: string)
    requires Fits(field, held) && level <= held.depth
    ensures BareText(Stacked(field, held), level, t) == BareText(held, level, t)
    ensures level < held.depth ==> LevelText(Stacked(field, held), level, t) == LevelText(held, level, t)
  {
    StackedOptions(field, held, level);
    if level > 0 {
      StackedTextBelow(field, held, level - 1, t);
    }
  }

  lemma {:induction false} StackedTextAbove(field: FieldDef, held: FieldDef, level: nat, t: string)
    requires Fits(field, held) && !field.bytes && !IsOptional(held)
    ensures LevelText(Stacked(field, held), held.depth + level, t)
      == LevelText(field, level, LevelText(held, held.depth, t))
    ensures level > 0 ==>
      BareText(Stacked(field, held), held.depth + level, t) == BareText(field, level, LevelText(held, held.depth, t))
  {
    StackedOptions(field, held, held.depth + level);
    if level == 0 {
      StackedTextBelow(field, held, held.depth, t);
    } else {
      StackedTextAbove(field, held, level - 1, t);
    }
  }

  /** What fills a parameter is spelled where the parameter stood. */
  lemma StackedIsSpelledAround(field: FieldDef, held: FieldDef)
    requires Fits(field, held) && !field.bytes && !IsOptional(held)
    ensures SlotText(Stacked(field, held)) == LevelText(field, field.depth, SlotText(held))
  {
    StackedTextAbove(field, held, field.depth, OwnText(held.base));
  }

  lemma {:induction false} ArrayedText(field: FieldDef, element: FieldDef, level: nat, t: string)
    requires Sound(element) && field.base.Sibling? && field.base.name != "Vec" && level <= element.depth < DeepestLevel
    ensures LevelText(Arrayed(field, element), level, t) == LevelText(element, level, t)
  {
    if level > 0 {
      ArrayedText(field, element, level - 1, t);
    }
  }

  /** A collection is spelled as the field of its elements is: as an array of them. */
  lemma CollectionIsSpelledAsItsElements(field: FieldDef, element: FieldDef)
    requires field.base.Sibling? && field.base.arguments == [element] && IsSequenceWrapper(field.base.name)
      && field.base.name != "Vec"
    requires Readable(field)
    ensures Base(CollectionElement(field, element)) == Base(field)
  {
    ElementsFit(field, element);
    ArrayedIsSpelledAsAnArray(field, element);
    BareIsSpelledAround(field, Arrayed(field, element), OwnText(element.base));
    assert OwnText(field.base) == "Array<" + (SlotText(element) + ">");
  }

  lemma ElementsFit(field: FieldDef, element: FieldDef)
    requires field.base.Sibling? && field.base.arguments == [element] && IsSequenceWrapper(field.base.name)
      && Readable(field)
    ensures Fits(field, Arrayed(field, element)) && Sound(element) && element.depth < DeepestLevel
  {
    assert ReadableBase(field.base) && AllReadable(field.base.arguments) && Readable(field.base.arguments[0]);
    SlotHeight(field, field.depth, OfBase(field.base));
    SlotHeight(element, element.depth, OfBase(element.base));
    ArrayedIsListed(field, element);
  }

  lemma BareIsSpelledAround(field: FieldDef, held: FieldDef, t: string)
    requires Fits(field, held) && !field.bytes && !IsOptional(held)
    requires BareText(held, held.depth, t) == LevelText(held, held.depth, t)
    ensures BareText(Stacked(field, held), field.depth + held.depth, t)
      == BareText(field, field.depth, LevelText(held, held.depth, t))
  {
    StackedTextAbove(field, held, field.depth, t);
    StackedTextBelow(field, held, held.depth, t);
  }

  lemma ArrayedIsSpelledAsAnArray(field: FieldDef, element: FieldDef)
    requires field.base.Sibling? && field.base.name != "Vec" && Sound(element) && element.depth < DeepestLevel
    ensures var arrayed := Arrayed(field, element);
      && !IsOptional(arrayed)
      && LevelText(arrayed, arrayed.depth, OwnText(element.base)) == "Array<" + (SlotText(element) + ">")
      && BareText(arrayed, arrayed.depth, OwnText(element.base)) == "Array<" + (SlotText(element) + ">")
  {
    ArrayedText(field, element, element.depth, OwnText(element.base));
    assert !IsMarked(element.nullable, element.depth + 1);
    assert element.depth == 0 ==> !element.bytes;
  }
}
