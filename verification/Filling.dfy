/** Type parameters filled with arguments, and the levels a type is written with: both mean what they
    mean of the nested type. */
module Filling {
  import opened Wrappers
  import opened Levels
  import opened Texts

  // ----- filling is substitution -----

  /** The argument that fills `name`. */
  function ArgumentAt<T>(parameters: seq<string>, arguments: seq<T>, name: string): Option<T> {
    var at := Position(parameters, name);
    if at.Some? && at.value < |arguments| then Some(arguments[at.value]) else None
  }

  function Filled(field: FieldDef, parameters: seq<string>, arguments: seq<FieldDef>): FieldDef
    decreases field, 1
  {
    if field.base.TypeParam? && ArgumentAt(parameters, arguments, field.base.parameter).Some?
    then Stacked(field, ArgumentAt(parameters, arguments, field.base.parameter).value)
    else field.(base := FilledBase(field.base, parameters, arguments))
  }

  function FilledBase(base: FieldBase, parameters: seq<string>, arguments: seq<FieldDef>): FieldBase
    decreases base, 0
  {
    match base
    case Tuple(elements) => Tuple(FilledAll(elements, parameters, arguments))
    case Range(kind, bound) => Range(kind, Filled(bound, parameters, arguments))
    case ResultOf(ok, err) => ResultOf(Filled(ok, parameters, arguments), Filled(err, parameters, arguments))
    case MapOf(key, value) => MapOf(Filled(key, parameters, arguments), Filled(value, parameters, arguments))
    case Sibling(name, generics) => Sibling(name, FilledAll(generics, parameters, arguments))
    case _ => base
  }

  function FilledAll(fields: seq<FieldDef>, parameters: seq<string>, arguments: seq<FieldDef>): seq<FieldDef>
    decreases fields, 0
  {
    if fields == [] then []
    else [Filled(fields[0], parameters, arguments)] + FilledAll(fields[1..], parameters, arguments)
  }

  /** Each parameter at once for the type that fills it. */
  function Substituted(t: Nested, parameters: seq<string>, arguments: seq<Nested>): Nested
    decreases t, 1
  {
    match t
    case Leaf(_) => t
    case Group(elements) => Group(SubstitutedAll(elements, parameters, arguments))
    case Bounds(kind, bound) => Bounds(kind, Substituted(bound, parameters, arguments))
    case Either(ok, err) => Either(Substituted(ok, parameters, arguments), Substituted(err, parameters, arguments))
    case Entries(key, value) => Entries(Substituted(key, parameters, arguments),
      Substituted(value, parameters, arguments))
    case Named(name, generics) => Named(name, SubstitutedAll(generics, parameters, arguments))
    case Listed(item, distinct, length) => Listed(Substituted(item, parameters, arguments), distinct, length)
    case Optional(held) => Opt(Substituted(held, parameters, arguments))
    case Parameter(name) =>
      var argument := ArgumentAt(parameters, arguments, name);
      if argument.Some? then argument.value else t
  }

  function SubstitutedAll(ts: seq<Nested>, parameters: seq<string>, arguments: seq<Nested>): seq<Nested>
    decreases ts, 0
  {
    if ts == [] then []
    else [Substituted(ts[0], parameters, arguments)] + SubstitutedAll(ts[1..], parameters, arguments)
  }

  /** Where a parameter stands in `field`, the argument that fills it and what stands over it are
      together within the depth a field may have. */
  ghost predicate FillsWithin(field: FieldDef, parameters: seq<string>, arguments: seq<FieldDef>)
    decreases field, 1
  {
    if field.base.TypeParam? && ArgumentAt(parameters, arguments, field.base.parameter).Some?
    then Fits(field, ArgumentAt(parameters, arguments, field.base.parameter).value)
    else BaseFillsWithin(field.base, parameters, arguments)
  }

  ghost predicate FillWithin(fields: seq<FieldDef>, parameters: seq<string>, arguments: seq<FieldDef>)
    decreases fields, 0
  {
    fields == [] || (FillsWithin(fields[0], parameters, arguments) && FillWithin(fields[1..], parameters, arguments))
  }

  lemma {:induction false} SubstitutedSlot(field: FieldDef, level: nat, t: Nested, parameters: seq<string>,
      arguments: seq<Nested>)
    ensures Substituted(Bare(field, level, t), parameters, arguments)
      == Bare(field, level, Substituted(t, parameters, arguments))
    ensures Substituted(Slot(field, level, t), parameters, arguments)
      == Slot(field, level, Substituted(t, parameters, arguments))
  {
    if level > 0 {
      SubstitutedSlot(field, level - 1, t, parameters, arguments);
    }
    SubstitutedOpt(Bare(field, level, t), parameters, arguments);
  }

  lemma SubstitutedOpt(t: Nested, parameters: seq<string>, arguments: seq<Nested>)
    ensures Substituted(Opt(t), parameters, arguments) == Opt(Substituted(t, parameters, arguments))
  {
  }

  lemma ArgumentsMean(parameters: seq<string>, arguments: seq<FieldDef>, name: string)
    ensures ArgumentAt(parameters, Wholes(arguments), name)
         == var argument := ArgumentAt(parameters, arguments, name); if argument.Some?
           then Some(Whole(argument.value)) else None
  {
    WholesAt(arguments, 0);
    var at := Position(parameters, name);
    if at.Some? && at.value < |arguments| {
      WholesAt(arguments, at.value);
    }
  }

  /** Filling a field's type parameters is substituting the arguments' types for them, all at once, in
      the type the field stands for. */
  lemma {:induction false} FillingIsSubstitution(field: FieldDef, parameters: seq<string>, arguments: seq<FieldDef>)
    requires FillsWithin(field, parameters, arguments)
    ensures Whole(Filled(field, parameters, arguments)) == Substituted(Whole(field), parameters, Wholes(arguments))
    decreases field, 1
  {
    SubstitutedSlot(field, field.depth, OfBase(field.base), parameters, Wholes(arguments));
    if field.base.TypeParam? && ArgumentAt(parameters, arguments, field.base.parameter).Some? {
      StackingIsPlugging(field, ArgumentAt(parameters, arguments, field.base.parameter).value);
      ArgumentsMean(parameters, arguments, field.base.parameter);
    } else {
      var filled := Filled(field, parameters, arguments);
      SameLevels(field, filled, field.depth, OfBase(filled.base));
      FillingBase(field.base, parameters, arguments);
    }
  }

  /** `base` is no parameter that is filled, and what is filled in it is filled within. */
  ghost predicate BaseFillsWithin(base: FieldBase, parameters: seq<string>, arguments: seq<FieldDef>)
    decreases base, 0
  {
    match base
    case Tuple(elements) => FillWithin(elements, parameters, arguments)
    case Range(_, bound) => FillsWithin(bound, parameters, arguments)
    case ResultOf(ok, err) => FillsWithin(ok, parameters, arguments) && FillsWithin(err, parameters, arguments)
    case MapOf(key, value) => FillsWithin(key, parameters, arguments) && FillsWithin(value, parameters, arguments)
    case Sibling(_, generics) => FillWithin(generics, parameters, arguments)
    case TypeParam(name) => ArgumentAt(parameters, arguments, name).None?
    case Plain(_) => true
  }

  lemma {:induction false} FillingBase(base: FieldBase, parameters: seq<string>, arguments: seq<FieldDef>)
    requires BaseFillsWithin(base, parameters, arguments)
    ensures OfBase(FilledBase(base, parameters, arguments)) == Substituted(OfBase(base), parameters, Wholes(arguments))
    decreases base, 0
  {
    match base
    case Tuple(elements) => AllFilled(elements, parameters, arguments);
    case Range(_, bound) => FillingIsSubstitution(bound, parameters, arguments);
    case ResultOf(ok, err) =>
      FillingIsSubstitution(ok, parameters, arguments);
      FillingIsSubstitution(err, parameters, arguments);
    case MapOf(key, value) =>
      FillingIsSubstitution(key, parameters, arguments);
      FillingIsSubstitution(value, parameters, arguments);
    case Sibling(name, generics) =>
      AllFilled(generics, parameters, arguments);
      if |generics| == 1 {
        FillingIsSubstitution(generics[0], parameters, arguments);
        FillingOne(name, generics[0], parameters, arguments);
        assert generics == [generics[0]];
      }
    case TypeParam(name) => ArgumentsMean(parameters, arguments, name);
    case Plain(_) =>
  }

  lemma FillingOne(name: string, generic: FieldDef, parameters: seq<string>, arguments: seq<FieldDef>)
    requires Whole(Filled(generic, parameters, arguments))
      == Substituted(Whole(generic), parameters, Wholes(arguments))
    requires Wholes(FilledAll([generic], parameters, arguments))
      == SubstitutedAll(Wholes([generic]), parameters, Wholes(arguments))
    ensures OfBase(FilledBase(Sibling(name, [generic]), parameters, arguments))
      == Substituted(OfBase(Sibling(name, [generic])), parameters, Wholes(arguments))
  {
    OneOfAll(generic, parameters, arguments);
  }

  lemma OneOfAll(field: FieldDef, parameters: seq<string>, arguments: seq<FieldDef>)
    ensures FilledAll([field], parameters, arguments) == [Filled(field, parameters, arguments)]
  {
    assert FilledAll([field][1..], parameters, arguments) == [];
  }

  lemma {:induction false} AllFilled(fields: seq<FieldDef>, parameters: seq<string>, arguments: seq<FieldDef>)
    requires FillWithin(fields, parameters, arguments)
    ensures |FilledAll(fields, parameters, arguments)| == |fields|
    ensures Wholes(FilledAll(fields, parameters, arguments))
      == SubstitutedAll(Wholes(fields), parameters, Wholes(arguments))
    decreases fields, 0
  {
    if fields != [] {
      FillingIsSubstitution(fields[0], parameters, arguments);
      AllFilled(fields[1..], parameters, arguments);
      var filled := FilledAll(fields, parameters, arguments);
      assert filled[1..] == FilledAll(fields[1..], parameters, arguments);
      assert Wholes(fields)[1..] == Wholes(fields[1..]);
    }
  }

  lemma {:induction false} SameLevels(one: FieldDef, other: FieldDef, level: nat, t: Nested)
    requires one.nullable == other.nullable && one.lengths == other.lengths && one.sets == other.sets
    ensures Bare(one, level, t) == Bare(other, level, t)
    ensures Slot(one, level, t) == Slot(other, level, t)
  {
    if level > 0 {
      SameLevels(one, other, level - 1, t);
    }
  }

  // ----- a type as it is written -----

  /** A Rust type, past the parsing of its path: the wrappers that become levels, and what becomes a
      type of its own. */
  datatype Written =
    | OptionOf(held: Written)
    | VecOf(held: Written)
    | SharedOf(held: Written)
    | Reference(held: Written)
    | Slice(held: Written)
    | FixedArray(held: Written, length: Option<nat>)
    | Tuples(items: seq<Written>)
    | RangeOf(kind: RangeKind, bound: Written)
    | ResultsOf(ok: Written, err: Written)
    | Maps(key: Written, value: Written)
    | Path(name: string, items: seq<Written>)
    | Scalars(scalar: Scalar)

  function Bareheaded(base: FieldBase): FieldDef {
    FieldDef("", base, 0, [], [], [], false)
  }

  function Read(ty: Written): FieldDef
    decreases ty, 1
  {
    match ty
    case OptionOf(held) =>
      var def := Read(held);
      def.(nullable := Marked(def.nullable, Mark(def.depth, None)))
    case VecOf(held) =>
      var def := Read(held);
      def.(depth := SaturatingAdd(def.depth, 1), bytes := def.bytes || HoldsAByte(def))
    case SharedOf(held) => Read(held)
    case Reference(held) => Read(held)
    case Slice(held) =>
      var def := Read(held);
      def.(depth := SaturatingAdd(def.depth, 1))
    case FixedArray(held, length) =>
      var def := Read(held);
      var deeper := def.(depth := SaturatingAdd(def.depth, 1));
      if length.Some? then deeper.(lengths := Marked(deeper.lengths, Mark(def.depth, length))) else deeper
    case Tuples(items) => Bareheaded(Tuple(ReadAll(items)))
    case RangeOf(kind, bound) => Bareheaded(Range(kind, Read(bound)))
    case ResultsOf(ok, err) => Bareheaded(ResultOf(Read(ok), Read(err)))
    case Maps(key, value) => Bareheaded(MapOf(Read(key), Read(value)))
    case Path(name, items) => Bareheaded(Sibling(name, ReadAll(items)))
    case Scalars(scalar) => Bareheaded(Plain(scalar))
  }

  function ReadAll(items: seq<Written>): seq<FieldDef>
    decreases items, 0
  {
    if items == [] then [] else [Read(items[0])] + ReadAll(items[1..])
  }

  /** `field` with every name that is one of the item's own `parameters` made a parameter. */
  function Erased(field: FieldDef, parameters: seq<string>): FieldDef
    decreases field, 1
  {
    field.(base := ErasedBase(field.base, parameters))
  }

  function ErasedBase(base: FieldBase, parameters: seq<string>): FieldBase
    decreases base, 0
  {
    match base
    case Tuple(elements) => Tuple(ErasedAll(elements, parameters))
    case Range(kind, bound) => Range(kind, Erased(bound, parameters))
    case ResultOf(ok, err) => ResultOf(Erased(ok, parameters), Erased(err, parameters))
    case MapOf(key, value) => MapOf(Erased(key, parameters), Erased(value, parameters))
    case Sibling(name, generics) =>
      if name in parameters then TypeParam(name) else Sibling(name, ErasedAll(generics, parameters))
    case _ => base
  }

  function ErasedAll(fields: seq<FieldDef>, parameters: seq<string>): seq<FieldDef>
    decreases fields, 0
  {
    if fields == [] then [] else [Erased(fields[0], parameters)] + ErasedAll(fields[1..], parameters)
  }

  /** The type a written one is, in an item of these `parameters`. */
  function Meaning(ty: Written, parameters: seq<string>): Nested
    decreases ty, 1
  {
    match ty
    case OptionOf(held) => Opt(Meaning(held, parameters))
    case VecOf(held) => Listed(Meaning(held, parameters), false, None)
    case SharedOf(held) => Meaning(held, parameters)
    case Reference(held) => Meaning(held, parameters)
    case Slice(held) => Listed(Meaning(held, parameters), false, None)
    case FixedArray(held, length) => Listed(Meaning(held, parameters), false, length)
    case Tuples(items) => Group(Meanings(items, parameters))
    case RangeOf(kind, bound) => Bounds(kind, Meaning(bound, parameters))
    case ResultsOf(ok, err) => Either(Meaning(ok, parameters), Meaning(err, parameters))
    case Maps(key, value) => Entries(Meaning(key, parameters), Meaning(value, parameters))
    case Path(name, items) =>
      if name in parameters then Parameter(name)
      else if |items| == 1 && IsSequenceWrapper(name)
      then Listed(Meaning(items[0], parameters), IsSetWrapper(name), None)
      else Named(name, Meanings(items, parameters))
    case Scalars(scalar) => Leaf(scalar)
  }

  function Meanings(items: seq<Written>, parameters: seq<string>): seq<Nested>
    decreases items, 0
  {
    if items == [] then [] else [Meaning(items[0], parameters)] + Meanings(items[1..], parameters)
  }

  /** How many levels the wrappers at the head of `ty` add. */
  function Arrays(ty: Written): nat {
    match ty
    case OptionOf(held) => Arrays(held)
    case VecOf(held) => Arrays(held) + 1
    case SharedOf(held) => Arrays(held)
    case Reference(held) => Arrays(held)
    case Slice(held) => Arrays(held) + 1
    case FixedArray(held, _) => Arrays(held) + 1
    case _ => 0
  }

  /** No position writes more arrays one in another than a field may have. */
  ghost predicate Shallow(ty: Written)
    decreases ty, 1
  {
    && Arrays(ty) <= DeepestLevel
    && match ty
       case OptionOf(held) => Shallow(held)
       case VecOf(held) => Shallow(held)
       case SharedOf(held) => Shallow(held)
       case Reference(held) => Shallow(held)
       case Slice(held) => Shallow(held)
       case FixedArray(held, _) => Shallow(held)
       case Tuples(items) => AllShallow(items)
       case RangeOf(_, bound) => Shallow(bound)
       case ResultsOf(ok, err) => Shallow(ok) && Shallow(err)
       case Maps(key, value) => Shallow(key) && Shallow(value)
       case Path(_, items) => AllShallow(items)
       case Scalars(_) => true
  }

  ghost predicate AllShallow(items: seq<Written>)
    decreases items, 0
  {
    items == [] || (Shallow(items[0]) && AllShallow(items[1..]))
  }

  /** One more array over a field: the field's own levels are as they were, and the new one is marked
      only where it was written with a length. */
  lemma DeeperIsListed(def: FieldDef, deeper: FieldDef, length: Option<nat>)
    requires Sound(def) && def.depth < DeepestLevel
    requires deeper.base == def.base && deeper.depth == def.depth + 1 && deeper.nullable == def.nullable
      && deeper.sets == def.sets
    requires deeper.lengths == if length.Some? then Marked(def.lengths, Mark(def.depth, length)) else def.lengths
    requires deeper.bytes ==> def.bytes || HoldsAByte(def)
    ensures Whole(deeper) == Listed(Whole(def), false, length)
    ensures Sound(deeper)
  {
    var t := OfBase(def.base);
    DeeperBelow(def, deeper, def.depth, length, t);
    MarkedKeepsLength(def.lengths, Mark(def.depth, length), def.depth);
    AppendedLength(def.lengths, Mark(def.depth, length), def.depth);
    assert Slot(deeper, deeper.depth, t) == Bare(deeper, deeper.depth, t);
  }

  lemma {:induction false} DeeperBelow(def: FieldDef, deeper: FieldDef, level: nat, length: Option<nat>, t: Nested)
    requires Sound(def) && level <= def.depth
    requires deeper.nullable == def.nullable && deeper.sets == def.sets
    requires deeper.lengths == if length.Some? then Marked(def.lengths, Mark(def.depth, length)) else def.lengths
    ensures Slot(deeper, level, t) == Slot(def, level, t)
  {
    if level > 0 {
      DeeperBelow(def, deeper, level - 1, length, t);
      MarkedKeepsLength(def.lengths, Mark(def.depth, length), level - 1);
    }
  }

  lemma OptionalIsOpt(def: FieldDef)
    requires Sound(def)
    ensures var optional := def.(nullable := Marked(def.nullable, Mark(def.depth, None)));
      Whole(optional) == Opt(Whole(def)) && Sound(optional)
  {
    var optional := def.(nullable := Marked(def.nullable, Mark(def.depth, None)));
    MarkedIsMarked(def.nullable, Mark(def.depth, None), def.depth);
    MarkedIsMarked(def.nullable, Mark(def.depth, None), 0);
    OptionalBelow(def, optional, def.depth, OfBase(def.base));
  }

  lemma {:induction false} OptionalBelow(def: FieldDef, optional: FieldDef, level: nat, t: Nested)
    requires optional == def.(nullable := Marked(def.nullable, Mark(def.depth, None))) && level <= def.depth
    ensures Bare(optional, level, t) == Bare(def, level, t)
    ensures level < def.depth ==> Slot(optional, level, t) == Slot(def, level, t)
  {
    MarkedIsMarked(def.nullable, Mark(def.depth, None), level);
    if level > 0 {
      OptionalBelow(def, optional, level - 1, t);
    }
  }

  /** The field read from a written type, the item's own parameters erased in it, stands for that type
      to the last array and `Option`, and its marks are within it. */
  lemma {:induction false} ReadMeansAsWritten(ty: Written, parameters: seq<string>)
    requires Shallow(ty)
    ensures StandsFor(Erased(Read(ty), parameters), ty, parameters)
    decreases ty, 1
  {
    match ty
    case OptionOf(held) =>
      ReadMeansAsWritten(held, parameters);
      OptionalIsOpt(Erased(Read(held), parameters));
    case VecOf(held) =>
      ReadMeansAsWritten(held, parameters);
      ArrayMeansAsWritten(ty, parameters);
    case SharedOf(held) => ReadMeansAsWritten(held, parameters);
    case Reference(held) => ReadMeansAsWritten(held, parameters);
    case Slice(held) =>
      ReadMeansAsWritten(held, parameters);
      ArrayMeansAsWritten(ty, parameters);
    case FixedArray(held, _) =>
      ReadMeansAsWritten(held, parameters);
      ArrayMeansAsWritten(ty, parameters);
    case Tuples(items) => AllReadMeanAsWritten(items, parameters);
    case RangeOf(_, bound) => ReadMeansAsWritten(bound, parameters);
    case ResultsOf(ok, err) =>
      ReadMeansAsWritten(ok, parameters);
      ReadMeansAsWritten(err, parameters);
    case Maps(key, value) =>
      ReadMeansAsWritten(key, parameters);
      ReadMeansAsWritten(value, parameters);
    case Path(name, items) =>
      AllReadMeanAsWritten(items, parameters);
      if |items| == 1 {
        ReadMeansAsWritten(items[0], parameters);
      }
      PathMeansAsWritten(name, items, parameters);
    case Scalars(_) =>
  }

  /** A `Vec` over a bare byte, shared or referred to, is a byte string, and stays one under more
      arrays and `Option`s. */
  predicate IsByte(ty: Written) {
    match ty
    case Scalars(scalar) => scalar == U8
    case SharedOf(held) => IsByte(held)
    case Reference(held) => IsByte(held)
    case _ => false
  }

  predicate HoldsBytes(ty: Written) {
    match ty
    case OptionOf(held) => HoldsBytes(held)
    case VecOf(held) => HoldsBytes(held) || IsByte(held)
    case SharedOf(held) => HoldsBytes(held)
    case Reference(held) => HoldsBytes(held)
    case Slice(held) => HoldsBytes(held)
    case FixedArray(held, _) => HoldsBytes(held)
    case _ => false
  }

  lemma {:induction false} ReadsBytes(ty: Written)
    ensures Read(ty).bytes <==> HoldsBytes(ty)
    ensures HoldsAByte(Read(ty)) <==> IsByte(ty)
  {
    match ty
    case OptionOf(held) =>
      ReadsBytes(held);
      MarkedIsMarked(Read(held).nullable, Mark(Read(held).depth, None), 0);
    case VecOf(held) => ReadsBytes(held);
    case SharedOf(held) => ReadsBytes(held);
    case Reference(held) => ReadsBytes(held);
    case Slice(held) => ReadsBytes(held);
    case FixedArray(held, _) => ReadsBytes(held);
    case _ =>
  }

  /** `field` stands for `ty`. */
  ghost predicate StandsFor(field: FieldDef, ty: Written, parameters: seq<string>) {
    Whole(field) == Meaning(ty, parameters) && field.depth == Arrays(ty) && Sound(field)
  }

  lemma ArrayMeansAsWritten(ty: Written, parameters: seq<string>)
    requires (ty.VecOf? || ty.Slice? || ty.FixedArray?) && Arrays(ty) <= DeepestLevel
    requires StandsFor(Erased(Read(ty.held), parameters), ty.held, parameters)
    ensures StandsFor(Erased(Read(ty), parameters), ty, parameters)
  {
    var def, deeper := Erased(Read(ty.held), parameters), Erased(Read(ty), parameters);
    assert ErasedBase(Plain(U8), parameters) == Plain(U8);
    match ty
    case VecOf(_) => DeeperIsListed(def, deeper, None);
    case Slice(_) => DeeperIsListed(def, deeper, None);
    case FixedArray(_, length) => DeeperIsListed(def, deeper, length);
  }

  lemma PathMeansAsWritten(name: string, items: seq<Written>, parameters: seq<string>)
    requires Wholes(ErasedAll(ReadAll(items), parameters)) == Meanings(items, parameters)
    requires |ErasedAll(ReadAll(items), parameters)| == |items|
    requires |items| == 1 ==> Whole(Erased(Read(items[0]), parameters)) == Meaning(items[0], parameters)
    ensures StandsFor(Erased(Read(Path(name, items)), parameters), Path(name, items), parameters)
  {
    if |items| == 1 {
      assert ErasedAll(ReadAll(items), parameters)[0] == Erased(Read(items[0]), parameters);
    }
  }

  lemma {:induction false} AllReadMeanAsWritten(items: seq<Written>, parameters: seq<string>)
    requires AllShallow(items)
    ensures var fields := ErasedAll(ReadAll(items), parameters);
      Wholes(fields) == Meanings(items, parameters) && |fields| == |items|
    decreases items, 0
  {
    if items != [] {
      ReadMeansAsWritten(items[0], parameters);
      AllReadMeanAsWritten(items[1..], parameters);
      var fields := ErasedAll(ReadAll(items), parameters);
      assert ReadAll(items)[1..] == ReadAll(items[1..]) && ReadAll(items)[0] == Read(items[0]);
      assert fields[0] == Erased(Read(items[0]), parameters);
      assert fields[1..] == ErasedAll(ReadAll(items[1..]), parameters);
    }
  }
}
