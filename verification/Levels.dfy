/** A field's type as the generators hold it, its arrays and `Option`s flattened into numbered levels,
    and the nested type those levels stand for. Stacking one field's levels over another's is putting
    the one type inside the other's context; filling type parameters is substitution. */
module Levels {
  import opened Wrappers

  datatype Scalar =
    | Boolean | Char | String | Unknown | F32 | F64
    | U8 | U16 | U32 | U64 | Usize | I8 | I16 | I32 | I64 | Isize

  datatype RangeKind = RangeFrom | HalfOpen | Inclusive | RangeTo

  datatype FieldBase =
    | Plain(scalar: Scalar)
    | Tuple(elements: seq<FieldDef>)
    | Range(kind: RangeKind, bound: FieldDef)
    | ResultOf(ok: FieldDef, err: FieldDef)
    | MapOf(key: FieldDef, value: FieldDef)
    | Sibling(name: string, arguments: seq<FieldDef>)
    | TypeParam(parameter: string)

  /** An array level and, for one written `[T; N]`, its length. */
  datatype Mark = Mark(level: nat, length: Option<nat>)

  datatype FieldDef = FieldDef(
    name: string,
    base: FieldBase,
    depth: nat,
    nullable: seq<Mark>,
    lengths: seq<Mark>,
    sets: seq<Mark>,
    bytes: bool)

  const DeepestLevel: nat := 255

  function SaturatingAdd(a: nat, b: nat): nat {
    if a + b > DeepestLevel then DeepestLevel else a + b
  }

  predicate IsMarked(marks: seq<Mark>, level: nat) {
    exists i :: 0 <= i < |marks| && marks[i].level == level
  }

  /** The first length marked at `level`. */
  function LengthAt(marks: seq<Mark>, level: nat): Option<nat> {
    if marks == [] then None
    else if marks[0].level == level then marks[0].length
    else LengthAt(marks[1..], level)
  }

  predicate IsOptional(field: FieldDef) {
    IsMarked(field.nullable, field.depth)
  }

  predicate IsSetWrapper(name: string) {
    name == "BTreeSet" || name == "HashSet"
  }

  predicate IsSequenceWrapper(name: string) {
    name == "BTreeSet" || name == "BinaryHeap" || name == "HashSet" || name == "Vec" || name == "VecDeque"
  }

  /** Std's collections that serde writes as an array are known by name, and its sets among them. */
  lemma StdCollectionsAreKnown(name: string)
    ensures IsSequenceWrapper(name) <==> name in {"Vec", "VecDeque", "BinaryHeap", "HashSet", "BTreeSet"}
    ensures IsSetWrapper(name) <==> name in {"HashSet", "BTreeSet"}
  {
  }

  // ----- the nested type -----

  datatype Nested =
    | Leaf(scalar: Scalar)
    | Group(elements: seq<Nested>)
    | Bounds(kind: RangeKind, bound: Nested)
    | Either(ok: Nested, err: Nested)
    | Entries(key: Nested, value: Nested)
    | Named(name: string, arguments: seq<Nested>)
    | Parameter(parameter: string)
    | Listed(item: Nested, distinct: bool, length: Option<nat>)
    | Optional(held: Nested)

  /** An `Option` of an `Option` has one `null`. */
  function Opt(t: Nested): Nested {
    if t.Optional? then t else Optional(t)
  }

  /** The value at array level `level` of `field`, `t` being what its own type names, before the
      `Option` of that level. */
  function Bare(field: FieldDef, level: nat, t: Nested): Nested
    decreases level, 0
  {
    if level == 0 then t
    else Listed(Slot(field, level - 1, t), IsMarked(field.sets, level - 1), LengthAt(field.lengths, level - 1))
  }

  function Slot(field: FieldDef, level: nat, t: Nested): Nested
    decreases level, 1
  {
    if IsMarked(field.nullable, level) then Opt(Bare(field, level, t)) else Bare(field, level, t)
  }

  /** `t` under all of the field's levels. */
  function Around(field: FieldDef, t: Nested): Nested {
    Slot(field, field.depth, t)
  }

  /** The type a field stands for. */
  function Whole(field: FieldDef): Nested {
    Around(field, OfBase(field.base))
  }

  function OfBase(base: FieldBase): Nested {
    match base
    case Plain(scalar) => Leaf(scalar)
    case Tuple(elements) => Group(Wholes(elements))
    case Range(kind, bound) => Bounds(kind, Whole(bound))
    case ResultOf(ok, err) => Either(Whole(ok), Whole(err))
    case MapOf(key, value) => Entries(Whole(key), Whole(value))
    case Sibling(name, arguments) =>
      if |arguments| == 1 && IsSequenceWrapper(name) then Listed(Whole(arguments[0]), IsSetWrapper(name), None)
      else Named(name, Wholes(arguments))
    case TypeParam(parameter) => Parameter(parameter)
  }

  function Wholes(fields: seq<FieldDef>): seq<Nested> {
    if fields == [] then [] else [Whole(fields[0])] + Wholes(fields[1..])
  }

  /** No type is an `Option` but for the levels it stands under. */
  lemma BareIsNoOption(field: FieldDef, level: nat)
    ensures !Bare(field, level, OfBase(field.base)).Optional?
  {
  }

  lemma {:induction false} WholesAt(fields: seq<FieldDef>, at: nat)
    ensures |Wholes(fields)| == |fields|
    ensures at < |fields| ==> Wholes(fields)[at] == Whole(fields[at])
  {
    if fields != [] {
      WholesAt(fields[1..], if at > 0 then at - 1 else 0);
    }
  }

  // ----- marking -----

  /** A level is marked once: the first mark stays. */
  function Marked(marks: seq<Mark>, mark: Mark): seq<Mark> {
    if IsMarked(marks, mark.level) then marks else marks + [mark]
  }

  /** `marks`, then each of `more` at its level over `under`. */
  function MarkedOver(marks: seq<Mark>, more: seq<Mark>, under: nat): seq<Mark> {
    if more == [] then marks
    else
      var last := more[|more| - 1];
      Marked(MarkedOver(marks, more[..|more| - 1], under), Mark(SaturatingAdd(last.level, under), last.length))
  }

  /** `held` under the levels of `field`. */
  function Stacked(field: FieldDef, held: FieldDef): FieldDef {
    FieldDef(field.name, held.base, SaturatingAdd(held.depth, field.depth),
      MarkedOver(held.nullable, field.nullable, held.depth),
      MarkedOver(held.lengths, field.lengths, held.depth),
      MarkedOver(held.sets, field.sets, held.depth),
      held.bytes)
  }

  method MarkedAt(marks: seq<Mark>, mark: Mark) returns (more: seq<Mark>)
    ensures more == Marked(marks, mark)
  {
    more := marks;
    var found := false;
    for i := 0 to |marks|
      invariant found <==> IsMarked(marks[..i], mark.level)
    {
      assert marks[..i + 1] == marks[..i] + [marks[i]];
      if marks[i].level == mark.level {
        assert marks[..i + 1][i] == marks[i];
        found := true;
      } else if found {
        var k :| 0 <= k < |marks[..i]| && marks[..i][k].level == mark.level;
        assert marks[..i + 1][k] == marks[..i][k];
      }
    }
    assert marks[..|marks|] == marks;
    if !found {
      more := marks + [mark];
    }
  }

  method LevelsStackedOver(field: FieldDef, held: FieldDef) returns (stacked: FieldDef)
    ensures stacked == Stacked(field, held)
  {
    stacked := held.(name := field.name);
    var under := held.depth;
    for i := 0 to |field.nullable|
      invariant stacked == held.(name := field.name, nullable := MarkedOver(held.nullable, field.nullable[..i], under))
    {
      assert field.nullable[..i + 1][..i] == field.nullable[..i];
      var marks := MarkedAt(stacked.nullable,
        Mark(SaturatingAdd(field.nullable[i].level, under), field.nullable[i].length));
      stacked := stacked.(nullable := marks);
    }
    assert field.nullable[..|field.nullable|] == field.nullable;
    ghost var nulled := stacked;
    for i := 0 to |field.lengths|
      invariant stacked == nulled.(lengths := MarkedOver(held.lengths, field.lengths[..i], under))
    {
      assert field.lengths[..i + 1][..i] == field.lengths[..i];
      var marks := MarkedAt(stacked.lengths,
        Mark(SaturatingAdd(field.lengths[i].level, under), field.lengths[i].length));
      stacked := stacked.(lengths := marks);
    }
    assert field.lengths[..|field.lengths|] == field.lengths;
    ghost var measured := stacked;
    for i := 0 to |field.sets|
      invariant stacked == measured.(sets := MarkedOver(held.sets, field.sets[..i], under))
    {
      assert field.sets[..i + 1][..i] == field.sets[..i];
      var marks := MarkedAt(stacked.sets, Mark(SaturatingAdd(field.sets[i].level, under), field.sets[i].length));
      stacked := stacked.(sets := marks);
    }
    assert field.sets[..|field.sets|] == field.sets;
    stacked := stacked.(depth := SaturatingAdd(held.depth, field.depth));
  }

  // ----- stacking is plugging -----

  /** Marks lie within the field: an `Option` at a level it has, a length or a set at an array. */
  ghost predicate Sound(field: FieldDef) {
    && field.depth <= DeepestLevel
    && (forall i :: 0 <= i < |field.nullable| ==> field.nullable[i].level <= field.depth)
    && (forall i :: 0 <= i < |field.lengths| ==> field.lengths[i].level < field.depth)
    && (forall i :: 0 <= i < |field.sets| ==> field.sets[i].level < field.depth)
    && (field.bytes ==> field.depth > 0 && field.base == Plain(U8) && !IsMarked(field.nullable, 0))
  }

  lemma MarkedIsMarked(marks: seq<Mark>, mark: Mark, level: nat)
    ensures IsMarked(Marked(marks, mark), level) <==> IsMarked(marks, level) || level == mark.level
  {
    var more := Marked(marks, mark);
    if IsMarked(marks, level) {
      var i :| 0 <= i < |marks| && marks[i].level == level;
      assert more[i].level == level;
    } else if level == mark.level {
      assert more[|marks|] == mark;
    }
  }

  lemma {:induction false} MarkedOverIsMarked(marks: seq<Mark>, more: seq<Mark>, under: nat, level: nat)
    ensures IsMarked(MarkedOver(marks, more, under), level)
       <==> IsMarked(marks, level) || exists i :: 0 <= i < |more| && SaturatingAdd(more[i].level, under) == level
  {
    if more != [] {
      var n := |more| - 1;
      MarkedOverIsMarked(marks, more[..n], under, level);
      MarkedIsMarked(MarkedOver(marks, more[..n], under), Mark(SaturatingAdd(more[n].level, under), more[n].length),
        level);
      if i :| 0 <= i < n && SaturatingAdd(more[..n][i].level, under) == level {
        assert more[i] == more[..n][i];
      }
      if i :| 0 <= i < |more| && SaturatingAdd(more[i].level, under) == level {
        assert i < n ==> more[..n][i] == more[i];
      }
    }
  }

  lemma {:induction false} MarkedKeepsLength(marks: seq<Mark>, mark: Mark, level: nat)
    ensures LengthAt(Marked(marks, mark), level)
         == if IsMarked(marks, level) || level != mark.level then LengthAt(marks, level) else mark.length
  {
    if !IsMarked(marks, mark.level) {
      AppendedLength(marks, mark, level);
    }
  }

  lemma {:induction false} AppendedLength(marks: seq<Mark>, mark: Mark, level: nat)
    ensures LengthAt(marks + [mark], level)
         == if IsMarked(marks, level) then LengthAt(marks, level) else if level == mark.level then mark.length else None
    ensures !IsMarked(marks, level) ==> LengthAt(marks, level) == None
  {
    var more := marks + [mark];
    if marks == [] {
      assert more[1..] == [];
    } else {
      assert more[1..] == marks[1..] + [mark];
      AppendedLength(marks[1..], mark, level);
      if marks[0].level != level {
        assert IsMarked(marks[1..], level) <==> IsMarked(marks, level) by {
          if i :| 0 <= i < |marks| && marks[i].level == level {
            assert marks[1..][i - 1] == marks[i];
          }
          if i :| 0 <= i < |marks[1..]| && marks[1..][i].level == level {
            assert marks[i + 1] == marks[1..][i];
          }
        }
      }
    }
  }

  /** Below the held field's own array count its lengths are read, and above it the stacking one's. */
  lemma {:induction false} MarkedOverKeepsLength(marks: seq<Mark>, more: seq<Mark>, under: nat, level: nat)
    requires forall i :: 0 <= i < |marks| ==> marks[i].level < under
    requires forall i :: 0 <= i < |more| ==> more[i].level + under <= DeepestLevel
    ensures LengthAt(MarkedOver(marks, more, under), level)
         == if level < under then LengthAt(marks, level) else LengthAt(more, level - under)
  {
    if more == [] {
      if level >= under {
        AppendedLength(marks, Mark(level, None), level);
      }
    } else {
      var n := |more| - 1;
      var last, before := more[n], MarkedOver(marks, more[..n], under);
      MarkedOverKeepsLength(marks, more[..n], under, level);
      MarkedKeepsLength(before, Mark(last.level + under, last.length), level);
      MarkedOverIsMarked(marks, more[..n], under, level);
      assert more == more[..n] + [last];
      if level >= under {
        AppendedLength(more[..n], last, level - under);
        assert IsMarked(before, level) <==> IsMarked(more[..n], level - under) by {
          if i :| 0 <= i < n && more[..n][i].level == level - under {
            assert SaturatingAdd(more[..n][i].level, under) == level;
          }
        }
      }
    }
  }

  /** Neither field is so deep that a level would pass the last. */
  ghost predicate Fits(field: FieldDef, held: FieldDef) {
    Sound(field) && Sound(held) && field.depth + held.depth <= DeepestLevel
  }

  lemma StackedMarks(field: FieldDef, held: FieldDef, level: nat)
    requires Fits(field, held)
    ensures var stacked := Stacked(field, held);
      && (IsMarked(stacked.nullable, level) <==>
          IsMarked(held.nullable, level) || (level >= held.depth && IsMarked(field.nullable, level - held.depth)))
      && (IsMarked(stacked.sets, level) <==> if level < held.depth then IsMarked(held.sets, level)
        else IsMarked(field.sets, level - held.depth))
      && LengthAt(stacked.lengths, level) == if level < held.depth then LengthAt(held.lengths, level)
        else LengthAt(field.lengths, level - held.depth)
  {
    MarkedOverIsMarked(held.nullable, field.nullable, held.depth, level);
    MarkedOverIsMarked(held.sets, field.sets, held.depth, level);
    MarkedOverKeepsLength(held.lengths, field.lengths, held.depth, level);
    ShiftedIsMarked(field.nullable, held.depth, level);
    ShiftedIsMarked(field.sets, held.depth, level);
  }

  lemma ShiftedIsMarked(more: seq<Mark>, under: nat, level: nat)
    requires forall i :: 0 <= i < |more| ==> more[i].level + under <= DeepestLevel
    ensures (exists i :: 0 <= i < |more| && SaturatingAdd(more[i].level, under) == level)
       <==> level >= under && IsMarked(more, level - under)
  {
    if level >= under && IsMarked(more, level - under) {
      var i :| 0 <= i < |more| && more[i].level == level - under;
      assert SaturatingAdd(more[i].level, under) == level;
    }
  }

  /** Below the held field's own depth nothing changes. */
  lemma {:induction false} StackedBelow(field: FieldDef, held: FieldDef, level: nat, t: Nested)
    requires Fits(field, held) && level <= held.depth
    ensures Bare(Stacked(field, held), level, t) == Bare(held, level, t)
    ensures level < held.depth ==> Slot(Stacked(field, held), level, t) == Slot(held, level, t)
  {
    StackedMarks(field, held, level);
    if level > 0 {
      StackedBelow(field, held, level - 1, t);
      StackedMarks(field, held, level - 1);
    }
  }

  /** Levels marked alike over the same are the same. */
  lemma SameLevel(one: FieldDef, at: nat, t: Nested, other: FieldDef, level: nat, u: Nested)
    requires at > 0 && level > 0 && Slot(one, at - 1, t) == Slot(other, level - 1, u)
    requires IsMarked(one.nullable, at) <==> IsMarked(other.nullable, level)
    requires IsMarked(one.sets, at - 1) <==> IsMarked(other.sets, level - 1)
    requires LengthAt(one.lengths, at - 1) == LengthAt(other.lengths, level - 1)
    ensures Slot(one, at, t) == Slot(other, level, u)
  {
  }

  lemma NoneMarkedAbove(field: FieldDef, level: nat)
    requires Sound(field) && level > field.depth
    ensures !IsMarked(field.nullable, level)
  {
  }

  /** Above it, the stacking field's levels stand over the held field's whole. */
  lemma {:induction false} StackedAbove(field: FieldDef, held: FieldDef, level: nat, t: Nested)
    requires Fits(field, held)
    ensures Slot(Stacked(field, held), held.depth + level, t) == Slot(field, level, Around(held, t))
  {
    StackedMarks(field, held, held.depth + level);
    if level == 0 {
      StackedBelow(field, held, held.depth, t);
    } else {
      StackedAbove(field, held, level - 1, t);
      StackedMarks(field, held, held.depth + level - 1);
      NoneMarkedAbove(held, held.depth + level);
      SameLevel(Stacked(field, held), held.depth + level, t, field, level, Around(held, t));
    }
  }

  /** Stacking levels is putting the one type in the other's context, and keeps marks within. */
  lemma StackingIsPlugging(field: FieldDef, held: FieldDef)
    requires Fits(field, held)
    ensures Whole(Stacked(field, held)) == Around(field, Whole(held))
    ensures Sound(Stacked(field, held))
  {
    StackedAbove(field, held, field.depth, OfBase(held.base));
    var stacked := Stacked(field, held);
    forall i | 0 <= i < |stacked.nullable| ensures stacked.nullable[i].level <= stacked.depth {
      assert IsMarked(stacked.nullable, stacked.nullable[i].level);
      StackedMarks(field, held, stacked.nullable[i].level);
    }
    forall i | 0 <= i < |stacked.sets| ensures stacked.sets[i].level < stacked.depth {
      assert IsMarked(stacked.sets, stacked.sets[i].level);
      StackedMarks(field, held, stacked.sets[i].level);
    }
    forall i | 0 <= i < |stacked.lengths| ensures stacked.lengths[i].level < stacked.depth {
      assert IsMarked(stacked.lengths, stacked.lengths[i].level);
      MarkedOverIsMarked(held.lengths, field.lengths, held.depth, stacked.lengths[i].level);
      ShiftedIsMarked(field.lengths, held.depth, stacked.lengths[i].level);
    }
    StackedMarks(field, held, 0);
  }

  // ----- the last level -----

  /** How many arrays stand one in another, `Option`s aside. */
  function Height(t: Nested): nat {
    match t
    case Listed(item, _, _) => Height(item) + 1
    case Optional(held) => Height(held)
    case _ => 0
  }

  lemma {:induction false} SlotHeight(field: FieldDef, level: nat, t: Nested)
    ensures Height(Bare(field, level, t)) == level + Height(t)
    ensures Height(Slot(field, level, t)) == level + Height(t)
  {
    if level > 0 {
      SlotHeight(field, level - 1, t);
    }
  }

  /** The depths are added as bytes are: two fields stack as the one type in the other's context
      where their depths together are within a byte, and never where they are not. */
  lemma StackingIsPluggingWithinAByte(field: FieldDef, held: FieldDef)
    requires Sound(field) && Sound(held)
    ensures Whole(Stacked(field, held)) == Around(field, Whole(held)) <==> field.depth + held.depth <= DeepestLevel
  {
    if field.depth + held.depth <= DeepestLevel {
      StackingIsPlugging(field, held);
    } else {
      var stacked := Stacked(field, held);
      SlotHeight(stacked, stacked.depth, OfBase(held.base));
      SlotHeight(held, held.depth, OfBase(held.base));
      SlotHeight(field, field.depth, Whole(held));
    }
  }

  // ----- stacking is associative -----

  lemma MarkedAgain(a: seq<Mark>, b: seq<Mark>, mark: Mark, under: nat)
    ensures MarkedOver(a, Marked(b, mark), under)
         == Marked(MarkedOver(a, b, under), Mark(SaturatingAdd(mark.level, under), mark.length))
  {
    if IsMarked(b, mark.level) {
      var i :| 0 <= i < |b| && b[i].level == mark.level;
      MarkedOverIsMarked(a, b, under, SaturatingAdd(mark.level, under));
    } else {
      assert (b + [mark])[..|b|] == b;
    }
  }

  lemma {:induction false} MarkingAssociates(a: seq<Mark>, b: seq<Mark>, c: seq<Mark>, underB: nat, underC: nat)
    ensures MarkedOver(MarkedOver(a, b, underB), c, SaturatingAdd(underB, underC))
         == MarkedOver(a, MarkedOver(b, c, underC), underB)
  {
    if c != [] {
      var n := |c| - 1;
      MarkingAssociates(a, b, c[..n], underB, underC);
      MarkedAgain(a, MarkedOver(b, c[..n], underC), Mark(SaturatingAdd(c[n].level, underC), c[n].length), underB);
    }
  }

  /** Stacking associates, in every field of the outcome, whatever the depths. */
  lemma StackingAssociates(a: FieldDef, b: FieldDef, c: FieldDef)
    ensures Stacked(a, Stacked(b, c)) == Stacked(Stacked(a, b), c)
  {
    MarkingAssociates(c.nullable, b.nullable, a.nullable, c.depth, b.depth);
    MarkingAssociates(c.lengths, b.lengths, a.lengths, c.depth, b.depth);
    MarkingAssociates(c.sets, b.sets, a.sets, c.depth, b.depth);
  }

  // ----- a collection's elements -----

  predicate HoldsAByte(field: FieldDef) {
    field.depth == 0 && field.base == Plain(U8) && !IsMarked(field.nullable, 0)
  }

  /** The element of a collection `field` names, as the field the collection's wire form makes it. */
  function CollectionElement(field: FieldDef, element: FieldDef): FieldDef {
    Stacked(field, Arrayed(field, element))
  }

  function Arrayed(field: FieldDef, element: FieldDef): FieldDef {
    element.(
      depth := SaturatingAdd(element.depth, 1),
      sets := if field.base.Sibling? && IsSetWrapper(field.base.name)
        then Marked(element.sets, Mark(element.depth, None)) else element.sets,
      bytes := element.bytes || (field.base.Sibling? && field.base.name == "Vec" && HoldsAByte(element)))
  }

  lemma ArrayedIsListed(field: FieldDef, element: FieldDef)
    requires field.base.Sibling? && Sound(element) && element.depth < DeepestLevel
    ensures Sound(Arrayed(field, element))
    ensures Whole(Arrayed(field, element)) == Listed(Whole(element), IsSetWrapper(field.base.name), None)
  {
    var arrayed, t := Arrayed(field, element), OfBase(element.base);
    assert !IsMarked(element.sets, element.depth) && !IsMarked(element.lengths, element.depth);
    MarkedIsMarked(element.sets, Mark(element.depth, None), element.depth);
    AppendedLength(element.lengths, Mark(element.depth, None), element.depth);
    ArrayedBelow(field, element, element.depth, t);
    assert !IsMarked(arrayed.nullable, arrayed.depth);
    assert Slot(arrayed, arrayed.depth, t) == Bare(arrayed, arrayed.depth, t);
    assert IsMarked(arrayed.sets, element.depth) <==> IsSetWrapper(field.base.name);
  }

  lemma {:induction false} ArrayedBelow(field: FieldDef, element: FieldDef, level: nat, t: Nested)
    requires field.base.Sibling? && Sound(element) && level <= element.depth < DeepestLevel
    ensures Slot(Arrayed(field, element), level, t) == Slot(element, level, t)
  {
    if level > 0 {
      ArrayedBelow(field, element, level - 1, t);
      MarkedIsMarked(element.sets, Mark(element.depth, None), level - 1);
    }
  }

  /** A collection's element field stands for the collection itself. */
  lemma CollectionElementIsTheCollection(field: FieldDef, element: FieldDef)
    requires field.base.Sibling? && field.base.arguments == [element] && IsSequenceWrapper(field.base.name)
    requires Sound(field) && Sound(element) && field.depth + element.depth < DeepestLevel
    ensures Whole(CollectionElement(field, element)) == Whole(field)
    ensures Sound(CollectionElement(field, element))
  {
    ArrayedIsListed(field, element);
    StackingIsPlugging(field, Arrayed(field, element));
    assert field.base.arguments[0] == element;
  }

  // ----- which fields -----

  /** The marks of `field` and of every field in it are within it, and no position is so deep that its
      collections' levels would pass the last. */
  ghost predicate Readable(field: FieldDef)
    decreases field.base, 1
  {
    Sound(field) && Height(Whole(field)) <= DeepestLevel && ReadableBase(field.base)
  }

  ghost predicate ReadableBase(base: FieldBase)
    decreases base, 0
  {
    match base
    case Plain(_) => true
    case Tuple(elements) => AllReadable(elements)
    case Range(_, bound) => Readable(bound)
    case ResultOf(ok, err) => Readable(ok) && Readable(err)
    case MapOf(key, value) => Readable(key) && Readable(value)
    case Sibling(_, arguments) => AllReadable(arguments)
    case TypeParam(_) => true
  }

  ghost predicate AllReadable(fields: seq<FieldDef>)
    decreases fields, 0
  {
    fields == [] || (Readable(fields[0]) && AllReadable(fields[1..]))
  }

  /** What the levels of a collection's element field say below the collection's own. */
  lemma CombinedIsTheCollection(field: FieldDef, element: FieldDef)
    requires field.base.Sibling? && field.base.arguments == [element] && IsSequenceWrapper(field.base.name)
    requires Readable(field)
    ensures var combined := CollectionElement(field, element);
      && combined.base == element.base
      && combined.depth - field.depth == element.depth + 1
      && Readable(combined)
      && Bare(combined, element.depth + 1, OfBase(element.base)) == OfBase(field.base)
  {
    assert ReadableBase(field.base) && AllReadable(field.base.arguments);
    assert Readable(field.base.arguments[0]);
    SlotHeight(field, field.depth, OfBase(field.base));
    SlotHeight(element, element.depth, OfBase(element.base));
    var combined, arrayed := CollectionElement(field, element), Arrayed(field, element);
    CollectionElementIsTheCollection(field, element);
    ArrayedIsListed(field, element);
    StackedBelow(field, arrayed, element.depth + 1, OfBase(element.base));
    assert !IsMarked(arrayed.nullable, arrayed.depth);
  }
}
