/** The flat list a recovering decode is told a field's type by: the nested type's nodes in preorder,
    each with how many follow under it. The list reads back to the one tree and stops at its end. */
module Expected {
  import opened Wrappers
  import opened Levels
  import opened Decimals
  import opened Integers

  /** A member of the list: its name, the names it carries, and how many members follow under it. */
  datatype Told = Told(member: string, names: seq<string>, under: nat)

  datatype Tree = Node(member: string, names: seq<string>, under: seq<Tree>)

  function Leafy(member: string): Tree {
    Node(member, [], [])
  }

  function ScalarName(scalar: Scalar): string {
    match scalar
    case Boolean => "Boolean"
    case Char => "Char"
    case String => "String"
    case Unknown => "Unknown"
    case F32 => "F32"
    case F64 => "F64"
    case U8 => "U8"
    case U16 => "U16"
    case U32 => "U32"
    case U64 => "U64"
    case Usize => "Usize"
    case I8 => "I8"
    case I16 => "I16"
    case I32 => "I32"
    case I64 => "I64"
    case Isize => "Isize"
  }

  function KindName(kind: RangeKind): string {
    match kind
    case RangeFrom => "RangeFrom"
    case HalfOpen => "Range"
    case Inclusive => "RangeInclusive"
    case RangeTo => "RangeTo"
  }

  /** The name Rust has for a scalar, where it has one. */
  function RustName(scalar: Scalar): string {
    if IsFloat(scalar) then "f" + NatText(if scalar.F32? then 32 else 64)
    else if Bits(scalar) == 0 then ""
    else
      (if IsSigned(scalar) then "i" else "u")
      + if scalar.Usize? || scalar.Isize? then "size" else NatText(Bits(scalar))
  }

  predicate IsFloat(scalar: Scalar) {
    scalar.F32? || scalar.F64?
  }

  function Capitalised(name: string): string {
    if name != [] && 'a' <= name[0] <= 'z' then [(name[0] as int - 32) as char] + name[1..] else name
  }

  lemma WidthTexts()
    ensures NatText(8) == "8" && NatText(16) == "16" && NatText(32) == "32" && NatText(64) == "64"
  {
    assert NatText(16) == NatText(1) + "6";
    assert NatText(32) == NatText(3) + "2";
    assert NatText(64) == NatText(6) + "4";
  }

  lemma CapitalFirst(sign: string, width: string)
    requires sign == "u" || sign == "i" || sign == "f"
    ensures Capitalised(sign + width)
         == (if sign == "u" then "U" else if sign == "i" then "I" else "F") + width
  {
    assert (sign + width)[1..] == width;
  }

  /** A number is told by Rust's own name for it, capitalised. */
  lemma NumbersAreRusts(scalar: Scalar)
    requires IsFloat(scalar) || Bits(scalar) > 0
    ensures ScalarName(scalar) == Capitalised(RustName(scalar))
  {
    WidthTexts();
    if IsFloat(scalar) {
      CapitalFirst("f", NatText(if scalar.F32? then 32 else 64));
    } else {
      CapitalFirst(if IsSigned(scalar) then "i" else "u",
        if scalar.Usize? || scalar.Isize? then "size" else NatText(Bits(scalar)));
    }
  }

  /** A range is told by the name it is declared under, which says which bound it has if it has one, and
      that its end is in it where it is. */
  lemma RangesAreRusts(kind: RangeKind)
    ensures !HasEnd(kind) ==> KindName(kind) == "Range" + "From"
    ensures !HasStart(kind) ==> KindName(kind) == "Range" + "To"
    ensures HasStart(kind) && HasEnd(kind) ==> KindName(kind) == "Range" + if kind.Inclusive? then "Inclusive" else ""
  {
  }

  predicate IsRefusedSequenceWrapper(name: string) {
    name == "LinkedList"
  }

  /** The tree a nested type is told as: a `Result` as the variants it is written under, with nothing
      under them, and a map as its values. */
  function TreeOf(t: Nested): Tree {
    match t
    case Leaf(scalar) => Leafy(ScalarName(scalar))
    case Group(elements) => Node("Tuple", [], TreesOf(elements))
    case Bounds(kind, bound) => Node("Range", [KindName(kind)], [TreeOf(bound)])
    case Either(_, _) => Node("Variants", ["Ok", "Err"], [])
    case Entries(_, value) => Node("Map", [], [TreeOf(value)])
    case Named(name, arguments) =>
      if |arguments| == 1 && IsRefusedSequenceWrapper(name) then Node("Array", [], [TreeOf(arguments[0])])
      else Node("Model", [name], [])
    case Parameter(parameter) => Node("TypeParam", [parameter], [])
    case Listed(item, _, _) => Node("Array", [], [TreeOf(item)])
    case Optional(held) => Node("Optional", [], [TreeOf(held)])
  }

  function TreesOf(ts: seq<Nested>): seq<Tree> {
    if ts == [] then [] else [TreeOf(ts[0])] + TreesOf(ts[1..])
  }

  function Preorder(t: Tree): seq<Told>
    decreases t, 1
  {
    [Told(t.member, t.names, |t.under|)] + PreorderAll(t.under)
  }

  function PreorderAll(ts: seq<Tree>): seq<Told>
    decreases ts, 0
  {
    if ts == [] then [] else Preorder(ts[0]) + PreorderAll(ts[1..])
  }

  // ----- the walk -----

  /** The members of `field`'s type as `ExpectedMembers` pushes them. */
  method ExpectedMembers(field: FieldDef) returns (members: seq<Told>)
    ensures members == Preorder(TreeOf(Whole(field)))
    decreases field, 1
  {
    members := [];
    ghost var t := OfBase(field.base);
    BareIsNoOption(field, 0);
    for level := field.depth + 1 downto 0
      invariant members + StillTold(field, level, t) == Preorder(TreeOf(Whole(field)))
    {
      LevelTold(field, level, t, members);
      if IsMarked(field.nullable, level) {
        members := members + [Told("Optional", [], 1)];
      }
      if level > 0 {
        members := members + [Told("Array", [], 1)];
      }
    }
    var own := OwnMembers(field.base);
    members := members + own;
  }

  /** The category, and the members under it. */
  method OwnMembers(base: FieldBase) returns (members: seq<Told>)
    ensures members == Preorder(TreeOf(OfBase(base)))
    decreases base, 0
  {
    match base {
      case Plain(scalar) => members := [Told(ScalarName(scalar), [], 0)];
      case Tuple(elements) =>
        var under := MembersUnder(elements);
        WholesAt(elements, 0);
        TreesCount(Wholes(elements));
        members := [Told("Tuple", [], |elements|)] + under;
      case Range(kind, bound) =>
        var under := ExpectedMembers(bound);
        OneUnder("Range", [KindName(kind)], Whole(bound));
        members := [Told("Range", [KindName(kind)], 1)] + under;
      case ResultOf(_, _) => members := [Told("Variants", ["Ok", "Err"], 0)];
      case MapOf(_, value) =>
        var under := ExpectedMembers(value);
        OneUnder("Map", [], Whole(value));
        members := [Told("Map", [], 1)] + under;
      case Sibling(name, arguments) =>
        WholesAt(arguments, 0);
        if |arguments| == 1 && (IsSequenceWrapper(name) || IsRefusedSequenceWrapper(name)) {
          var under := ExpectedMembers(arguments[0]);
          OneUnder("Array", [], Whole(arguments[0]));
          members := [Told("Array", [], 1)] + under;
        } else {
          members := [Told("Model", [name], 0)];
        }
      case TypeParam(parameter) => members := [Told("TypeParam", [parameter], 0)];
    }
  }

  method MembersUnder(fields: seq<FieldDef>) returns (members: seq<Told>)
    ensures members == PreorderAll(TreesOf(Wholes(fields)))
    decreases fields, 0
  {
    members := [];
    for i := 0 to |fields|
      invariant members + PreorderAll(TreesOf(Wholes(fields[i..]))) == PreorderAll(TreesOf(Wholes(fields)))
    {
      FirstTold(fields[i..]);
      assert fields[i..][0] == fields[i] && fields[i..][1..] == fields[i + 1..];
      var more := ExpectedMembers(fields[i]);
      members := members + more;
    }
  }

  lemma OneUnder(member: string, names: seq<string>, t: Nested)
    ensures Preorder(Node(member, names, [TreeOf(t)])) == [Told(member, names, 1)] + Preorder(TreeOf(t))
  {
    var under := [TreeOf(t)];
    assert under[1..] == [] && PreorderAll(under[1..]) == [];
  }

  /** What is still to be told of the levels below `levels`. */
  function StillTold(field: FieldDef, levels: nat, t: Nested): seq<Told> {
    if levels == 0 then Preorder(TreeOf(t)) else Preorder(TreeOf(Slot(field, levels - 1, t)))
  }

  function Pushed(told: seq<Told>, pushed: bool, member: string): seq<Told> {
    if pushed then told + [Told(member, [], 1)] else told
  }

  /** A level adds its `Optional` and its `Array` ahead of what it holds. */
  lemma LevelTold(field: FieldDef, level: nat, t: Nested, told: seq<Told>)
    requires !t.Optional?
    ensures told + StillTold(field, level + 1, t)
         == Pushed(Pushed(told, IsMarked(field.nullable, level), "Optional"), level > 0, "Array")
           + StillTold(field, level, t)
  {
    var rest := StillTold(field, level, t);
    var optional := Pushed(told, IsMarked(field.nullable, level), "Optional");
    OneUnder("Optional", [], Bare(field, level, t));
    if level > 0 {
      OneUnder("Array", [], Slot(field, level - 1, t));
      ToldInTurn(optional, [Told("Array", [], 1)], rest);
    }
    ToldInTurn(told, [Told("Optional", [], 1)], Preorder(TreeOf(Bare(field, level, t))));
  }

  lemma ToldInTurn(a: seq<Told>, b: seq<Told>, c: seq<Told>)
    ensures a + (b + c) == a + b + c
  {
  }

  lemma {:induction false} TreesCount(ts: seq<Nested>)
    ensures |TreesOf(ts)| == |ts|
  {
    if ts != [] {
      TreesCount(ts[1..]);
    }
  }

  lemma FirstTold(fields: seq<FieldDef>)
    requires fields != []
    ensures PreorderAll(TreesOf(Wholes(fields))) == Preorder(TreeOf(Whole(fields[0])))
      + PreorderAll(TreesOf(Wholes(fields[1..])))
  {
    assert Wholes(fields)[1..] == Wholes(fields[1..]);
    var trees := TreesOf(Wholes(fields));
    assert trees[1..] == TreesOf(Wholes(fields[1..]));
  }

  // ----- reading the list back -----

  datatype Reading<T> = Reading(read: T, rest: seq<Told>)

  /** One tree off the head of the list. */
  function ReadTree(list: seq<Told>): (r: Option<Reading<Tree>>)
    ensures r.Some? ==> |r.value.rest| < |list|
    decreases |list|, 0
  {
    if list == [] then None
    else
      var under := ReadTrees(list[0].under, list[1..]);
      if under.None? then None
      else Some(Reading(Node(list[0].member, list[0].names, under.value.read), under.value.rest))
  }

  function ReadTrees(count: nat, list: seq<Told>): (r: Option<Reading<seq<Tree>>>)
    ensures r.Some? ==> |r.value.rest| <= |list|
    decreases |list|, 1
  {
    if count == 0 then Some(Reading([], list))
    else
      var first := ReadTree(list);
      if first.None? then None
      else
        var more := ReadTrees(count - 1, first.value.rest);
        if more.None? then None else Some(Reading([first.value.read] + more.value.read, more.value.rest))
  }

  /** The list of a tree, whatever follows it, reads back as the tree and what follows. */
  lemma {:induction false} ReadsBack(t: Tree, suffix: seq<Told>)
    ensures ReadTree(Preorder(t) + suffix) == Some(Reading(t, suffix))
    decreases t, 1
  {
    var list := Preorder(t) + suffix;
    assert list[1..] == PreorderAll(t.under) + suffix;
    AllReadBack(t.under, suffix);
  }

  lemma {:induction false} AllReadBack(ts: seq<Tree>, suffix: seq<Told>)
    ensures ReadTrees(|ts|, PreorderAll(ts) + suffix) == Some(Reading(ts, suffix))
    decreases ts, 0
  {
    if ts == [] {
      assert PreorderAll(ts) + suffix == suffix;
    } else {
      assert PreorderAll(ts) + suffix == Preorder(ts[0]) + (PreorderAll(ts[1..]) + suffix);
      ReadsBack(ts[0], PreorderAll(ts[1..]) + suffix);
      AllReadBack(ts[1..], suffix);
      assert [ts[0]] + ts[1..] == ts;
    }
  }

  /** Two types told by the same list, or by lists of which one begins the other, are told by the same
      tree: and then nothing follows the one that does not follow the other. */
  lemma NoListBeginsAnother(one: FieldDef, other: FieldDef, after: seq<Told>, afterOther: seq<Told>)
    requires Preorder(TreeOf(Whole(one))) + after == Preorder(TreeOf(Whole(other))) + afterOther
    ensures TreeOf(Whole(one)) == TreeOf(Whole(other)) && after == afterOther
  {
    ReadsBack(TreeOf(Whole(one)), after);
    ReadsBack(TreeOf(Whole(other)), afterOther);
  }
}
