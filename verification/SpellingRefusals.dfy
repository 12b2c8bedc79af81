/** Which constructs of a pattern have no JavaScript reading, told by what stands in its tree: a pattern
    is refused exactly where one of them does, and as the first of them in the order of the text. */
module SpellingRefusals {
  import opened Wrappers
  import opened Spelling

  /** What stands somewhere in a tree: a part of it, of a class, or a literal or a flag of one. */
  datatype Node =
    | OfTree(ast: Ast)
    | OfSet(set_: ClassSet)
    | OfItem(item: ClassItem)
    | OfLiteral(lit: Lit, inClass: bool)
    | OfFlag(flag: Flag)

  /** What stands in `ast`, in the order of its text. */
  function Nodes(ast: Ast): seq<Node> {
    [OfTree(ast)] +
    match ast
    case Literal(lit) => [OfLiteral(lit, false)]
    case ClassBracketed(class_) => SetNodes(class_.kind)
    case Repetition(inner, _) => Nodes(inner)
    case Group(_, group, inner) => (if group.NonCapturing? then FlagNodes(group.items) else []) + Nodes(inner)
    case Alternation(asts) => AllNodes(asts)
    case Concat(asts) => AllNodes(asts)
    case _ => []
  }

  function AllNodes(asts: seq<Ast>): seq<Node> {
    if asts == [] then [] else Nodes(asts[0]) + AllNodes(asts[1..])
  }

  function FlagNodes(items: seq<FlagItem>): seq<Node> {
    if items == [] then []
    else (if items[0].FlagItem? then [OfFlag(items[0].flag)] else []) + FlagNodes(items[1..])
  }

  function SetNodes(set_: ClassSet): seq<Node> {
    [OfSet(set_)] +
    match set_
    case Item(item) => ItemNodes(item)
    case BinaryOp(_, lhs, rhs) => SetNodes(lhs) + SetNodes(rhs)
  }

  function ItemNodes(item: ClassItem): seq<Node> {
    [OfItem(item)] +
    match item
    case LiteralItem(lit) => [OfLiteral(lit, true)]
    case RangeItem(low, high) => [OfLiteral(low, true), OfLiteral(high, true)]
    case BracketedItem(class_) => SetNodes(class_.kind)
    case UnionItem(items) => ItemsNodes(items)
    case _ => []
  }

  function ItemsNodes(items: seq<ClassItem>): seq<Node> {
    if items == [] then [] else ItemNodes(items[0]) + ItemsNodes(items[1..])
  }

  // ----- what has no reading -----

  /** A construct both grammars read and pick out different characters by: `.`, and whatever takes the
      characters that are not some. */
  ghost predicate TakesOthers(node: Node, written: Construct) {
    match written
    case AnyCharacter => node == OfTree(Dot)
    case NegatedClass => node.OfTree? && node.ast.ClassBracketed? && node.ast.bracketed.negated
    case NegatedPerl(kind) =>
      || (node.OfTree? && node.ast.ClassPerl? && node.ast.perl.negated && node.ast.perl.kind == kind)
      || (node.OfItem? && node.item.PerlItem? && node.item.perl.negated && node.item.perl.kind == kind)
    case _ => false
  }

  /** The flags JavaScript has had since after the baseline. */
  predicate IsLater(flag: Flag) {
    flag in {CaseInsensitive, MultiLine, DotMatchesNewLine}
  }

  /** A construct a JavaScript regex literal reads as something else, or does not parse. */
  ghost predicate IsNotRead(node: Node, written: Construct) {
    match written
    case FlagDirective => node.OfTree? && node.ast.Flags?
    case TextAnchor => node.OfTree? && node.ast.Assertion? && node.ast.kind in {StartText, EndText}
    case DirectedBoundary =>
      && node.OfTree? && node.ast.Assertion?
      && node.ast.kind !in {StartLine, EndLine, WordBoundary, NotWordBoundary, StartText, EndText}
    case UnicodeClass => (node.OfTree? && node.ast.ClassUnicode?) || (node.OfItem? && node.item.UnicodeItem?)
    case PosixClass => node.OfItem? && node.item.AsciiItem?
    case NestedClass => node.OfItem? && node.item.BracketedItem?
    case ClassOperator => node.OfSet? && node.set_.BinaryOp?
    case BareBracket => node.OfLiteral? && node.inClass && node.lit.c == ']' && node.lit.kind == Verbatim
    case OctalEscape => node.OfLiteral? && node.lit.kind == Octal
    case BracedEscape => node.OfLiteral? && node.lit.kind == HexBrace
    case LongEscape => node.OfLiteral? && node.lit.kind == HexFixed(UnicodeLong)
    case BellEscape => node.OfLiteral? && node.lit.kind == Escaped(Bell)
    case FlaggedGroup(flag) => node == OfFlag(flag) && !IsLater(flag)
    case _ => false
  }

  /** What stands there has no JavaScript reading, in one way of three. */
  ghost predicate IsUnportable(node: Node, refusal: Unportable) {
    match refusal.divergence
    case ValueSet => TakesOthers(node, refusal.written)
    case Unreadable => IsNotRead(node, refusal.written)
    case AboveBaseline =>
      refusal.written.FlaggedGroup? && node == OfFlag(refusal.written.flag) && IsLater(refusal.written.flag)
  }

  ghost predicate IsPortable(node: Node) {
    forall refusal :: !IsUnportable(node, refusal)
  }

  /** `refusal` is of the first of `nodes` that has no reading, and none where each has one. */
  ghost predicate IsOfTheFirst(nodes: seq<Node>, refusal: Option<Unportable>) {
    if refusal.None? then AllPortable(nodes, |nodes|)
    else exists k :: 0 <= k < |nodes| && IsUnportable(nodes[k], refusal.value) && AllPortable(nodes, k)
  }

  /** Each of the first `n` nodes has a reading. */
  ghost predicate AllPortable(nodes: seq<Node>, n: nat)
    requires n <= |nodes|
  {
    forall i :: 0 <= i < n ==> IsPortable(nodes[i])
  }

  lemma OfTheFirstOfBoth(one: seq<Node>, other: seq<Node>, first: Option<Unportable>, later: Option<Unportable>)
    requires IsOfTheFirst(one, first) && IsOfTheFirst(other, later)
    ensures IsOfTheFirst(one + other, Kept(first, later))
  {
    var both := one + other;
    if first.Some? {
      var k :| 0 <= k < |one| && IsUnportable(one[k], first.value) && AllPortable(one, k);
      assert both[k] == one[k] && forall i :: 0 <= i < k ==> both[i] == one[i];
    } else if later.Some? {
      var k :| 0 <= k < |other| && IsUnportable(other[k], later.value) && AllPortable(other, k);
      assert both[|one| + k] == other[k];
      forall i | 0 <= i < |one| + k ensures IsPortable(both[i]) {
        assert both[i] == if i < |one| then one[i] else other[i - |one|];
      }
    } else {
      forall i | 0 <= i < |both| ensures IsPortable(both[i]) {
        assert both[i] == if i < |one| then one[i] else other[i - |one|];
      }
    }
  }

  lemma OneNode(node: Node, refusal: Option<Unportable>)
    requires if refusal.Some? then IsUnportable(node, refusal.value) else IsPortable(node)
    ensures IsOfTheFirst([node], refusal)
  {
    assert [node][0] == node;
  }

  lemma NoNode()
    ensures IsOfTheFirst([], None)
  {
  }

  // ----- each construct -----

  lemma LiteralRefuses(lit: Lit, inClass: bool)
    ensures IsOfTheFirst([OfLiteral(lit, inClass)], LitRefusal(lit, inClass))
  {
    OneNode(OfLiteral(lit, inClass), LitRefusal(lit, inClass));
  }

  lemma {:induction false} FlagsRefuse(items: seq<FlagItem>)
    ensures IsOfTheFirst(FlagNodes(items), FlagsRefusal(items))
  {
    if items != [] {
      FlagsRefuse(items[1..]);
      if items[0].FlagItem? {
        var flag := items[0].flag;
        var node, refusal := OfFlag(flag), Refusing(FlaggedGroup(flag), FlagDivergence(flag));
        OneNode(node, refusal);
        OfTheFirstOfBoth([node], FlagNodes(items[1..]), refusal, FlagsRefusal(items[1..]));
      } else {
        assert [] + FlagNodes(items[1..]) == FlagNodes(items[1..]);
      }
    }
  }

  lemma {:induction false} SetRefuses(set_: ClassSet)
    ensures IsOfTheFirst(SetNodes(set_), SetRefusal(set_))
  {
    match set_
    case Item(item) =>
      ItemRefuses(item);
      OneNode(OfSet(set_), None);
      OfTheFirstOfBoth([OfSet(set_)], ItemNodes(item), None, ItemRefusal(item));
    case BinaryOp(_, lhs, rhs) =>
      SetRefuses(lhs);
      SetRefuses(rhs);
      OneNode(OfSet(set_), Refusing(ClassOperator, Unreadable));
      OfTheFirstOfBoth(SetNodes(lhs), SetNodes(rhs), SetRefusal(lhs), SetRefusal(rhs));
      OfTheFirstOfBoth([OfSet(set_)], SetNodes(lhs) + SetNodes(rhs), Refusing(ClassOperator, Unreadable),
        Kept(SetRefusal(lhs), SetRefusal(rhs)));
  }

  /** What a class member is refused for itself, before what it holds. */
  function OwnItemRefusal(item: ClassItem): Option<Unportable> {
    match item
    case PerlItem(perl) => PerlRefusal(perl)
    case AsciiItem(_) => Refusing(PosixClass, Unreadable)
    case UnicodeItem(_) => Refusing(UnicodeClass, Unreadable)
    case BracketedItem(_) => Refusing(NestedClass, Unreadable)
    case _ => None
  }

  lemma {:induction false} ItemRefuses(item: ClassItem)
    ensures IsOfTheFirst(ItemNodes(item), ItemRefusal(item))
  {
    var node, own := OfItem(item), OwnItemRefusal(item);
    OneNode(node, own);
    match item
    case LiteralItem(lit) =>
      LiteralRefuses(lit, true);
      OfTheFirstOfBoth([node], [OfLiteral(lit, true)], own, LitRefusal(lit, true));
    case RangeItem(low, high) =>
      LiteralRefuses(low, true);
      LiteralRefuses(high, true);
      OfTheFirstOfBoth([OfLiteral(low, true)], [OfLiteral(high, true)], LitRefusal(low, true), LitRefusal(high, true));
      assert [OfLiteral(low, true)] + [OfLiteral(high, true)] == [OfLiteral(low, true), OfLiteral(high, true)];
      OfTheFirstOfBoth([node], [OfLiteral(low, true), OfLiteral(high, true)], own,
        Kept(LitRefusal(low, true), LitRefusal(high, true)));
    case BracketedItem(class_) =>
      SetRefuses(class_.kind);
      OfTheFirstOfBoth([node], SetNodes(class_.kind), own, SetRefusal(class_.kind));
    case UnionItem(items) =>
      ItemsRefuse(items);
      OfTheFirstOfBoth([node], ItemsNodes(items), own, ItemsRefusal(items));
    case _ => assert [node] + [] == [node];
  }

  lemma {:induction false} ItemsRefuse(items: seq<ClassItem>)
    ensures IsOfTheFirst(ItemsNodes(items), ItemsRefusal(items))
  {
    if items != [] {
      ItemRefuses(items[0]);
      ItemsRefuse(items[1..]);
      OfTheFirstOfBoth(ItemNodes(items[0]), ItemsNodes(items[1..]), ItemRefusal(items[0]), ItemsRefusal(items[1..]));
    }
  }

  /** What a part of a tree is refused for itself, before what it holds. */
  function OwnRefusal(ast: Ast): Option<Unportable> {
    match ast
    case Dot => Refusing(AnyCharacter, ValueSet)
    case ClassPerl(perl) => PerlRefusal(perl)
    case Flags(_) => Refusing(FlagDirective, Unreadable)
    case Assertion(kind, _) => AssertionRefusal(kind)
    case ClassUnicode(_) => Refusing(UnicodeClass, Unreadable)
    case ClassBracketed(class_) => if class_.negated then Refusing(NegatedClass, ValueSet) else None
    case _ => None
  }

  /** A pattern is refused where something in it has no JavaScript reading, as the first of it is, and is
      portable where nothing in it has none. */
  lemma {:induction false} RefusesTheFirst(ast: Ast)
    ensures IsOfTheFirst(Nodes(ast), Refusal(ast))
    decreases ast, 0
  {
    var node, own := OfTree(ast), OwnRefusal(ast);
    OneNode(node, own);
    match ast
    case Literal(lit) =>
      LiteralRefuses(lit, false);
      OfTheFirstOfBoth([node], [OfLiteral(lit, false)], own, LitRefusal(lit, false));
    case ClassBracketed(class_) =>
      SetRefuses(class_.kind);
      OfTheFirstOfBoth([node], SetNodes(class_.kind), own, SetRefusal(class_.kind));
    case Repetition(inner, _) =>
      RefusesTheFirst(inner);
      OfTheFirstOfBoth([node], Nodes(inner), own, Refusal(inner));
    case Group(_, group, inner) =>
      GroupRefuses(group, inner);
      OfTheFirstOfBoth([node], (if group.NonCapturing? then FlagNodes(group.items) else []) + Nodes(inner), own,
        Kept(GroupRefusal(group), Refusal(inner)));
    case Alternation(asts) =>
      AllRefuse(asts);
      OfTheFirstOfBoth([node], AllNodes(asts), own, RefusalAll(asts));
    case Concat(asts) =>
      AllRefuse(asts);
      OfTheFirstOfBoth([node], AllNodes(asts), own, RefusalAll(asts));
    case _ => assert [node] + [] == [node];
  }

  lemma {:induction false} GroupRefuses(group: GroupKind, inner: Ast)
    ensures IsOfTheFirst((if group.NonCapturing? then FlagNodes(group.items) else []) + Nodes(inner),
              Kept(GroupRefusal(group), Refusal(inner)))
    decreases inner, 1
  {
    RefusesTheFirst(inner);
    if group.NonCapturing? {
      FlagsRefuse(group.items);
      OfTheFirstOfBoth(FlagNodes(group.items), Nodes(inner), GroupRefusal(group), Refusal(inner));
    } else {
      NoNode();
      OfTheFirstOfBoth([], Nodes(inner), None, Refusal(inner));
    }
  }

  lemma {:induction false} AllRefuse(asts: seq<Ast>)
    ensures IsOfTheFirst(AllNodes(asts), RefusalAll(asts))
    decreases asts, 0
  {
    if asts != [] {
      RefusesTheFirst(asts[0]);
      AllRefuse(asts[1..]);
      OfTheFirstOfBoth(Nodes(asts[0]), AllNodes(asts[1..]), Refusal(asts[0]), RefusalAll(asts[1..]));
    }
  }
}
