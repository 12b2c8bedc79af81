/** A pattern's JavaScript spelling: the walk over its syntax tree that collects byte-span edits and
    the first construct with no JavaScript reading, and the splice that applies the edits. A text is
    the sequence of its bytes, one `char` each, so that a span is a range of indices. */
module Spelling {
  import opened Wrappers
  import opened Texts

  // ----- the syntax tree, as the parser hands it over -----

  datatype Span = Span(start: nat, end: nat)

  datatype HexWidth = X | UnicodeShort | UnicodeLong
  datatype Special = Bell | FormFeed | Tab | LineFeed | CarriageReturn | VerticalTab | Space
  datatype LitKind =
    | Verbatim | Meta | Superfluous | Octal | HexFixed(width: HexWidth) | HexBrace | Escaped(special: Special)

  /** A literal: how it is written, as which text, and the character it is. */
  datatype Lit = Lit(kind: LitKind, text: string, c: char)

  datatype AssertionKind =
    | StartLine | EndLine | StartText | EndText | WordBoundary | NotWordBoundary
    | WordBoundaryStart | WordBoundaryEnd | WordBoundaryStartAngle | WordBoundaryEndAngle
    | WordBoundaryStartHalf | WordBoundaryEndHalf

  datatype PerlKind = Digit | Whitespace | WordCharacter

  datatype Perl = Perl(kind: PerlKind, negated: bool, span: Span)

  datatype Flag = CaseInsensitive | MultiLine | DotMatchesNewLine | SwapGreed | Unicode | CRLF | IgnoreWhitespace
  datatype FlagItem = Negation | FlagItem(flag: Flag)

  datatype GroupKind = CaptureIndex | CaptureName(startsWithP: bool, name: string) | NonCapturing(items: seq<FlagItem>)

  datatype ClassOp = Intersection | Difference | SymmetricDifference

  datatype Bracketed = Bracketed(negated: bool, kind: ClassSet)
  datatype ClassSet = Item(item: ClassItem) | BinaryOp(op: ClassOp, lhs: ClassSet, rhs: ClassSet)
  datatype ClassItem =
    | EmptyItem
    | LiteralItem(lit: Lit)
    | RangeItem(low: Lit, high: Lit)
    | AsciiItem(text: string)
    | UnicodeItem(text: string)
    | PerlItem(perl: Perl)
    | BracketedItem(bracketed: Bracketed)
    | UnionItem(items: seq<ClassItem>)

  datatype Ast =
    | Empty
    | Flags(text: string)
    | Literal(lit: Lit)
    | Dot
    | Assertion(kind: AssertionKind, text: string)
    | ClassUnicode(text: string)
    | ClassPerl(perl: Perl)
    | ClassBracketed(bracketed: Bracketed)
    | Repetition(ast: Ast, op: string)
    | Group(start: nat, group: GroupKind, ast: Ast)
    | Alternation(asts: seq<Ast>)
    | Concat(asts: seq<Ast>)

  // ----- the text a tree was parsed from -----

  function PerlText(perl: Perl): string {
    match perl.kind
    case Digit => if perl.negated then "\\D" else "\\d"
    case Whitespace => if perl.negated then "\\S" else "\\s"
    case WordCharacter => if perl.negated then "\\W" else "\\w"
  }

  function FlagText(item: FlagItem): char {
    match item
    case Negation => '-'
    case FlagItem(CaseInsensitive) => 'i'
    case FlagItem(MultiLine) => 'm'
    case FlagItem(DotMatchesNewLine) => 's'
    case FlagItem(SwapGreed) => 'U'
    case FlagItem(Unicode) => 'u'
    case FlagItem(CRLF) => 'R'
    case FlagItem(IgnoreWhitespace) => 'x'
  }

  function Opening(group: GroupKind): string {
    match group
    case CaptureIndex => "("
    case CaptureName(p, name) => (if p then "(?P<" else "(?<") + name + ">"
    case NonCapturing(items) => "(?" + seq(|items|, i requires 0 <= i < |items| => FlagText(items[i])) + ":"
  }

  function OpText(op: ClassOp): string {
    match op case Intersection => "&&" case Difference => "--" case SymmetricDifference => "~~"
  }

  function PrintBracketed(class_: Bracketed): string {
    "[" + (if class_.negated then "^" else "") + PrintSet(class_.kind) + "]"
  }

  function PrintSet(set_: ClassSet): string {
    match set_
    case Item(item) => PrintItem(item)
    case BinaryOp(op, lhs, rhs) => PrintSet(lhs) + OpText(op) + PrintSet(rhs)
  }

  function PrintItem(item: ClassItem): string {
    match item
    case EmptyItem => ""
    case LiteralItem(lit) => lit.text
    case RangeItem(low, high) => low.text + "-" + high.text
    case AsciiItem(text) => text
    case UnicodeItem(text) => text
    case PerlItem(perl) => PerlText(perl)
    case BracketedItem(class_) => PrintBracketed(class_)
    case UnionItem(items) => PrintItems(items)
  }

  function PrintItems(items: seq<ClassItem>): string {
    if items == [] then "" else PrintItem(items[0]) + PrintItems(items[1..])
  }

  function Print(ast: Ast): string {
    match ast
    case Empty => ""
    case Flags(text) => text
    case Literal(lit) => lit.text
    case Dot => "."
    case Assertion(_, text) => text
    case ClassUnicode(text) => text
    case ClassPerl(perl) => PerlText(perl)
    case ClassBracketed(class_) => PrintBracketed(class_)
    case Repetition(inner, op) => Print(inner) + op
    case Group(_, group, inner) => Opening(group) + Print(inner) + ")"
    case Alternation(asts) => PrintAll(asts, "|")
    case Concat(asts) => PrintAll(asts, "")
  }

  function PrintAll(asts: seq<Ast>, between: string): string {
    if asts == [] then "" else if |asts| == 1 then Print(asts[0])
    else Print(asts[0]) + between + PrintAll(asts[1..], between)
  }

  // ----- where the parser says things stand -----

  ghost predicate PlacedPerl(perl: Perl, at: nat) {
    perl.span == Span(at, at + |PerlText(perl)|)
  }

  ghost predicate PlacedSet(set_: ClassSet, at: nat) {
    match set_
    case Item(item) => PlacedItem(item, at)
    case BinaryOp(op, lhs, rhs) => PlacedSet(lhs, at) && PlacedSet(rhs, at + |PrintSet(lhs)| + |OpText(op)|)
  }

  ghost predicate PlacedItem(item: ClassItem, at: nat) {
    match item
    case PerlItem(perl) => PlacedPerl(perl, at)
    case BracketedItem(class_) => PlacedSet(class_.kind, at + if class_.negated then 2 else 1)
    case UnionItem(items) => PlacedItems(items, at)
    case _ => true
  }

  ghost predicate PlacedItems(items: seq<ClassItem>, at: nat) {
    items == [] || (PlacedItem(items[0], at) && PlacedItems(items[1..], at + |PrintItem(items[0])|))
  }

  /** Every span of `ast` is where the text of `ast`, written from `at` on, has it. */
  ghost predicate Placed(ast: Ast, at: nat) {
    match ast
    case ClassPerl(perl) => PlacedPerl(perl, at)
    case ClassBracketed(class_) => PlacedSet(class_.kind, at + if class_.negated then 2 else 1)
    case Repetition(inner, _) => Placed(inner, at)
    case Group(start, group, inner) => start == at && Placed(inner, at + |Opening(group)|)
    case Alternation(asts) => PlacedAll(asts, "|", at)
    case Concat(asts) => PlacedAll(asts, "", at)
    case _ => true
  }

  ghost predicate PlacedAll(asts: seq<Ast>, between: string, at: nat) {
    asts == [] || (Placed(asts[0], at) && PlacedAll(asts[1..], between, at + |Print(asts[0])| + |between|))
  }

  // ----- what the walk collects -----

  datatype Divergence = AboveBaseline | Unreadable | ValueSet

  /** The constructs a JavaScript regex literal cannot be handed as written. */
  datatype Construct =
    | AnyCharacter | FlagDirective | TextAnchor | DirectedBoundary | UnicodeClass | PosixClass
    | NegatedClass | NestedClass | ClassOperator | BareBracket | OctalEscape | BracedEscape | LongEscape | BellEscape
    | NegatedPerl(kind: PerlKind) | FlaggedGroup(flag: Flag)

  datatype Unportable = Unportable(written: Construct, divergence: Divergence)

  /** A span and what it is rewritten to. */
  datatype Edit = Edit(span: Span, replacement: string)

  /** The first refusal, kept over any later one. */
  function Kept(first: Option<Unportable>, later: Option<Unportable>): Option<Unportable> {
    if first.Some? then first else later
  }

  function Refusing(written: Construct, divergence: Divergence): Option<Unportable> {
    Some(Unportable(written, divergence))
  }

  function Bare(kind: PerlKind): string {
    match kind
    case Digit => "0-9"
    case WordCharacter => "0-9A-Za-z_"
    case Whitespace => "\\t\\n\\v\\f\\r "
  }

  function InBrackets(kind: PerlKind): string {
    match kind
    case Digit => "[0-9]"
    case WordCharacter => "[0-9A-Za-z_]"
    case Whitespace => "[\\t\\n\\v\\f\\r ]"
  }

  function PerlEdits(perl: Perl, inClass: bool): seq<Edit> {
    if perl.negated then [] else [Edit(perl.span, if inClass then Bare(perl.kind) else InBrackets(perl.kind))]
  }

  function PerlRefusal(perl: Perl): Option<Unportable> {
    if perl.negated then Refusing(NegatedPerl(perl.kind), ValueSet) else None
  }

  function LitRefusal(lit: Lit, inClass: bool): Option<Unportable> {
    Kept(if inClass && lit.c == ']' && lit.kind == Verbatim then Refusing(BareBracket, Unreadable) else None,
      match lit.kind
      case Octal => Refusing(OctalEscape, Unreadable)
      case HexBrace => Refusing(BracedEscape, Unreadable)
      case HexFixed(UnicodeLong) => Refusing(LongEscape, Unreadable)
      case Escaped(Bell) => Refusing(BellEscape, Unreadable)
      case _ => None)
  }

  function AssertionRefusal(kind: AssertionKind): Option<Unportable> {
    match kind
    case StartLine => None
    case EndLine => None
    case WordBoundary => None
    case NotWordBoundary => None
    case StartText => Refusing(TextAnchor, Unreadable)
    case EndText => Refusing(TextAnchor, Unreadable)
    case _ => Refusing(DirectedBoundary, Unreadable)
  }

  function FlagDivergence(flag: Flag): Divergence {
    if flag == CaseInsensitive || flag == MultiLine || flag == DotMatchesNewLine then AboveBaseline else Unreadable
  }

  function FlagsRefusal(items: seq<FlagItem>): Option<Unportable> {
    if items == [] then None
    else if items[0].Negation? then FlagsRefusal(items[1..])
    else Refusing(FlaggedGroup(items[0].flag), FlagDivergence(items[0].flag))
  }

  /** The `P` of `(?P<`, two bytes into the group, is dropped. */
  function GroupEdits(start: nat, group: GroupKind): seq<Edit> {
    if group.CaptureName? && group.startsWithP then [Edit(Span(start + 2, start + 3), "")] else []
  }

  function GroupRefusal(group: GroupKind): Option<Unportable> {
    if group.NonCapturing? then FlagsRefusal(group.items) else None
  }

  function SetEdits(set_: ClassSet): seq<Edit> {
    match set_
    case Item(item) => ItemEdits(item)
    case BinaryOp(_, lhs, rhs) => SetEdits(lhs) + SetEdits(rhs)
  }

  function ItemEdits(item: ClassItem): seq<Edit> {
    match item
    case PerlItem(perl) => PerlEdits(perl, true)
    case BracketedItem(class_) => SetEdits(class_.kind)
    case UnionItem(items) => ItemsEdits(items)
    case _ => []
  }

  function ItemsEdits(items: seq<ClassItem>): seq<Edit> {
    if items == [] then [] else ItemEdits(items[0]) + ItemsEdits(items[1..])
  }

  function SetRefusal(set_: ClassSet): Option<Unportable> {
    match set_
    case Item(item) => ItemRefusal(item)
    case BinaryOp(_, lhs, rhs) =>
      Kept(Refusing(ClassOperator, Unreadable), Kept(SetRefusal(lhs), SetRefusal(rhs)))
  }

  function ItemRefusal(item: ClassItem): Option<Unportable> {
    match item
    case EmptyItem => None
    case PerlItem(perl) => PerlRefusal(perl)
    case LiteralItem(lit) => LitRefusal(lit, true)
    case RangeItem(low, high) => Kept(LitRefusal(low, true), LitRefusal(high, true))
    case AsciiItem(_) => Refusing(PosixClass, Unreadable)
    case UnicodeItem(_) => Refusing(UnicodeClass, Unreadable)
    case BracketedItem(class_) => Kept(Refusing(NestedClass, Unreadable), SetRefusal(class_.kind))
    case UnionItem(items) => ItemsRefusal(items)
  }

  function ItemsRefusal(items: seq<ClassItem>): Option<Unportable> {
    if items == [] then None else Kept(ItemRefusal(items[0]), ItemsRefusal(items[1..]))
  }

  /** The edits of a tree, in the order the walk collects them. */
  function Edits(ast: Ast): seq<Edit> {
    match ast
    case ClassPerl(perl) => PerlEdits(perl, false)
    case ClassBracketed(class_) => SetEdits(class_.kind)
    case Repetition(inner, _) => Edits(inner)
    case Group(start, group, inner) => GroupEdits(start, group) + Edits(inner)
    case Alternation(asts) => EditsAll(asts)
    case Concat(asts) => EditsAll(asts)
    case _ => []
  }

  function EditsAll(asts: seq<Ast>): seq<Edit> {
    if asts == [] then [] else Edits(asts[0]) + EditsAll(asts[1..])
  }

  lemma AllFrom(asts: seq<Ast>, at: nat)
    requires at < |asts|
    ensures EditsAll(asts[at..]) == Edits(asts[at]) + EditsAll(asts[at + 1..])
    ensures RefusalAll(asts[at..]) == Kept(Refusal(asts[at]), RefusalAll(asts[at + 1..]))
  {
    assert asts[at..][0] == asts[at] && asts[at..][1..] == asts[at + 1..];
  }

  lemma AddedBefore(edits: seq<Edit>, next: seq<Edit>, rest: seq<Edit>)
    ensures edits + next + rest == edits + (next + rest)
  {
  }

  /** The first construct of a tree that a JavaScript regex literal has no reading for. */
  function Refusal(ast: Ast): Option<Unportable> {
    match ast
    case Empty => None
    case Dot => Refusing(AnyCharacter, ValueSet)
    case ClassPerl(perl) => PerlRefusal(perl)
    case Flags(_) => Refusing(FlagDirective, Unreadable)
    case Literal(lit) => LitRefusal(lit, false)
    case Assertion(kind, _) => AssertionRefusal(kind)
    case ClassUnicode(_) => Refusing(UnicodeClass, Unreadable)
    case ClassBracketed(class_) =>
      Kept(if class_.negated then Refusing(NegatedClass, ValueSet) else None, SetRefusal(class_.kind))
    case Repetition(inner, _) => Refusal(inner)
    case Group(_, group, inner) => Kept(GroupRefusal(group), Refusal(inner))
    case Alternation(asts) => RefusalAll(asts)
    case Concat(asts) => RefusalAll(asts)
  }

  function RefusalAll(asts: seq<Ast>): Option<Unportable> {
    if asts == [] then None else Kept(Refusal(asts[0]), RefusalAll(asts[1..]))
  }

  // ----- the walk -----

  class JsSpelling {
    var edits: seq<Edit>
    var refusal: Option<Unportable>

    constructor ()
      ensures edits == [] && refusal == None
    {
      edits := [];
      refusal := None;
    }

    method Record(written: Construct, divergence: Divergence)
      modifies this`refusal
      ensures refusal == Kept(old(refusal), Refusing(written, divergence))
    {
      if refusal.None? {
        refusal := Some(Unportable(written, divergence));
      }
    }

    method WalkPerl(perl: Perl, inClass: bool)
      modifies this
      ensures edits == old(edits) + PerlEdits(perl, inClass)
      ensures refusal == Kept(old(refusal), PerlRefusal(perl))
    {
      if perl.negated {
        Record(NegatedPerl(perl.kind), ValueSet);
        return;
      }
      var members := if inClass then Bare(perl.kind) else InBrackets(perl.kind);
      edits := edits + [Edit(perl.span, members)];
    }

    method WalkLiteral(lit: Lit, inClass: bool)
      modifies this`refusal
      ensures refusal == Kept(old(refusal), LitRefusal(lit, inClass))
    {
      if inClass && lit.c == ']' && lit.kind == Verbatim {
        Record(BareBracket, Unreadable);
      }
      match lit.kind {
        case Octal => Record(OctalEscape, Unreadable);
        case HexBrace => Record(BracedEscape, Unreadable);
        case HexFixed(UnicodeLong) => Record(LongEscape, Unreadable);
        case Escaped(Bell) => Record(BellEscape, Unreadable);
        case _ =>
      }
    }

    method WalkAssertion(kind: AssertionKind)
      modifies this`refusal
      ensures refusal == Kept(old(refusal), AssertionRefusal(kind))
    {
      match kind {
        case StartLine =>
        case EndLine =>
        case WordBoundary =>
        case NotWordBoundary =>
        case StartText => Record(TextAnchor, Unreadable);
        case EndText => Record(TextAnchor, Unreadable);
        case _ => Record(DirectedBoundary, Unreadable);
      }
    }

    method WalkSet(set_: ClassSet)
      modifies this
      ensures edits == old(edits) + SetEdits(set_) && refusal == Kept(old(refusal), SetRefusal(set_))
      decreases set_
    {
      match set_ {
        case Item(item) => WalkItem(item);
        case BinaryOp(_, lhs, rhs) =>
          Record(ClassOperator, Unreadable);
          WalkSet(lhs);
          WalkSet(rhs);
      }
    }

    method WalkItem(item: ClassItem)
      modifies this
      ensures edits == old(edits) + ItemEdits(item) && refusal == Kept(old(refusal), ItemRefusal(item))
      decreases item
    {
      match item {
        case EmptyItem =>
        case PerlItem(perl) => WalkPerl(perl, true);
        case LiteralItem(lit) => WalkLiteral(lit, true);
        case RangeItem(low, high) =>
          WalkLiteral(low, true);
          WalkLiteral(high, true);
        case AsciiItem(_) => Record(PosixClass, Unreadable);
        case UnicodeItem(_) => Record(UnicodeClass, Unreadable);
        case BracketedItem(class_) =>
          Record(NestedClass, Unreadable);
          WalkSet(class_.kind);
        case UnionItem(items) =>
          for i := 0 to |items|
            invariant edits + ItemsEdits(items[i..]) == old(edits) + ItemsEdits(items)
            invariant Kept(refusal, ItemsRefusal(items[i..])) == Kept(old(refusal), ItemsRefusal(items))
          {
            assert items[i..][0] == items[i] && items[i..][1..] == items[i + 1..];
            WalkItem(items[i]);
          }
      }
    }

    method WalkGroup(start: nat, group: GroupKind)
      modifies this
      ensures edits == old(edits) + GroupEdits(start, group) && refusal == Kept(old(refusal), GroupRefusal(group))
    {
      match group {
        case CaptureIndex =>
        case CaptureName(p, _) =>
          if p {
            var marker := start + 2;
            edits := edits + [Edit(Span(marker, marker + 1), "")];
          }
        case NonCapturing(items) =>
          for i := 0 to |items|
            invariant edits == old(edits)
            invariant Kept(refusal, FlagsRefusal(items[i..])) == Kept(old(refusal), FlagsRefusal(items))
          {
            assert items[i..][0] == items[i] && items[i..][1..] == items[i + 1..];
            if items[i].FlagItem? {
              Record(FlaggedGroup(items[i].flag), FlagDivergence(items[i].flag));
            }
          }
      }
    }

    method Walk(ast: Ast)
      modifies this
      ensures edits == old(edits) + Edits(ast) && refusal == Kept(old(refusal), Refusal(ast))
      decreases ast, 1
    {
      match ast {
        case Empty =>
        case Dot => Record(AnyCharacter, ValueSet);
        case ClassPerl(perl) => WalkPerl(perl, false);
        case Flags(_) => Record(FlagDirective, Unreadable);
        case Literal(lit) => WalkLiteral(lit, false);
        case Assertion(kind, _) => WalkAssertion(kind);
        case ClassUnicode(_) => Record(UnicodeClass, Unreadable);
        case ClassBracketed(class_) =>
          if class_.negated {
            Record(NegatedClass, ValueSet);
          }
          WalkSet(class_.kind);
        case Repetition(inner, _) => Walk(inner);
        case Group(start, group, inner) =>
          WalkGroup(start, group);
          Walk(inner);
        case Alternation(asts) => WalkAll(asts);
        case Concat(asts) => WalkAll(asts);
      }
    }

    method WalkAll(asts: seq<Ast>)
      modifies this
      ensures edits == old(edits) + EditsAll(asts) && refusal == Kept(old(refusal), RefusalAll(asts))
      decreases asts, 0
    {
      for i := 0 to |asts|
        invariant edits + EditsAll(asts[i..]) == old(edits) + EditsAll(asts)
        invariant Kept(refusal, RefusalAll(asts[i..])) == Kept(old(refusal), RefusalAll(asts))
      {
        AllFrom(asts, i);
        AddedBefore(edits, Edits(asts[i]), EditsAll(asts[i + 1..]));
        Walk(asts[i]);
      }
    }

    /** `pattern` with every collected span replaced. */
    method Rewritten(pattern: string) returns (result: string)
      requires Within(SortedByStart(edits), 0, |pattern|)
      ensures result == Applied(SortedByStart(edits), pattern, 0)
    {
      if edits == [] {
        return pattern;
      }
      var sorted := SortedByStart(edits);
      result := "";
      var cut: nat := 0;
      for i := 0 to |sorted|
        invariant cut <= |pattern| && Within(sorted[i..], cut, |pattern|)
        invariant result + Applied(sorted[i..], pattern[cut..], cut) == Applied(sorted, pattern, 0)
      {
        var edit := sorted[i];
        AppliedFrom(sorted, i, pattern, cut, result);
        result := result + pattern[cut..edit.span.start] + edit.replacement;
        cut := edit.span.end;
      }
      result := result + pattern[cut..];
    }
  }

  // ----- splicing -----

  function Inserted(edit: Edit, sorted: seq<Edit>): seq<Edit> {
    if sorted == [] || edit.span.start <= sorted[0].span.start then [edit] + sorted
    else [sorted[0]] + Inserted(edit, sorted[1..])
  }

  function SortedByStart(edits: seq<Edit>): seq<Edit> {
    if edits == [] then [] else Inserted(edits[0], SortedByStart(edits[1..]))
  }

  /** `edits` lie between `at` and `end`, each wholly ahead of the next. */
  ghost predicate Within(edits: seq<Edit>, at: nat, end: nat) {
    if edits == [] then at <= end
    else at <= edits[0].span.start <= edits[0].span.end <= end && Within(edits[1..], edits[0].span.end, end)
  }

  /** With its edits made from the `i`-th on, a text goes on by the one and by what is made of the rest. */
  lemma AppliedFrom(edits: seq<Edit>, i: nat, pattern: string, cut: nat, result: string)
    requires i < |edits| && cut <= |pattern| && Within(edits[i..], cut, |pattern|)
    ensures cut <= edits[i].span.start <= edits[i].span.end <= |pattern|
    ensures Within(edits[i + 1..], edits[i].span.end, |pattern|)
    ensures result + Applied(edits[i..], pattern[cut..], cut)
         == result + pattern[cut..edits[i].span.start] + edits[i].replacement
            + Applied(edits[i + 1..], pattern[edits[i].span.end..], edits[i].span.end)
  {
    var edit, rest := edits[i], edits[i + 1..];
    SuffixSplits(edits, i);
    FirstApplied(edit, rest, pattern, cut);
    var lead, more := pattern[cut..edit.span.start], Applied(rest, pattern[edit.span.end..], edit.span.end);
    FourMoved(result, lead, edit.replacement, more);
  }

  lemma FourMoved(result: string, lead: string, next: string, more: string)
    ensures result + (lead + next + more) == result + lead + next + more
  {
  }

  lemma FirstApplied(edit: Edit, edits: seq<Edit>, pattern: string, cut: nat)
    requires cut <= |pattern| && Within([edit] + edits, cut, |pattern|)
    ensures Within(edits, edit.span.end, |pattern|)
    ensures Applied([edit] + edits, pattern[cut..], cut)
         == pattern[cut..edit.span.start] + edit.replacement + Applied(edits, pattern[edit.span.end..], edit.span.end)
  {
    assert ([edit] + edits)[1..] == edits;
    assert pattern[cut..][..edit.span.start - cut] == pattern[cut..edit.span.start];
    assert pattern[cut..][edit.span.end - cut..] == pattern[edit.span.end..];
  }

  /** `text`, which stands from `at` on, with each of `edits` made. */
  function Applied(edits: seq<Edit>, text: string, at: nat): string
    requires Within(edits, at, at + |text|)
  {
    if edits == [] then text
    else
      var edit := edits[0];
      text[..edit.span.start - at] + edit.replacement + Applied(edits[1..], text[edit.span.end - at..], edit.span.end)
  }
}
