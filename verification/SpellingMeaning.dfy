/** Splicing the edits of a portable pattern's text is rewriting its syntax tree: every `\d`, `\w` and
    `\s` to the members both engines agree on, bare inside a class and bracketed outside one, and
    every `(?P<` to `(?<`. What comes out has nothing left to rewrite. */
module SpellingMeaning {
  import opened Wrappers
  import opened Spelling
  import opened Texts

  // ----- the rewritten tree -----

  function Plainly(c: char): Lit {
    Lit(Verbatim, [c], c)
  }

  function Members(kind: PerlKind): seq<ClassItem> {
    match kind
    case Digit => [RangeItem(Plainly('0'), Plainly('9'))]
    case WordCharacter =>
      [RangeItem(Plainly('0'), Plainly('9')), RangeItem(Plainly('A'), Plainly('Z')),
       RangeItem(Plainly('a'), Plainly('z')), LiteralItem(Plainly('_'))]
    case Whitespace =>
      [LiteralItem(Lit(Escaped(Tab), "\\t", '\t')), LiteralItem(Lit(Escaped(LineFeed), "\\n", '\n')),
       LiteralItem(Lit(Escaped(VerticalTab), "\\v", 11 as char)),
         LiteralItem(Lit(Escaped(FormFeed), "\\f", 12 as char)),
       LiteralItem(Lit(Escaped(CarriageReturn), "\\r", '\r')), LiteralItem(Plainly(' '))]
  }

  /** The characters a perl class has in common between the engines. */
  predicate IsOf(kind: PerlKind, c: char) {
    match kind
    case Digit => '0' <= c <= '9'
    case WordCharacter => '0' <= c <= '9' || 'A' <= c <= 'Z' || 'a' <= c <= 'z' || c == '_'
    case Whitespace => 9 <= c as int <= 13 || c == ' '
  }

  predicate ItemTakes(item: ClassItem, c: char) {
    match item
    case LiteralItem(lit) => lit.c == c
    case RangeItem(low, high) => low.c <= c <= high.c
    case _ => false
  }

  /** What a perl class is written out as takes those characters and no other. */
  lemma MembersAreOf(kind: PerlKind, c: char)
    ensures (exists i :: 0 <= i < |Members(kind)| && ItemTakes(Members(kind)[i], c)) <==> IsOf(kind, c)
  {
    if IsOf(kind, c) {
      var i := match kind
        case Digit => 0
        case WordCharacter => if c <= '9' then 0 else if c <= 'Z' then 1 else if c == '_' then 3 else 2
        case Whitespace => if c == ' ' then 5 else c as int - 9;
      assert ItemTakes(Members(kind)[i], c);
    }
  }

  function EqualItem(item: ClassItem): ClassItem {
    match item
    case PerlItem(perl) => if perl.negated then item else UnionItem(Members(perl.kind))
    case BracketedItem(class_) => BracketedItem(EqualBracketed(class_))
    case UnionItem(items) => UnionItem(EqualItems(items))
    case _ => item
  }

  function EqualItems(items: seq<ClassItem>): seq<ClassItem> {
    if items == [] then [] else [EqualItem(items[0])] + EqualItems(items[1..])
  }

  function EqualSet(set_: ClassSet): ClassSet {
    match set_
    case Item(item) => Item(EqualItem(item))
    case BinaryOp(op, lhs, rhs) => BinaryOp(op, EqualSet(lhs), EqualSet(rhs))
  }

  function EqualBracketed(class_: Bracketed): Bracketed {
    Bracketed(class_.negated, EqualSet(class_.kind))
  }

  function EqualGroup(group: GroupKind): GroupKind {
    if group.CaptureName? then CaptureName(false, group.name) else group
  }

  /** `ast` with its perl classes written out and its named groups spelled the one way both read. */
  function Equalised(ast: Ast): Ast {
    match ast
    case ClassPerl(perl) => if perl.negated then ast
      else ClassBracketed(Bracketed(false, Item(UnionItem(Members(perl.kind)))))
    case ClassBracketed(class_) => ClassBracketed(EqualBracketed(class_))
    case Repetition(inner, op) => Repetition(Equalised(inner), op)
    case Group(start, group, inner) => Group(start, EqualGroup(group), Equalised(inner))
    case Alternation(asts) => Alternation(EqualisedAll(asts))
    case Concat(asts) => Concat(EqualisedAll(asts))
    case _ => ast
  }

  function EqualisedAll(asts: seq<Ast>): seq<Ast> {
    if asts == [] then [] else [Equalised(asts[0])] + EqualisedAll(asts[1..])
  }

  // ----- splicing, piece by piece -----

  /** `edits` lie in `text`, which stands from `at` on, and make `result` of it. */
  ghost predicate Splices(edits: seq<Edit>, text: string, at: nat, result: string) {
    Within(edits, at, at + |text|) && Applied(edits, text, at) == result
  }

  lemma SplicesNothing(text: string, at: nat)
    ensures Splices([], text, at, text)
  {
  }

  lemma {:induction false} SplicesAfter(before: string, edits: seq<Edit>, text: string, at: nat, result: string)
    requires Splices(edits, text, at + |before|, result)
    ensures Splices(edits, before + text, at, before + result)
  {
    var whole := before + text;
    if edits != [] {
      var edit := edits[0];
      var left := edit.span.start - at - |before|;
      assert whole[..edit.span.start - at] == before + text[..left];
      assert whole[edit.span.end - at..] == text[edit.span.end - at - |before|..];
      var more := Applied(edits[1..], text[edit.span.end - at - |before|..], edit.span.end);
      assert result == text[..left] + edit.replacement + more;
      FourMoved(before, text[..left], edit.replacement, more);
    }
  }

  lemma SplicesFirst(edit: Edit, edits: seq<Edit>, head: string, cut: string, rest: string, at: nat, result: string)
    requires edit.span == Span(at + |head|, at + |head| + |cut|)
    requires Splices(edits, rest, edit.span.end, result)
    ensures Splices([edit] + edits, head + cut + rest, at, head + edit.replacement + result)
  {
    var whole := head + cut + rest;
    assert ([edit] + edits)[1..] == edits;
    assert whole[..|head|] == head && whole[|head| + |cut|..] == rest;
  }

  lemma FirstSplice(edits: seq<Edit>, text: string, at: nat, result: string) returns (head: string, cut: string,
      rest: string, more: string)
    requires edits != [] && Splices(edits, text, at, result)
    ensures edits[0].span == Span(at + |head|, at + |head| + |cut|)
    ensures Splices(edits[1..], rest, edits[0].span.end, more)
    ensures text == head + cut + rest && result == head + edits[0].replacement + more
  {
    var left, right := edits[0].span.start - at, edits[0].span.end - at;
    head, cut, rest := text[..left], text[left..right], text[right..];
    more := Applied(edits[1..], rest, edits[0].span.end);
  }

  lemma FirstOfBoth(one: seq<Edit>, two: seq<Edit>)
    requires one != []
    ensures [one[0]] + (one[1..] + two) == one + two
  {
  }

  /** Two pieces side by side are spliced each on its own. */
  lemma {:induction false} SplicesBoth(one: seq<Edit>, text1: string, result1: string,
      two: seq<Edit>, text2: string, result2: string, at: nat)
    requires Splices(one, text1, at, result1) && Splices(two, text2, at + |text1|, result2)
    ensures Splices(one + two, text1 + text2, at, result1 + result2)
    decreases |one|
  {
    if one == [] {
      assert one + two == two;
      SplicesAfter(text1, two, text2, at, result2);
    } else {
      var edit := one[0];
      var head, cut, rest, more := FirstSplice(one, text1, at, result1);
      SplicesBoth(one[1..], rest, more, two, text2, result2, edit.span.end);
      SplicesFirst(edit, one[1..] + two, head, cut, rest + text2, at, more + result2);
      FirstOfBoth(one, two);
      Moved(head + cut, rest, text2);
      Moved(head + edit.replacement, more, result2);
    }
  }

  lemma SplicesBefore(edits: seq<Edit>, text: string, at: nat, result: string, after: string)
    requires Splices(edits, text, at, result)
    ensures Splices(edits, text + after, at, result + after)
  {
    SplicesNothing(after, at + |text|);
    SplicesBoth(edits, text, result, [], after, after, at);
    assert edits + [] == edits;
  }

  /** `items` print as `text`, and there is nothing to edit or refuse in them. */
  ghost predicate Spell(items: seq<ClassItem>, text: string) {
    PrintItems(items) == text && ItemsEdits(items) == [] && ItemsRefusal(items) == None
  }

  lemma SpellsOneMore(item: ClassItem, rest: seq<ClassItem>, text: string)
    requires ItemEdits(item) == [] && ItemRefusal(item) == None && Spell(rest, text)
    ensures Spell([item] + rest, PrintItem(item) + text)
  {
    assert ([item] + rest)[1..] == rest;
  }

  lemma DigitIsWritten()
    ensures Spell(Members(Digit), "0-9")
  {
    SpellsOneMore(RangeItem(Plainly('0'), Plainly('9')), [], "");
  }

  lemma WordIsWritten()
    ensures Spell(Members(WordCharacter), "0-9A-Za-z_")
  {
    var m := Members(WordCharacter);
    SpellsOneMore(m[3], [], "");
    SpellsOneMore(m[2], [m[3]], "_");
    SpellsOneMore(m[1], [m[2], m[3]], "a-z_");
    SpellsOneMore(m[0], [m[1], m[2], m[3]], "A-Za-z_");
  }

  lemma WhitespaceEnds(formFeed: ClassItem, carriageReturn: ClassItem, space: ClassItem)
    requires formFeed == LiteralItem(Lit(Escaped(FormFeed), "\\f", 12 as char))
    requires carriageReturn == LiteralItem(Lit(Escaped(CarriageReturn), "\\r", '\r'))
    requires space == LiteralItem(Plainly(' '))
    ensures Spell([formFeed, carriageReturn, space], "\\f\\r ")
  {
    SpellsOneMore(space, [], "");
    SpellsOneMore(carriageReturn, [space], " ");
    SpellsOneMore(formFeed, [carriageReturn, space], "\\r ");
  }

  lemma WhitespaceIsWritten()
    ensures Spell(Members(Whitespace), "\\t\\n\\v\\f\\r ")
  {
    var m := Members(Whitespace);
    WhitespaceEnds(m[3], m[4], m[5]);
    SpellsOneMore(m[2], [m[3], m[4], m[5]], "\\f\\r ");
    SpellsOneMore(m[1], [m[2], m[3], m[4], m[5]], "\\v\\f\\r ");
    SpellsOneMore(m[0], [m[1], m[2], m[3], m[4], m[5]], "\\n\\v\\f\\r ");
  }

  lemma MembersAreWritten(kind: PerlKind)
    ensures Spell(Members(kind), Bare(kind))
  {
    match kind
    case Digit => DigitIsWritten();
    case WordCharacter => WordIsWritten();
    case Whitespace => WhitespaceIsWritten();
  }

  lemma BareInBrackets(kind: PerlKind)
    ensures "[" + Bare(kind) + "]" == InBrackets(kind)
  {
  }

  lemma PerlSplices(perl: Perl, inClass: bool, at: nat)
    requires PlacedPerl(perl, at) && !perl.negated
    ensures Splices(PerlEdits(perl, inClass), PerlText(perl), at, if inClass then Bare(perl.kind)
      else InBrackets(perl.kind))
  {
    var edits, text := PerlEdits(perl, inClass), PerlText(perl);
    assert edits[1..] == [] && text[|text|..] == "" && text[..0] == "";
  }

  lemma {:induction false} ItemSplices(item: ClassItem, at: nat)
    requires PlacedItem(item, at) && ItemRefusal(item).None?
    ensures Splices(ItemEdits(item), PrintItem(item), at, PrintItem(EqualItem(item)))
    decreases item, 1
  {
    match item
    case PerlItem(perl) =>
      PerlSplices(perl, true, at);
      MembersAreWritten(perl.kind);
    case UnionItem(items) => ItemsSplice(items, at);
    case _ => SplicesNothing(PrintItem(item), at);
  }

  lemma {:induction false} ItemsSplice(items: seq<ClassItem>, at: nat)
    requires PlacedItems(items, at) && ItemsRefusal(items).None?
    ensures Splices(ItemsEdits(items), PrintItems(items), at, PrintItems(EqualItems(items)))
    decreases items, 0
  {
    if items == [] {
      SplicesNothing("", at);
    } else {
      ItemSplices(items[0], at);
      ItemsSplice(items[1..], at + |PrintItem(items[0])|);
      SplicesBoth(ItemEdits(items[0]), PrintItem(items[0]), PrintItem(EqualItem(items[0])),
        ItemsEdits(items[1..]), PrintItems(items[1..]), PrintItems(EqualItems(items[1..])), at);
      assert EqualItems(items)[1..] == EqualItems(items[1..]);
    }
  }

  lemma BracketedSplices(class_: Bracketed, at: nat)
    requires PlacedSet(class_.kind, at + 1) && !class_.negated && SetRefusal(class_.kind).None?
    ensures Splices(SetEdits(class_.kind), PrintBracketed(class_), at, PrintBracketed(EqualBracketed(class_)))
  {
    var item := class_.kind.item;
    ItemSplices(item, at + 1);
    SplicesAfter("[", ItemEdits(item), PrintItem(item), at, PrintItem(EqualItem(item)));
    SplicesBefore(ItemEdits(item), "[" + PrintItem(item), at, "[" + PrintItem(EqualItem(item)), "]");
    assert PrintBracketed(class_) == "[" + PrintItem(item) + "]";
    assert PrintBracketed(EqualBracketed(class_)) == "[" + PrintItem(EqualItem(item)) + "]";
  }

  lemma BracketsAreWritten(kind: PerlKind)
    ensures PrintBracketed(Bracketed(false, Item(UnionItem(Members(kind))))) == InBrackets(kind)
  {
    MembersAreWritten(kind);
    BareInBrackets(kind);
    var members := UnionItem(Members(kind));
    assert PrintItem(members) == Bare(kind);
    assert PrintSet(Item(members)) == PrintItem(members);
    assert PrintBracketed(Bracketed(false, Item(members))) == "[" + "" + PrintSet(Item(members)) + "]";
  }

  lemma GroupSplices(start: nat, group: GroupKind, edits: seq<Edit>, text: string, result: string)
    requires Splices(edits, text, start + |Opening(group)|, result)
    ensures Splices(GroupEdits(start, group) + edits, Opening(group) + text + ")", start, Opening(EqualGroup(group))
      + result + ")")
  {
    OpeningSplices(start, group);
    SplicesBoth(GroupEdits(start, group), Opening(group), Opening(EqualGroup(group)), edits, text, result, start);
    SplicesBefore(GroupEdits(start, group) + edits, Opening(group) + text, start, Opening(EqualGroup(group)) + result,
      ")");
  }

  lemma OpeningSplices(start: nat, group: GroupKind)
    ensures Splices(GroupEdits(start, group), Opening(group), start, Opening(EqualGroup(group)))
  {
    var edits, text := GroupEdits(start, group), Opening(group);
    if edits != [] {
      assert edits[1..] == [];
      assert text[..2] == "(?" && text[3..] == "<" + group.name + ">";
      assert Applied(edits, text, start) == "(?" + "" + text[3..];
      assert Opening(EqualGroup(group)) == "(?" + ("<" + group.name + ">");
    } else {
      SplicesNothing(text, start);
      if group.CaptureName? { assert EqualGroup(group) == group; }
    }
  }

  /** For every portable tree, the edits the walk collects lie in the text, each wholly ahead of the
      next, and make of it the text of the rewritten tree. */
  lemma {:induction false} EditsRewriteTheTree(ast: Ast, at: nat)
    requires Placed(ast, at) && Refusal(ast).None?
    ensures Splices(Edits(ast), Print(ast), at, Print(Equalised(ast)))
    decreases ast, 1
  {
    match ast
    case ClassPerl(perl) =>
      PerlSplices(perl, false, at);
      BracketsAreWritten(perl.kind);
    case ClassBracketed(class_) => BracketedSplices(class_, at);
    case Repetition(inner, op) =>
      EditsRewriteTheTree(inner, at);
      SplicesBefore(Edits(inner), Print(inner), at, Print(Equalised(inner)), op);
    case Group(start, group, inner) =>
      EditsRewriteTheTree(inner, at + |Opening(group)|);
      GroupSplices(start, group, Edits(inner), Print(inner), Print(Equalised(inner)));
    case Alternation(asts) => EditsRewriteAll(asts, "|", at);
    case Concat(asts) => EditsRewriteAll(asts, "", at);
    case _ => SplicesNothing(Print(ast), at);
  }

  lemma {:induction false} EditsRewriteAll(asts: seq<Ast>, between: string, at: nat)
    requires PlacedAll(asts, between, at) && RefusalAll(asts).None?
    ensures Splices(EditsAll(asts), PrintAll(asts, between), at, PrintAll(EqualisedAll(asts), between))
    decreases asts, 0
  {
    if asts == [] {
      SplicesNothing("", at);
    } else {
      var equal := EqualisedAll(asts);
      EditsRewriteTheTree(asts[0], at);
      if |asts| == 1 {
        assert EditsAll(asts) == Edits(asts[0]) + [] == Edits(asts[0]);
        assert EqualisedAll(asts[1..]) == [];
        assert equal == [Equalised(asts[0])];
      } else {
        EditsRewriteAll(asts[1..], between, at + |Print(asts[0])| + |between|);
        SplicesBefore(Edits(asts[0]), Print(asts[0]), at, Print(Equalised(asts[0])), between);
        SplicesBoth(Edits(asts[0]), Print(asts[0]) + between, Print(Equalised(asts[0])) + between,
          EditsAll(asts[1..]), PrintAll(asts[1..], between), PrintAll(EqualisedAll(asts[1..]), between), at);
        assert equal[0] == Equalised(asts[0]) && equal[1..] == EqualisedAll(asts[1..]) && |equal| > 1 by {
          assert |EqualisedAll(asts[1..])| > 0;
        }
      }
    }
  }

  // ----- the walk's order is the text's -----

  lemma {:induction false} SortedAlready(edits: seq<Edit>, at: nat, end: nat)
    requires Within(edits, at, end)
    ensures SortedByStart(edits) == edits
  {
    if |edits| > 1 {
      SortedAlready(edits[1..], edits[0].span.end, end);
    }
  }

  /** The spelling of a pattern, or the first construct it has none for: what `rewritten` answers for a
      portable pattern is the text of the rewritten tree. */
  method JsSpelled(pattern: string, ast: Ast) returns (r: Result<string, Unportable>)
    requires pattern == Print(ast) && Placed(ast, 0)
    ensures r == if Refusal(ast).Some? then Err(Refusal(ast).value) else Ok(Print(Equalised(ast)))
  {
    var walk := new JsSpelling();
    walk.Walk(ast);
    if walk.refusal.Some? {
      return Err(walk.refusal.value);
    }
    EditsRewriteTheTree(ast, 0);
    SortedAlready(Edits(ast), 0, |pattern|);
    assert [] + Edits(ast) == Edits(ast);
    var spelled := walk.Rewritten(pattern);
    return Ok(spelled);
  }

  // ----- a second pass -----

  lemma {:induction false} EqualItemIsDone(item: ClassItem)
    requires ItemRefusal(item).None?
    ensures ItemEdits(EqualItem(item)) == [] && ItemRefusal(EqualItem(item)) == None
    decreases item, 1
  {
    match item
    case PerlItem(perl) => MembersAreWritten(perl.kind);
    case UnionItem(items) => EqualItemsAreDone(items);
    case _ =>
  }

  lemma {:induction false} EqualItemsAreDone(items: seq<ClassItem>)
    requires ItemsRefusal(items).None?
    ensures ItemsEdits(EqualItems(items)) == [] && ItemsRefusal(EqualItems(items)) == None
    decreases items, 0
  {
    if items != [] {
      EqualItemIsDone(items[0]);
      EqualItemsAreDone(items[1..]);
      assert EqualItems(items)[1..] == EqualItems(items[1..]);
    }
  }

  /** A second pass finds nothing to edit and nothing to refuse. */
  lemma {:induction false} SecondPassFindsNothing(ast: Ast)
    requires Refusal(ast).None?
    ensures Edits(Equalised(ast)) == [] && Refusal(Equalised(ast)) == None
    decreases ast, 1
  {
    match ast
    case ClassPerl(perl) =>
      MembersAreWritten(perl.kind);
      var members := UnionItem(Members(perl.kind));
      assert ItemEdits(members) == [] && ItemRefusal(members) == None;
      assert SetEdits(Item(members)) == [] && SetRefusal(Item(members)) == None;
    case ClassBracketed(class_) =>
      var item := class_.kind.item;
      EqualItemIsDone(item);
      assert SetEdits(Item(EqualItem(item))) == [] && SetRefusal(Item(EqualItem(item))) == None;
      assert !class_.negated && class_.kind == Item(item);
      assert EqualSet(class_.kind) == Item(EqualItem(item));
      assert Equalised(ast).bracketed == Bracketed(false, Item(EqualItem(item)));
    case Repetition(inner, _) => SecondPassFindsNothing(inner);
    case Group(_, _, inner) => SecondPassFindsNothing(inner);
    case Alternation(asts) => SecondPassOverAll(asts);
    case Concat(asts) => SecondPassOverAll(asts);
    case _ =>
  }

  lemma {:induction false} SecondPassOverAll(asts: seq<Ast>)
    requires RefusalAll(asts).None?
    ensures EditsAll(EqualisedAll(asts)) == [] && RefusalAll(EqualisedAll(asts)) == None
    decreases asts, 0
  {
    if asts != [] {
      SecondPassFindsNothing(asts[0]);
      SecondPassOverAll(asts[1..]);
      assert EqualisedAll(asts)[1..] == EqualisedAll(asts[1..]);
    }
  }
}
