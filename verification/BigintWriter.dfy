/** The writer of a wide integer as a bigint literal: the value is put in the JSON tree as a marked
    string, the tree is printed, and each marked string of the text is replaced by its digits and `n`. */
module BigintWriter {
  import opened Wrappers
  import opened Texts
  import opened BigintMarkers

  // ----- trees and their text -----

  datatype Member = Member(key: string, value: Tree)

  datatype Tree =
    | Null
    | Truth(truth: bool)
    | Number(digits: string)
    | Text(text: string)
    | List(items: seq<Tree>)
    | Object(members: seq<Member>)
    | Wide(digits: string)

  function Direct(digits: string): string {
    digits + "n"
  }

  /** The text of a tree, a wide integer in it written as `wide` writes it. */
  function Printed(tree: Tree, wide: string -> string): string
    decreases tree, 1
  {
    match tree
    case Null => "null"
    case Truth(truth) => if truth then "true" else "false"
    case Number(digits) => digits
    case Text(text) => Quoted(text)
    case List(items) => "[" + (PrintedItems(items, wide) + "]")
    case Object(members) => "{" + (PrintedMembers(members, wide) + "}")
    case Wide(digits) => wide(digits)
  }

  function PrintedItems(items: seq<Tree>, wide: string -> string): string
    decreases items, 0
  {
    if items == [] then ""
    else if |items| == 1 then Printed(items[0], wide)
    else Printed(items[0], wide) + ("," + PrintedItems(items[1..], wide))
  }

  function PrintedMembers(members: seq<Member>, wide: string -> string): string
    decreases members, 0
  {
    if members == [] then ""
    else
      var first, rest := members[0], if |members| == 1 then "" else "," + PrintedMembers(members[1..], wide);
      Quoted(first.key) + (":" + (Printed(first.value, wide) + rest))
  }

  /** The string a wide integer is put in the tree as. */
  function Marked(digits: string): string {
    [Mark] + ("bigint:" + (digits + [Mark]))
  }

  function AsMarked(digits: string): string {
    Quoted(Marked(digits))
  }

  // ----- a marked integer in a text -----

  predicate IsNumeric(c: char) {
    '0' <= c <= '9' || c == '-' || c == '+' || c == '.' || c == 'e' || c == 'E'
  }

  predicate AreNumeric(digits: string) {
    forall i :: 0 <= i < |digits| ==> IsNumeric(digits[i])
  }

  /** The marked string's JSON text is the opening, the digits and the closing. */
  lemma MarkedText(digits: string)
    requires AreNumeric(digits)
    ensures AsMarked(digits) == Opening + (digits + Closing)
  {
    MarkIsEscaped();
    PlainIsWritten("bigint:");
    PlainIsWritten(digits);
    EscapedBoth([Mark], "bigint:" + (digits + [Mark]));
    EscapedBoth("bigint:", digits + [Mark]);
    EscapedBoth(digits, [Mark]);
    MarkersAreJoined();
    var mark, rest := "\\u0001", "bigint:" + (digits + "\\u0001");
    Moved(mark, rest, "\"");
    Moved("bigint:", digits + mark, "\"");
    Moved(digits, mark, "\"");
    Moved("\"", mark, "bigint:" + (digits + Closing));
    Moved("\"" + mark, "bigint:", digits + Closing);
    Moved("\"", mark, "bigint:");
  }

  lemma {:induction false} ClosingIsNext(digits: string, rest: string)
    requires AreNumeric(digits)
    ensures Found(digits + (Closing + rest), Closing) == Some(|digits|)
  {
    var text := digits + (Closing + rest);
    if digits == [] {
      assert text == Closing + rest;
    } else {
      assert text[0] == digits[0] && Closing[0] == '\\';
      assert text[1..] == digits[1..] + (Closing + rest);
      ClosingIsNext(digits[1..], rest);
    }
  }

  lemma MarkedIsReplaced(digits: string, rest: string)
    requires AreNumeric(digits)
    ensures Replaced(AsMarked(digits) + rest) == Direct(digits) + Replaced(rest)
  {
    MarkedText(digits);
    var inner := digits + (Closing + rest);
    Moved(Opening, digits + Closing, rest);
    Moved(digits, Closing, rest);
    OpeningSplits(inner);
    ClosingSplits(digits, rest);
    Moved("", digits, "n" + Replaced(rest));
    Moved(digits, "n", Replaced(rest));
    assert "" + digits == digits;
  }

  lemma ClosingSplits(digits: string, rest: string)
    requires AreNumeric(digits)
    ensures SplitOnce(digits + (Closing + rest), Closing) == Some((digits, rest))
  {
    ClosingIsNext(digits, rest);
    var inner := digits + (Closing + rest);
    assert inner[..|digits|] == digits && inner[|digits| + |Closing|..] == rest;
  }

  // ----- the parts of a tree's text -----

  /** A part of a tree's text: punctuation and plain values, a string or a key, a wide integer. */
  datatype Piece = Bare(text: string) | Said(text: string) | Counted(digits: string)

  function PieceText(piece: Piece, wide: string -> string): string {
    match piece
    case Bare(text) => text
    case Said(text) => Quoted(text)
    case Counted(digits) => wide(digits)
  }

  function TextOf(pieces: seq<Piece>, wide: string -> string): string {
    if pieces == [] then "" else PieceText(pieces[0], wide) + TextOf(pieces[1..], wide)
  }

  function PiecesOf(tree: Tree): seq<Piece>
    decreases tree, 1
  {
    match tree
    case Null => [Bare("null")]
    case Truth(truth) => [Bare(if truth then "true" else "false")]
    case Number(digits) => [Bare(digits)]
    case Text(text) => [Said(text)]
    case List(items) => [Bare("[")] + (PiecesOfItems(items) + [Bare("]")])
    case Object(members) => [Bare("{")] + (PiecesOfMembers(members) + [Bare("}")])
    case Wide(digits) => [Counted(digits)]
  }

  function PiecesOfItems(items: seq<Tree>): seq<Piece>
    decreases items, 0
  {
    if items == [] then []
    else if |items| == 1 then PiecesOf(items[0])
    else PiecesOf(items[0]) + ([Bare(",")] + PiecesOfItems(items[1..]))
  }

  function PiecesOfMembers(members: seq<Member>): seq<Piece>
    decreases members, 0
  {
    if members == [] then []
    else
      var more := if |members| == 1 then [] else [Bare(",")] + PiecesOfMembers(members[1..]);
      [Said(members[0].key)] + ([Bare(":")] + (PiecesOf(members[0].value) + more))
  }

  lemma {:induction false} TextOfBoth(one: seq<Piece>, other: seq<Piece>, wide: string -> string)
    ensures TextOf(one + other, wide) == TextOf(one, wide) + TextOf(other, wide)
  {
    if one == [] {
      assert one + other == other;
    } else {
      assert (one + other)[1..] == one[1..] + other;
      TextOfBoth(one[1..], other, wide);
      Moved(PieceText(one[0], wide), TextOf(one[1..], wide), TextOf(other, wide));
    }
  }

  lemma TextOfOne(piece: Piece, wide: string -> string)
    ensures TextOf([piece], wide) == PieceText(piece, wide)
  {
    assert [piece][1..] == [] && TextOf([], wide) == "";
  }

  lemma TextOfNext(piece: Piece, more: seq<Piece>, wide: string -> string)
    ensures TextOf([piece] + more, wide) == PieceText(piece, wide) + TextOf(more, wide)
  {
    assert ([piece] + more)[1..] == more;
  }

  /** A tree's text is its parts', one after another. */
  lemma {:induction false} PrintedInPieces(tree: Tree, wide: string -> string)
    ensures Printed(tree, wide) == TextOf(PiecesOf(tree), wide)
    decreases tree, 1
  {
    match tree
    case List(items) =>
      ItemsInPieces(items, wide);
      EnclosedInPieces("[", PiecesOfItems(items), "]", wide);
    case Object(members) =>
      MembersInPieces(members, wide);
      EnclosedInPieces("{", PiecesOfMembers(members), "}", wide);
    case _ => TextOfOne(PiecesOf(tree)[0], wide);
  }

  lemma EnclosedInPieces(open: string, pieces: seq<Piece>, close: string, wide: string -> string)
    ensures TextOf([Bare(open)] + (pieces + [Bare(close)]), wide) == open + (TextOf(pieces, wide) + close)
  {
    TextOfNext(Bare(open), pieces + [Bare(close)], wide);
    TextOfBoth(pieces, [Bare(close)], wide);
    TextOfOne(Bare(close), wide);
  }

  lemma {:induction false} ItemsInPieces(items: seq<Tree>, wide: string -> string)
    ensures PrintedItems(items, wide) == TextOf(PiecesOfItems(items), wide)
    decreases items, 0
  {
    if items != [] {
      PrintedInPieces(items[0], wide);
      if |items| > 1 {
        ItemsInPieces(items[1..], wide);
        TextOfBoth(PiecesOf(items[0]), [Bare(",")] + PiecesOfItems(items[1..]), wide);
        TextOfNext(Bare(","), PiecesOfItems(items[1..]), wide);
      }
    }
  }

  lemma {:induction false} MembersInPieces(members: seq<Member>, wide: string -> string)
    ensures PrintedMembers(members, wide) == TextOf(PiecesOfMembers(members), wide)
    decreases members, 0
  {
    if members != [] {
      var first, rest := members[0], if |members| == 1 then [] else [Bare(",")] + PiecesOfMembers(members[1..]);
      PrintedInPieces(first.value, wide);
      if |members| > 1 {
        MembersInPieces(members[1..], wide);
        TextOfNext(Bare(","), PiecesOfMembers(members[1..]), wide);
      }
      TextOfBoth(PiecesOf(first.value), rest, wide);
      TextOfNext(Bare(":"), PiecesOf(first.value) + rest, wide);
      TextOfNext(Said(first.key), [Bare(":")] + (PiecesOf(first.value) + rest), wide);
    }
  }

  /** Numbers are numbers, and what is written plainly holds no quote and no escape. */
  predicate ArePlain(pieces: seq<Piece>) {
    pieces == [] || (IsPlain(pieces[0]) && ArePlain(pieces[1..]))
  }

  predicate IsPlain(piece: Piece) {
    match piece
    case Bare(text) => '"' !in text && '\\' !in text
    case Said(_) => true
    case Counted(digits) => AreNumeric(digits)
  }

  predicate Numbered(tree: Tree)
    decreases tree, 1
  {
    match tree
    case Number(digits) => AreNumeric(digits)
    case Wide(digits) => AreNumeric(digits)
    case List(items) => AllNumbered(items)
    case Object(members) => MembersNumbered(members)
    case _ => true
  }

  predicate AllNumbered(items: seq<Tree>)
    decreases items, 0
  {
    items == [] || (Numbered(items[0]) && AllNumbered(items[1..]))
  }

  predicate MembersNumbered(members: seq<Member>)
    decreases members, 0
  {
    members == [] || (Numbered(members[0].value) && MembersNumbered(members[1..]))
  }

  lemma {:induction false} BothPlain(one: seq<Piece>, other: seq<Piece>)
    ensures ArePlain(one + other) <==> ArePlain(one) && ArePlain(other)
  {
    if one == [] {
      assert one + other == other;
    } else {
      assert (one + other)[1..] == one[1..] + other;
      BothPlain(one[1..], other);
    }
  }

  lemma OnePlain(piece: Piece)
    ensures ArePlain([piece]) <==> IsPlain(piece)
  {
    assert [piece][1..] == [];
  }

  lemma {:induction false} NumberedIsPlain(tree: Tree)
    requires Numbered(tree)
    ensures ArePlain(PiecesOf(tree))
    decreases tree, 1
  {
    match tree
    case List(items) =>
      ItemsArePlain(items);
      EnclosedIsPlain("[", PiecesOfItems(items), "]");
    case Object(members) =>
      MembersArePlain(members);
      EnclosedIsPlain("{", PiecesOfMembers(members), "}");
    case _ => OnePlain(PiecesOf(tree)[0]);
  }

  lemma EnclosedIsPlain(open: string, pieces: seq<Piece>, close: string)
    requires IsPlain(Bare(open)) && ArePlain(pieces) && IsPlain(Bare(close))
    ensures ArePlain([Bare(open)] + (pieces + [Bare(close)]))
  {
    OnePlain(Bare(open));
    OnePlain(Bare(close));
    BothPlain(pieces, [Bare(close)]);
    BothPlain([Bare(open)], pieces + [Bare(close)]);
  }

  lemma {:induction false} ItemsArePlain(items: seq<Tree>)
    requires AllNumbered(items)
    ensures ArePlain(PiecesOfItems(items))
    decreases items, 0
  {
    if items != [] {
      NumberedIsPlain(items[0]);
      if |items| > 1 {
        ItemsArePlain(items[1..]);
        OnePlain(Bare(","));
        BothPlain([Bare(",")], PiecesOfItems(items[1..]));
        BothPlain(PiecesOf(items[0]), [Bare(",")] + PiecesOfItems(items[1..]));
      }
    }
  }

  lemma {:induction false} MembersArePlain(members: seq<Member>)
    requires MembersNumbered(members)
    ensures ArePlain(PiecesOfMembers(members))
    decreases members, 0
  {
    if members != [] {
      var first, rest := members[0], if |members| == 1 then [] else [Bare(",")] + PiecesOfMembers(members[1..]);
      NumberedIsPlain(first.value);
      OnePlain(Bare(","));
      if |members| > 1 {
        MembersArePlain(members[1..]);
        BothPlain([Bare(",")], PiecesOfMembers(members[1..]));
      }
      BothPlain(PiecesOf(first.value), rest);
      OnePlain(Bare(":"));
      BothPlain([Bare(":")], PiecesOf(first.value) + rest);
      OnePlain(Said(first.key));
      BothPlain([Said(first.key)], [Bare(":")] + (PiecesOf(first.value) + rest));
    }
  }

  // ----- the whole text -----

  /** A marker is closed somewhere in `pieces`: by a string that ends as one does, or by a wide integer. */
  predicate Close(pieces: seq<Piece>) {
    pieces != [] && (pieces[0].Counted? || (pieces[0].Said? && Ends(pieces[0].text)) || Close(pieces[1..]))
  }

  /** A marker opens in a string or a key, and is closed in what is written after it. */
  predicate Mistaken(pieces: seq<Piece>) {
    pieces != [] && ((pieces[0].Said? && IsTaken(pieces[0].text, Close(pieces[1..]))) || Mistaken(pieces[1..]))
  }

  lemma {:induction false} PiecesFollow(pieces: seq<Piece>)
    requires ArePlain(pieces)
    ensures Follows(TextOf(pieces, AsMarked))
  {
    if pieces != [] {
      PiecesFollow(pieces[1..]);
    }
  }

  lemma {:induction false} PiecesClose(pieces: seq<Piece>)
    requires ArePlain(pieces)
    ensures HasClosing(TextOf(pieces, AsMarked)) <==> Close(pieces)
  {
    if pieces != [] {
      var rest := TextOf(pieces[1..], AsMarked);
      PiecesClose(pieces[1..]);
      PiecesFollow(pieces[1..]);
      match pieces[0]
      case Bare(text) => NoBackslashNoClosing(text, rest);
      case Said(text) => QuotedCloses(text, rest);
      case Counted(digits) => MarkedCloses(digits, rest);
    } else {
      assert !(Closing <= "");
    }
  }

  lemma QuotedCloses(text: string, rest: string)
    requires Follows(rest)
    ensures HasClosing(Quoted(text) + rest) <==> Ends(text) || HasClosing(rest)
  {
    Moved("\"", EscapedAll(text) + "\"", rest);
    Moved(EscapedAll(text), "\"", rest);
    NoBackslashNoClosing("\"", Inside(text, rest));
    StringCloses(text, rest);
  }

  lemma MarkedCloses(digits: string, rest: string)
    requires AreNumeric(digits)
    ensures HasClosing(AsMarked(digits) + rest)
  {
    MarkedText(digits);
    Moved(Opening, digits + Closing, rest);
    Moved(digits, Closing, rest);
    ClosingIsNext(digits, rest);
    var text := AsMarked(digits) + rest;
    assert text[|Opening|..] == digits + (Closing + rest);
    ClosingInTail(text, |Opening|);
  }

  /** What is made of one part is kept ahead of what is made of the rest, or is lost with it. */
  lemma NextPiece(direct: string, more: string, made: string, rest: string)
    ensures direct <= made && made == direct + rest ==> (direct + more <= made <==> more <= rest)
    ensures !(direct <= made) ==> !(direct + more <= made)
    ensures direct + more == direct + rest <==> more == rest
  {
    if direct + more <= made {
      assert made[..|direct|] == (direct + more)[..|direct|] == direct;
      assert made == direct + rest ==>
        made[|direct|..] == rest && made[|direct|..][..|more|] == (direct + more)[|direct|..] == more;
    }
    if made == direct + rest && more <= rest {
      assert made == direct + (more + rest[|more|..]);
    }
    assert (direct + more)[|direct|..] == more && (direct + rest)[|direct|..] == rest;
  }

  /** What the scan makes of a text is the text with its wide integers written directly where no string
      is mistaken, and does not begin with that text where one is. */
  lemma {:induction false} PiecesAreReplaced(pieces: seq<Piece>)
    requires ArePlain(pieces)
    ensures !Mistaken(pieces) ==> Replaced(TextOf(pieces, AsMarked)) == TextOf(pieces, Direct)
    ensures Mistaken(pieces) ==> !(TextOf(pieces, Direct) <= Replaced(TextOf(pieces, AsMarked)))
  {
    if pieces == [] {
      assert Replaced("") == "";
    } else {
      var rest, direct := TextOf(pieces[1..], AsMarked), PieceText(pieces[0], Direct);
      var made := Replaced(TextOf(pieces, AsMarked));
      PiecesAreReplaced(pieces[1..]);
      PiecesFollow(pieces[1..]);
      PiecesClose(pieces[1..]);
      match pieces[0] {
        case Bare(text) => PlainIsKept(text, rest);
        case Said(text) => StringIsKeptOrTaken(text, rest);
        case Counted(digits) => MarkedIsReplaced(digits, rest);
      }
      NextPiece(direct, TextOf(pieces[1..], Direct), made, Replaced(rest));
    }
  }

  /** The text of a tree whose wide integers were marked, once rendered. It is the tree's text with
      those integers as their digits and `n` where no marker opens in a string or a key and is closed
      after it, and only there. */
  method Literal(tree: Tree) returns (text: string)
    requires Numbered(tree)
    ensures text == Printed(tree, Direct) <==> !Mistaken(PiecesOf(tree))
  {
    NumberedIsPlain(tree);
    PiecesAreReplaced(PiecesOf(tree));
    PrintedInPieces(tree, AsMarked);
    PrintedInPieces(tree, Direct);
    text := Rendered(Printed(tree, AsMarked));
  }

  // ----- strings without the mark -----

  lemma NameBeginsWithTheMark(text: string)
    ensures Name <= text ==> Mark in text
  {
    assert Name[0] == Mark;
  }

  lemma {:induction false} UnmarkedOpensNone(text: string, quoted: bool)
    requires Mark !in text
    ensures !Opens(text, quoted)
  {
    NameBeginsWithTheMark(text);
    if text != [] {
      UnmarkedOpensNone(text[1..], text[0] == '"');
    }
  }

  /** Where no string and no key holds the mark, none is mistaken. */
  lemma {:induction false} UnmarkedIsNotMistaken(pieces: seq<Piece>)
    requires forall piece :: piece in pieces && piece.Said? ==> Mark !in piece.text
    ensures !Mistaken(pieces)
  {
    if pieces != [] {
      UnmarkedIsNotMistaken(pieces[1..]);
      if pieces[0].Said? {
        assert pieces[0] in pieces;
        UnmarkedOpensNone(pieces[0].text, true);
      }
    }
  }

  // ----- the two sides of the condition -----

  /** A string that is a marker's own text is taken for the integer. */
  lemma MarkedTextIsTaken(digits: string)
    requires AreNumeric(digits)
    ensures Mistaken(PiecesOf(Text(Marked(digits))))
    ensures Replaced(Printed(Text(Marked(digits)), AsMarked)) == Direct(digits) != Printed(Text(Marked(digits)), Direct)
  {
    MarkedIsReplaced(digits, "");
    assert AsMarked(digits) + "" == AsMarked(digits) && Direct(digits) + "" == Direct(digits);
    assert Quoted(Marked(digits))[0] == '"';
    assert Direct(digits)[0] == if digits == [] then 'n' else digits[0];
    NumberedIsPlain(Text(Marked(digits)));
    PiecesAreReplaced(PiecesOf(Text(Marked(digits))));
    PrintedInPieces(Text(Marked(digits)), AsMarked);
    PrintedInPieces(Text(Marked(digits)), Direct);
  }

  /** The mark alone, or a marker's opening with no closing after it, is not. */
  lemma OpeningAloneIsKept()
    ensures !Mistaken(PiecesOf(Text([Mark]))) && !Mistaken(PiecesOf(Text(Name)))
  {
    assert [Mark][1..] == [] && !(Name <= [Mark]);
    assert !Opens([Mark], true);
    assert Name[|Name|..] == "";
    assert AfterOpening(Name, true) == "";
    assert [Said([Mark])][1..] == [] && [Said(Name)][1..] == [];
  }
}
