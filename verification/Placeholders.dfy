/** Text with placeholders for an item's own type parameters, and the text with each filled. */
module Placeholders {
  import opened Wrappers
  import opened Decimals
  import opened Texts

  const Opens: string := "__tixschema_parameter_"
  const Closes: string := "__"

  /** What the type parameter at `at` is spelled as where its argument is written later. */
  function Placeholder(at: nat): string {
    Opens + NatText(at) + Closes
  }

  /** `text.split(pattern)` */
  function Split(text: string, pattern: string): (pieces: seq<string>)
    requires pattern != []
    ensures pieces != []
    decreases |text|
  {
    var parts := SplitOnce(text, pattern);
    if parts.None? then [text] else [parts.value.0] + Split(parts.value.1, pattern)
  }

  function Pieces(text: string): (pieces: seq<string>)
    ensures pieces != []
  {
    Split(text, Opens)
  }

  type Filling = nat -> Option<string>

  /** `text.parse::<usize>()`: digits, and a plus ahead of them or none. */
  function PositionIn(text: string): Option<nat> {
    NatOf(if text != [] && text[0] == '+' then text[1..] else text)
  }

  lemma PositionReadsBack(at: nat)
    ensures PositionIn(NatText(at)) == Some(at) && PositionIn("+" + NatText(at)) == Some(at)
  {
    NatReadsBack(at);
    assert ("+" + NatText(at))[1..] == NatText(at);
  }

  /** A piece, which begins past a placeholder's opening, with the placeholder filled. */
  function FilledPiece(piece: string, filling: Filling): Option<string> {
    var at := Found(piece, Closes);
    if at.None? then None
    else
      var position := PositionIn(piece[..at.value]);
      if position.None? || filling(position.value).None? then None
      else Some(filling(position.value).value + piece[at.value + |Closes|..])
  }

  function FilledPieces(pieces: seq<string>, filling: Filling): Option<string> {
    if pieces == [] then Some("")
    else
      var first, rest := FilledPiece(pieces[0], filling), FilledPieces(pieces[1..], filling);
      if first.None? || rest.None? then None else Some(first.value + rest.value)
  }

  /** `described` with each placeholder filled, and none where one is not. */
  function Filled(described: string, filling: Filling): Option<string> {
    Led(Pieces(described)[0], FilledPieces(Pieces(described)[1..], filling))
  }

  function Led(head: string, filled: Option<string>): Option<string> {
    if filled.None? then None else Some(head + filled.value)
  }

  method PlaceholdersFilled(described: string, filling: Filling) returns (r: Option<string>)
    ensures r == Filled(described, filling)
  {
    var pieces := Pieces(described);
    var filled := pieces[0];
    for i := 1 to |pieces|
      invariant Led(filled, FilledPieces(pieces[i..], filling)) == Filled(described, filling)
    {
      assert pieces[i..][0] == pieces[i] && pieces[i..][1..] == pieces[i + 1..];
      var piece := FilledPiece(pieces[i], filling);
      if piece.None? {
        return None;
      }
      LedMore(filled, piece.value, FilledPieces(pieces[i + 1..], filling));
      filled := filled + piece.value;
    }
    assert pieces[|pieces|..] == [];
    assert filled + "" == filled;
    return Some(filled);
  }

  lemma LedMore(one: string, other: string, filled: Option<string>)
    ensures Led(one, Led(other, filled)) == Led(one + other, filled)
  {
    if filled.Some? {
      assert one + (other + filled.value) == one + other + filled.value;
    }
  }

  // ----- where a placeholder can begin -----

  predicate IsNameChar(c: char) {
    'a' <= c <= 'z' || 'A' <= c <= 'Z' || '0' <= c <= '9' || c == '_'
  }

  /** What may follow a name: nothing, or what goes on with no name. */
  predicate Follows(rest: string) {
    rest == [] || !IsNameChar(rest[0])
  }

  lemma OpensIsName()
    ensures |Opens| == 22 && Opens[0] == '_' && Opens[1] == '_' && Opens[2] == 't'
    ensures forall i :: 0 <= i < |Opens| ==> IsNameChar(Opens[i])
  {
  }

  /** An opening is two underscores, a `t` and name characters on. */
  lemma OpensAt(text: string, i: nat)
    requires i <= |text|
    ensures Opens <= text[i..] ==>
      && i + |Opens| <= |text|
      && text[i] == '_' && text[i + 1] == '_' && text[i + 2] == 't'
      && forall k :: i <= k < i + |Opens| ==> IsNameChar(text[k])
  {
    OpensIsName();
    if Opens <= text[i..] {
      assert text[i..][..|Opens|] == Opens;
      forall k | i <= k < i + |Opens| ensures text[k] == Opens[k - i] && IsNameChar(text[k]) {
        assert text[k] == text[i..][k - i] == Opens[k - i];
      }
    }
  }

  /** Text that holds no placeholder's opening. */
  predicate IsPlain(text: string) {
    Found(text, Opens).None?
  }

  lemma {:induction false} PlainBeginsNone(text: string, i: nat)
    requires IsPlain(text) && i <= |text|
    ensures !(Opens <= text[i..])
  {
    OpensIsName();
    if i == 0 {
      assert text[0..] == text;
    } else {
      assert text[i..] == text[1..][i - 1..];
      PlainBeginsNone(text[1..], i - 1);
    }
  }

  /** An opening that begins in plain text would end in it: what follows is no part of a name. */
  lemma PlainBeforeBreak(text: string, rest: string)
    requires IsPlain(text) && Follows(rest)
    ensures NoneBegins(Opens, text, rest)
  {
    OpensIsName();
    var whole := text + rest;
    forall i | 0 <= i < |text| ensures !(Opens <= whole[i..]) {
      OpensAt(whole, i);
      PlainBeginsNone(text, i);
      assert i + |Opens| <= |text| ==> whole[i..][..|Opens|] == text[i..][..|Opens|];
      assert rest != [] ==> whole[|text|] == rest[0];
    }
  }

  /** Plain text that ends where no name goes on is plain before anything. */
  lemma PlainBreak(text: string, rest: string)
    requires IsPlain(text) && (text != [] ==> !IsNameChar(text[|text| - 1]))
    ensures NoneBegins(Opens, text, rest)
  {
    OpensIsName();
    var whole := text + rest;
    forall i | 0 <= i < |text| ensures !(Opens <= whole[i..]) {
      OpensAt(whole, i);
      PlainBeginsNone(text, i);
      assert i + |Opens| <= |text| ==> whole[i..][..|Opens|] == text[i..][..|Opens|];
      assert whole[|text| - 1] == text[|text| - 1];
    }
  }

  /** Where no pattern begins in it, a piece is led ahead of the first of the rest. */
  lemma SplitPast(pattern: string, piece: string, rest: string)
    requires pattern != [] && NoneBegins(pattern, piece, rest)
    ensures Split(piece + rest, pattern) == [piece + Split(rest, pattern)[0]] + Split(rest, pattern)[1..]
  {
    SplitOncePast(pattern, piece, rest);
    SplitFurther(pattern, piece, rest);
  }

  lemma SplitFurther(pattern: string, piece: string, rest: string)
    requires pattern != []
    requires SplitOnce(piece + rest, pattern) == var parts := SplitOnce(rest, pattern); if parts.None? then None
      else Some((piece + parts.value.0, parts.value.1))
    ensures Split(piece + rest, pattern) == [piece + Split(rest, pattern)[0]] + Split(rest, pattern)[1..]
  {
    var parts := SplitOnce(rest, pattern);
    if parts.Some? {
      HeadAndTail(parts.value.0, Split(parts.value.1, pattern));
    }
  }

  lemma HeadAndTail(head: string, tail: seq<string>)
    ensures ([head] + tail)[0] == head && ([head] + tail)[1..] == tail
  {
  }

  /** Text in which no placeholder begins is kept. */
  lemma KeptPast(piece: string, rest: string, filling: Filling)
    requires NoneBegins(Opens, piece, rest)
    ensures Filled(piece + rest, filling) == Led(piece, Filled(rest, filling))
  {
    SplitPast(Opens, piece, rest);
    LedMore(piece, Pieces(rest)[0], FilledPieces(Pieces(rest)[1..], filling));
    assert Pieces(piece + rest)[1..] == Pieces(rest)[1..];
  }

  // ----- a placeholder is filled -----

  lemma {:induction false} DigitsClose(digits: string, more: string)
    requires AreDigits(digits)
    ensures Found(digits + (Closes + more), Closes) == Some(|digits|)
  {
    var text := digits + (Closes + more);
    if digits == [] {
      assert text == Closes + more;
    } else {
      assert text[0] == digits[0] && Closes[0] == '_';
      assert text[1..] == digits[1..] + (Closes + more);
      DigitsClose(digits[1..], more);
    }
  }

  lemma DigitsBeginNone(digits: string, rest: string)
    requires AreDigits(digits) && Follows(rest)
    ensures NoneBegins(Opens, digits + Closes, rest)
  {
    OpensIsName();
    var text := digits + Closes + rest;
    forall i | 0 <= i < |digits + Closes| ensures !(Opens <= text[i..]) {
      OpensAt(text, i);
      assert i < |digits| ==> text[i] == digits[i];
      assert rest != [] ==> text[|digits| + 2] == rest[0];
    }
  }

  lemma OpensAtHead(after: string)
    ensures Pieces(Opens + after) == [""] + Pieces(after)
  {
    var text := Opens + after;
    assert Found(text, Opens) == Some(0);
    assert text[..0] == "" && text[|Opens|..] == after;
  }

  lemma PlaceholderIsFilled(at: nat, rest: string, filling: Filling)
    requires Follows(rest) && filling(at).Some?
    ensures Filled(Placeholder(at) + rest, filling) == Led(filling(at).value, Filled(rest, filling))
  {
    var digits := NatText(at);
    var head, tail := Pieces(rest)[0], Pieces(rest)[1..];
    PlaceholderPieces(at, rest);
    PieceIsFilled(at, head, filling);
    EmptyHead([digits + Closes + head] + tail, filling);
    FirstFilled(digits + Closes + head, tail, filling);
    LedMore(filling(at).value, head, FilledPieces(tail, filling));
  }

  lemma PlaceholderPieces(at: nat, rest: string)
    requires Follows(rest)
    ensures Pieces(Placeholder(at) + rest) == [""] + ([NatText(at) + Closes + Pieces(rest)[0]] + Pieces(rest)[1..])
  {
    var digits := NatText(at);
    NatReadsBack(at);
    Moved(Opens, digits, Closes);
    Moved(Opens, digits + Closes, rest);
    OpensAtHead(digits + Closes + rest);
    DigitsBeginNone(digits, rest);
    SplitPast(Opens, digits + Closes, rest);
  }

  lemma FirstFilled(piece: string, tail: seq<string>, filling: Filling)
    requires FilledPiece(piece, filling).Some?
    ensures FilledPieces([piece] + tail, filling) == Led(FilledPiece(piece, filling).value, FilledPieces(tail, filling))
  {
    assert ([piece] + tail)[1..] == tail;
  }

  lemma EmptyHead(pieces: seq<string>, filling: Filling)
    ensures Led("", FilledPieces(pieces, filling)) == FilledPieces(pieces, filling)
    ensures ([""] + pieces)[1..] == pieces
  {
    var filled := FilledPieces(pieces, filling);
    assert filled.Some? ==> "" + filled.value == filled.value;
  }

  lemma PieceIsFilled(at: nat, head: string, filling: Filling)
    requires filling(at).Some?
    ensures FilledPiece(NatText(at) + Closes + head, filling) == Some(filling(at).value + head)
  {
    var digits := NatText(at);
    var piece := digits + Closes + head;
    NatReadsBack(at);
    PositionReadsBack(at);
    assert piece == digits + (Closes + head);
    DigitsClose(digits, head);
    assert piece[..|digits|] == digits && piece[|digits| + |Closes|..] == head;
  }
}
