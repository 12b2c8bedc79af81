/** The markers a wide integer is found again by in JSON text: how a string's text is written, what the
    scan makes of a text, and where a marker opens and closes in the text of a string. */
module BigintMarkers {
  import opened Wrappers
  import opened Texts

  const Mark: char := 1 as char

  /** The two markers as JSON text holds them. */
  const Opening: string := "\"\\u0001bigint:"
  const Closing: string := "\\u0001\""

  // ----- a string as JSON writes it -----

  function Hex(d: nat): char
    requires d < 16
  {
    if d < 10 then ('0' as int + d) as char else ('a' as int + (d - 10)) as char
  }

  /** A character of a string, as section 7 of RFC 8259 writes it: by its short escape, by `\u00XX`
      where it is another control character, and as itself. */
  function Escaped(c: char): string {
    if c == '"' then "\\\""
    else if c == '\\' then "\\\\"
    else if c == 8 as char then "\\b"
    else if c == 9 as char then "\\t"
    else if c == 10 as char then "\\n"
    else if c == 12 as char then "\\f"
    else if c == 13 as char then "\\r"
    else if c as int < 32 then "\\u00" + [Hex(c as int / 16), Hex(c as int % 16)]
    else [c]
  }

  function EscapedAll(text: string): string {
    if text == [] then [] else Escaped(text[0]) + EscapedAll(text[1..])
  }

  function Quoted(text: string): string {
    "\"" + (EscapedAll(text) + "\"")
  }

  // ----- how JSON reads a string -----

  function HexValue(c: char): Option<nat> {
    if '0' <= c <= '9' then Some(c as int - '0' as int)
    else if 'a' <= c <= 'f' then Some(c as int - 'a' as int + 10)
    else if 'A' <= c <= 'F' then Some(c as int - 'A' as int + 10)
    else None
  }

  function HexValues(text: string, value: nat): Option<nat> {
    if text == [] then Some(value)
    else match HexValue(text[0]) case None => None case Some(digit) => HexValues(text[1..], value * 16 + digit)
  }

  /** The character of a one-letter escape. */
  function ShortEscape(c: char): Option<char> {
    if c == '"' || c == '\\' || c == '/' then Some(c)
    else if c == 'b' then Some(8 as char)
    else if c == 't' then Some(9 as char)
    else if c == 'n' then Some(10 as char)
    else if c == 'f' then Some(12 as char)
    else if c == 'r' then Some(13 as char)
    else None
  }

  function LedBy(c: char, rest: Option<string>): Option<string> {
    if rest.None? then None else Some([c] + rest.value)
  }

  /** The string between two quotes, as section 7 of RFC 8259 reads it; a lone surrogate is none. */
  function Unescaped(text: string): Option<string>
    decreases |text|
  {
    if text == [] then Some([])
    else if text[0] == '"' || text[0] as int < 32 then None
    else if text[0] != '\\' then LedBy(text[0], Unescaped(text[1..]))
    else if |text| >= 6 && text[1] == 'u' then
      var value := HexValues(text[2..6], 0);
      if value.None? || !(value.value < 0xD800 || 0xE000 <= value.value < 0x1_0000) then None
      else LedBy(value.value as char, Unescaped(text[6..]))
    else if |text| < 2 || ShortEscape(text[1]).None? then None
    else LedBy(ShortEscape(text[1]).value, Unescaped(text[2..]))
  }

  lemma ShortIsRead(c: char, escape: char, rest: string)
    requires ShortEscape(escape) == Some(c)
    ensures Unescaped(['\\', escape] + rest) == LedBy(c, Unescaped(rest))
  {
    var text := ['\\', escape] + rest;
    assert text[0] == '\\' && text[1] == escape && text[2..] == rest;
  }

  lemma ControlIsRead(n: nat, rest: string)
    requires n < 32
    ensures Unescaped("\\u00" + [Hex(n / 16), Hex(n % 16)] + rest) == LedBy(n as char, Unescaped(rest))
  {
    var digits := ['0', '0', Hex(n / 16), Hex(n % 16)];
    var text := "\\u00" + [Hex(n / 16), Hex(n % 16)] + rest;
    assert text[2..6] == digits && text[6..] == rest;
    assert digits[1..] == ['0', Hex(n / 16), Hex(n % 16)] && digits[1..][1..] == [Hex(n / 16), Hex(n % 16)];
    assert digits[1..][1..][1..] == [Hex(n % 16)] && [Hex(n % 16)][1..] == [];
    assert HexValues([Hex(n % 16)], n / 16) == Some(n);
    assert HexValues(digits[1..][1..], 0) == Some(n);
    assert HexValues(digits[1..], 0) == Some(n);
    assert HexValues(digits, 0) == Some(n);
  }

  lemma CharIsRead(c: char, rest: string)
    ensures Unescaped(Escaped(c) + rest) == LedBy(c, Unescaped(rest))
  {
    var n := c as int;
    if c == '"' {
      ShortIsRead(c, '"', rest);
    } else if c == '\\' {
      ShortIsRead(c, '\\', rest);
    } else if n == 8 {
      ShortIsRead(c, 'b', rest);
    } else if n == 9 {
      ShortIsRead(c, 't', rest);
    } else if n == 10 {
      ShortIsRead(c, 'n', rest);
    } else if n == 12 {
      ShortIsRead(c, 'f', rest);
    } else if n == 13 {
      ShortIsRead(c, 'r', rest);
    } else if n < 32 {
      ControlIsRead(n, rest);
    } else {
      assert ([c] + rest)[1..] == rest;
    }
  }

  /** A string's text is read back as the string. */
  lemma {:induction false} EscapedIsRead(text: string)
    ensures Unescaped(EscapedAll(text)) == Some(text)
  {
    if text != [] {
      EscapedIsRead(text[1..]);
      CharIsRead(text[0], EscapedAll(text[1..]));
      assert text == [text[0]] + text[1..];
    }
  }

  // ----- the scan -----

  /** `json` with each marked string replaced by its digits and `n`. */
  function Replaced(json: string): string
    decreases |json|
  {
    var begun := SplitOnce(json, Opening);
    if begun.None? then json
    else
      var closed := SplitOnce(begun.value.1, Closing);
      if closed.None? then json else begun.value.0 + (closed.value.0 + ("n" + Replaced(closed.value.1)))
  }

  method Rendered(json: string) returns (replaced: string)
    ensures replaced == Replaced(json)
  {
    replaced := "";
    var rest := json;
    assert replaced + Replaced(rest) == Replaced(json);
    while true
      invariant replaced + Replaced(rest) == Replaced(json)
      decreases |rest|
    {
      var begun := SplitOnce(rest, Opening);
      if begun.None? {
        break;
      }
      var closed := SplitOnce(begun.value.1, Closing);
      if closed.None? {
        break;
      }
      Moved(replaced, begun.value.0, closed.value.0 + ("n" + Replaced(closed.value.1)));
      replaced := replaced + begun.value.0;
      Moved(replaced, closed.value.0, "n" + Replaced(closed.value.1));
      replaced := replaced + closed.value.0;
      Moved(replaced, "n", Replaced(closed.value.1));
      replaced := replaced + "n";
      rest := closed.value.1;
    }
    replaced := replaced + rest;
  }

  // ----- where a marker can begin -----

  /** Text in which no marker begins is kept. */
  lemma KeptPast(piece: string, rest: string)
    requires NoneBegins(Opening, piece, rest)
    ensures Replaced(piece + rest) == piece + Replaced(rest)
  {
    SplitOncePast(Opening, piece, rest);
    var begun := SplitOnce(rest, Opening);
    if begun.Some? {
      var closed := SplitOnce(begun.value.1, Closing);
      if closed.Some? {
        Moved(piece, begun.value.0, closed.value.0 + ("n" + Replaced(closed.value.1)));
      }
    }
  }

  /** A marker begins at a quote, and goes on with the escape of the mark. */
  lemma OpeningBegins(text: string)
    ensures Opening <= text ==> |text| > 6 && text[0] == '"' && text[1..7] == "\\u0001"
  {
    if Opening <= text {
      assert text[1..7] == Opening[1..7];
    }
  }

  lemma NoQuoteNoMarker(piece: string, rest: string)
    requires '"' !in piece
    ensures NoneBegins(Opening, piece, rest)
  {
    forall i | 0 <= i < |piece| ensures !(Opening <= (piece + rest)[i..]) {
      OpeningBegins((piece + rest)[i..]);
      assert (piece + rest)[i] == piece[i];
    }
  }

  lemma PlainIsKept(piece: string, rest: string)
    requires '"' !in piece
    ensures Replaced(piece + rest) == piece + Replaced(rest)
  {
    NoQuoteNoMarker(piece, rest);
    KeptPast(piece, rest);
  }

  // ----- marked strings -----

  lemma {:induction false} EscapedBoth(one: string, other: string)
    ensures EscapedAll(one + other) == EscapedAll(one) + EscapedAll(other)
  {
    if one == [] {
      assert one + other == other;
    } else {
      assert (one + other)[1..] == one[1..] + other;
      EscapedBoth(one[1..], other);
    }
  }

  lemma {:induction false} PlainIsWritten(plain: string)
    requires forall i :: 0 <= i < |plain| ==> Escaped(plain[i]) == [plain[i]]
    ensures EscapedAll(plain) == plain
  {
    if plain != [] {
      PlainIsWritten(plain[1..]);
    }
  }

  lemma MarkIsEscaped()
    ensures EscapedAll([Mark]) == "\\u0001"
  {
    assert EscapedAll([Mark]) == Escaped(Mark) + EscapedAll([Mark][1..]);
    assert [Mark][1..] == [] && EscapedAll([]) == [];
    assert Hex(0) == '0' && Hex(1) == '1';
  }

  lemma MarkersAreJoined()
    ensures Opening == "\"" + ("\\u0001" + "bigint:") && Closing == "\\u0001" + "\""
  {
  }

  lemma OpeningSplits(inner: string)
    ensures SplitOnce(Opening + inner, Opening) == Some(("", inner))
  {
    var text := Opening + inner;
    assert Found(text, Opening) == Some(0);
    assert text[..0] == "" && text[|Opening|..] == inner;
  }

  // ----- where a string opens a marker -----

  /** What a marker begins with, as the string that holds it does. */
  const Name: string := [Mark] + "bigint:"

  /** A marker opens in `text`: at its start where a quote stands before it, or after a quote in it. */
  predicate Opens(text: string, quoted: bool) {
    (quoted && Name <= text) || (text != [] && Opens(text[1..], text[0] == '"'))
  }

  /** What follows the first marker that opens in `text`. */
  function AfterOpening(text: string, quoted: bool): string
    requires Opens(text, quoted)
  {
    if quoted && Name <= text then text[|Name|..] else AfterOpening(text[1..], text[0] == '"')
  }

  /** What may follow a string's text: nothing, or something that is no escape. */
  predicate Follows(rest: string) {
    rest == [] || rest[0] != '\\'
  }

  /** A string's text, past what stands before it, and what follows it. */
  function Inside(text: string, rest: string): string {
    EscapedAll(text) + ("\"" + rest)
  }

  lemma InsideFirst(text: string, rest: string)
    requires text != []
    ensures Inside(text, rest) == Escaped(text[0]) + Inside(text[1..], rest)
  {
    Moved(Escaped(text[0]), EscapedAll(text[1..]), "\"" + rest);
  }

  /** How an escape begins: with a backslash, or it is the character itself, no quote and no backslash. */
  lemma EscapeBegins(c: char)
    ensures Escaped(c) != []
    ensures Escaped(c)[0] == '\\' || (Escaped(c) == [c] && c != '"' && c != '\\')
    ensures c != '"' ==> '"' !in Escaped(c)
    ensures c == '"' ==> Escaped(c) == "\\" + "\""
  {
  }

  lemma {:induction false} PlainPrefix(plain: string, text: string, rest: string)
    requires forall i :: 0 <= i < |plain| ==> plain[i] != '\\' && plain[i] != '"'
    ensures plain <= Inside(text, rest) ==>
      plain <= text && Inside(text, rest)[|plain|..] == Inside(text[|plain|..], rest)
  {
    var inside := Inside(text, rest);
    if plain == [] {
      assert text[0..] == text && inside[0..] == inside;
    } else if text == [] {
      assert inside[0] == '"';
    } else {
      PlainFirst(text, rest);
      PrefixFirst(plain, inside);
      PrefixFirst(plain, text);
      if plain[0] == inside[0] {
        PlainPrefix(plain[1..], text[1..], rest);
      }
    }
  }

  /** A string's text that begins with neither a quote nor a backslash begins as the string does. */
  lemma PlainFirst(text: string, rest: string)
    requires text != []
    ensures Inside(text, rest) != []
    ensures var first := Inside(text, rest)[0];
      first != '\\' ==> first == text[0] && Inside(text, rest)[1..] == Inside(text[1..], rest)
  {
    EscapeBegins(text[0]);
    InsideFirst(text, rest);
    assert Inside(text, rest)[0] == Escaped(text[0])[0];
    if Escaped(text[0]) == [text[0]] {
      assert ([text[0]] + Inside(text[1..], rest))[1..] == Inside(text[1..], rest);
    }
  }

  lemma PrefixFirst(prefix: string, text: string)
    requires prefix != [] && text != []
    ensures prefix <= text <==> prefix[0] == text[0] && prefix[1..] <= text[1..]
    ensures |prefix| <= |text| ==> text[1..][|prefix| - 1..] == text[|prefix|..]
  {
    assert prefix == [prefix[0]] + prefix[1..] && text == [text[0]] + text[1..];
    PrefixParts([prefix[0]], prefix[1..], text);
  }

  /** The escape of the mark begins the text of a string that begins with the mark, and no other. */
  lemma MarkBegins(text: string, rest: string)
    ensures "\\u0001" <= Inside(text, rest) ==>
      text != [] && text[0] == Mark && Inside(text, rest)[6..] == Inside(text[1..], rest)
  {
    if text == [] {
      assert Inside(text, rest)[0] == '"' && "\\u0001"[0] == '\\';
    } else {
      InsideFirst(text, rest);
      MarkEscapeIsItsOwn(text[0], Inside(text[1..], rest));
    }
  }

  lemma MarkEscapeIsItsOwn(c: char, rest: string)
    ensures "\\u0001" <= Escaped(c) + rest ==> c == Mark
    ensures c == Mark ==> Escaped(c) == "\\u0001"
  {
    var text := Escaped(c) + rest;
    assert "\\u0001"[0] == '\\' && "\\u0001"[1] == 'u' && "\\u0001"[4] == '0' && "\\u0001"[5] == '1';
    assert text[0] == Escaped(c)[0];
    assert |Escaped(c)| >= 2 ==> text[1] == Escaped(c)[1];
    if |Escaped(c)| == 6 {
      assert text[4] == Hex(c as int / 16) && text[5] == Hex(c as int % 16);
    }
  }

  /** Past a quote, a marker opens in a string's text where the string begins with its name. */
  lemma OpeningIsNamed(text: string, rest: string)
    ensures Opening <= "\"" + Inside(text, rest) ==> Name <= text
  {
    OpeningTail(Inside(text, rest));
    if Opening <= "\"" + Inside(text, rest) {
      MarkBegins(text, rest);
      NameIsPlain(text[1..], rest);
      NameBegins(text);
    }
  }

  lemma NameIsPlain(text: string, rest: string)
    ensures "bigint:" <= Inside(text, rest) ==> "bigint:" <= text
  {
    PlainPrefix("bigint:", text, rest);
  }

  lemma NameBegins(text: string)
    requires text != [] && text[0] == Mark && "bigint:" <= text[1..]
    ensures Name <= text
  {
    PrefixParts([Mark], "bigint:", text);
  }

  lemma OpeningTail(more: string)
    ensures Opening <= "\"" + more <==> "\\u0001" <= more && "bigint:" <= more[6..]
  {
    MarkersAreJoined();
    PrefixParts("\"", "\\u0001" + "bigint:", "\"" + more);
    PrefixParts("\\u0001", "bigint:", more);
    assert ("\"" + more)[1..] == more;
  }

  lemma NameIsWritten(text: string, rest: string)
    requires Name <= text
    ensures "\"" + Inside(text, rest) == Opening + Inside(text[|Name|..], rest)
  {
    var after := text[|Name|..];
    assert text == [Mark] + ("bigint:" + after);
    EscapedBoth([Mark], "bigint:" + after);
    EscapedBoth("bigint:", after);
    MarkIsEscaped();
    PlainIsWritten("bigint:");
    MarkersAreJoined();
    Moved("\\u0001", "bigint:" + EscapedAll(after), "\"" + rest);
    Moved("bigint:", EscapedAll(after), "\"" + rest);
    Moved("\"", "\\u0001", "bigint:" + Inside(after, rest));
    Moved("\"" + "\\u0001", "bigint:", Inside(after, rest));
    Moved("\"", "\\u0001", "bigint:");
  }

  function Lead(quoted: bool): string {
    if quoted then "\"" else ""
  }

  lemma LeadBeginsNone(text: string, quoted: bool, rest: string)
    requires !(quoted && Name <= text)
    ensures NoneBegins(Opening, Lead(quoted), Inside(text, rest))
  {
    if quoted {
      OpeningIsNamed(text, rest);
      assert (Lead(quoted) + Inside(text, rest))[0..] == "\"" + Inside(text, rest);
    }
  }

  /** The quote a character is written as is where the next marker may open. */
  lemma QuoteIsLed(c: char) returns (escape: string)
    ensures Escaped(c) == escape + Lead(c == '"') && '"' !in escape
  {
    EscapeBegins(c);
    escape := if c == '"' then "\\" else Escaped(c);
  }

  /** Where none opens in it, no marker begins in a string's text. */
  lemma {:induction false} NoneOpens(text: string, quoted: bool, rest: string)
    requires !Opens(text, quoted) && Follows(rest)
    ensures NoneBegins(Opening, Lead(quoted) + (EscapedAll(text) + "\""), rest)
  {
    LeadBeginsNone(text, quoted, rest);
    if text == [] {
      QuoteBeginsNone(rest);
      assert EscapedAll(text) + "\"" == "\"" && Inside(text, rest) == "\"" + rest;
      BothBegin(Opening, Lead(quoted), "\"", rest);
    } else {
      var escape := QuoteIsLed(text[0]);
      var after := Lead(text[0] == '"') + (EscapedAll(text[1..]) + "\"");
      NoneOpens(text[1..], text[0] == '"', rest);
      NoQuoteNoMarker(escape, after + rest);
      BothBegin(Opening, escape, after, rest);
      Moved(escape, Lead(text[0] == '"'), EscapedAll(text[1..]) + "\"");
      Moved(Escaped(text[0]), EscapedAll(text[1..]), "\"");
      assert escape + after == EscapedAll(text) + "\"";
      Moved(EscapedAll(text), "\"", rest);
      BothBegin(Opening, Lead(quoted), escape + after, rest);
    }
  }

  lemma QuoteBeginsNone(rest: string)
    requires Follows(rest)
    ensures NoneBegins(Opening, "\"", rest)
  {
    OpeningBegins(("\"" + rest)[0..]);
    assert rest != [] ==> ("\"" + rest)[1] == rest[0];
    assert "\\u0001"[0] == '\\';
    assert |("\"" + rest)[0..]| > 6 ==> ("\"" + rest)[0..][1..7][0] == rest[0];
  }

  /** Where one opens, the text stands before the first marker that begins, and goes on past it. */
  lemma {:induction false} FirstOpens(text: string, quoted: bool, rest: string) returns (before: string)
    requires Opens(text, quoted)
    ensures var tail := Opening + Inside(AfterOpening(text, quoted), rest);
      Lead(quoted) + Inside(text, rest) == before + tail && NoneBegins(Opening, before, tail)
  {
    var tail := Opening + Inside(AfterOpening(text, quoted), rest);
    if quoted && Name <= text {
      NameIsWritten(text, rest);
      before := "";
      assert "" + tail == tail;
    } else {
      var escape := QuoteIsLed(text[0]);
      var further := FirstOpens(text[1..], text[0] == '"', rest);
      before := Lead(quoted) + (escape + further);
      InsideFirst(text, rest);
      Moved(escape, Lead(text[0] == '"'), Inside(text[1..], rest));
      Moved(escape, further, tail);
      Moved(Lead(quoted), escape + further, tail);
      NoQuoteNoMarker(escape, further + tail);
      BothBegin(Opening, escape, further, tail);
      LeadBeginsNone(text, quoted, rest);
      BothBegin(Opening, Lead(quoted), escape + further, tail);
    }
  }

  // ----- where a string closes a marker -----

  /** The text of a string ends as a marker does: the string ends with the mark, or with the six
      characters of its escape. */
  predicate Ends(text: string) {
    text != [] && (text == [Mark] || text == "\\u0001" || Ends(text[1..]))
  }

  predicate HasClosing(text: string) {
    Found(text, Closing).Some?
  }

  lemma ClosingPast(piece: string, rest: string)
    requires NoneBegins(Closing, piece, rest)
    ensures HasClosing(piece + rest) <==> HasClosing(rest)
  {
    FoundPast(Closing, piece, rest);
  }

  lemma NoBackslashNoClosing(piece: string, rest: string)
    requires '\\' !in piece
    ensures HasClosing(piece + rest) <==> HasClosing(rest)
  {
    forall i | 0 <= i < |piece| ensures !(Closing <= (piece + rest)[i..]) {
      assert (piece + rest)[i..][0] == piece[i] && Closing[0] == '\\';
    }
    ClosingPast(piece, rest);
  }

  /** A quote begins what is left of a string's text where nothing is left of the string. */
  lemma QuoteIsLast(text: string, rest: string)
    ensures "\"" <= Inside(text, rest) <==> text == []
  {
    if text != [] {
      InsideFirst(text, rest);
      EscapeBegins(text[0]);
      assert Inside(text, rest)[0] == Escaped(text[0])[0];
    }
  }

  lemma ClosingIsParted(text: string)
    ensures Closing <= text <==> "\\u0001" <= text && "\"" <= text[6..]
  {
    MarkersAreJoined();
    PrefixParts("\\u0001", "\"", text);
    if Closing <= text {
      assert text[..6] == Closing[..6] == "\\u0001" && text[6] == Closing[6];
    }
  }

  /** A closing that begins with a character of a string ends the string with the mark. */
  lemma ClosingAtMark(text: string, rest: string)
    requires text != []
    ensures Closing <= Inside(text, rest) <==> text == [Mark]
  {
    ClosingIsParted(Inside(text, rest));
    MarkBegins(text, rest);
    QuoteIsLast(text[1..], rest);
    if text == [Mark] {
      MarkIsEscaped();
      assert Inside(text, rest) == "\\u0001" + ("\"" + rest);
      assert Inside(text, rest)[6..] == "\"" + rest;
    }
  }

  /** One that begins with the second half of a backslash's escape ends it with the mark's escape. */
  lemma ClosingAtBackslash(text: string, rest: string)
    ensures Closing <= "\\" + Inside(text, rest) <==> text == "u0001"
  {
    var inside := Inside(text, rest);
    ClosingIsParted("\\" + inside);
    EscapeAtBackslash(inside);
    PlainPrefix("u0001", text, rest);
    if "u0001" <= inside {
      QuoteIsLast(text[5..], rest);
    }
    if text == "u0001" {
      PlainIsWritten("u0001");
    }
  }

  lemma EscapeAtBackslash(inside: string)
    ensures "\\u0001" <= "\\" + inside <==> "u0001" <= inside
    ensures "u0001" <= inside ==> ("\\" + inside)[6..] == inside[5..]
  {
    NextInPrefix('\\', "u0001", inside);
    assert "\\u0001" == ['\\'] + "u0001";
  }

  lemma NextInPrefix(c: char, prefix: string, text: string)
    ensures [c] + prefix <= [c] + text <==> prefix <= text
  {
    if [c] + prefix <= [c] + text {
      assert ([c] + text)[1..][..|prefix|] == ([c] + prefix)[1..];
    }
    if prefix <= text {
      assert text == prefix + text[|prefix|..];
      assert [c] + text == [c] + prefix + text[|prefix|..];
    }
  }

  /** The first of a text's characters begins no closing but its own. */
  lemma FirstCloses(c: char, rest: string)
    ensures HasClosing(Escaped(c) + rest)
       <==> HasClosing(rest) || (Closing <= Escaped(c) + rest) || (c == '\\' && Closing <= "\\" + rest)
  {
    var text := Escaped(c) + rest;
    if c == '\\' {
      assert text == "\\" + ("\\" + rest);
      OneMore('\\', "\\" + rest);
      OneMore('\\', rest);
    } else {
      TailHasNoBackslash(c);
      var tail := Escaped(c)[1..];
      assert text == [Escaped(c)[0]] + (tail + rest);
      OneMore(Escaped(c)[0], tail + rest);
      NoBackslashNoClosing(tail, rest);
    }
  }

  lemma TailHasNoBackslash(c: char)
    ensures Escaped(c) != [] && (c != '\\' ==> '\\' !in Escaped(c)[1..])
  {
  }

  lemma OneMore(c: char, rest: string)
    ensures HasClosing([c] + rest) <==> HasClosing(rest) || Closing <= [c] + rest
  {
    assert ([c] + rest)[1..] == rest;
  }

  /** A closing is found in a string's text and what follows it where the string ends as a marker does,
      or one follows it. */
  lemma {:induction false} StringCloses(text: string, rest: string)
    requires Follows(rest)
    ensures HasClosing(Inside(text, rest)) <==> Ends(text) || HasClosing(rest)
  {
    if text == [] {
      assert Inside(text, rest) == "\"" + rest;
      NoBackslashNoClosing("\"", rest);
    } else {
      StringCloses(text[1..], rest);
      InsideFirst(text, rest);
      FirstCloses(text[0], Inside(text[1..], rest));
      ClosingAtMark(text, rest);
      ClosingAtBackslash(text[1..], rest);
      assert text == [text[0]] + text[1..];
      assert "\\u0001" == ['\\'] + "u0001";
    }
  }

  // ----- a string in a text -----

  /** Without a closing nothing is replaced. */
  lemma KeptWithoutClosing(text: string)
    requires !HasClosing(text)
    ensures Replaced(text) == text
  {
    var at := Found(text, Opening);
    if at.Some? {
      ClosingInTail(text, at.value + |Opening|);
    }
  }

  lemma {:induction false} ClosingInTail(text: string, at: nat)
    requires at <= |text|
    ensures HasClosing(text[at..]) ==> HasClosing(text)
  {
    if at == 0 {
      assert text[0..] == text;
    } else {
      assert text[1..][at - 1..] == text[at..];
      ClosingInTail(text[1..], at - 1);
    }
  }

  /** A marker opens in `text` and a closing follows it, in `text` or after it. */
  predicate IsTaken(text: string, later: bool) {
    Opens(text, true) && (Ends(AfterOpening(text, true)) || later)
  }

  /** A string is kept where no marker that opens in it is closed, and is not where one is. */
  lemma StringIsKeptOrTaken(text: string, rest: string)
    requires Follows(rest)
    ensures !IsTaken(text, HasClosing(rest)) ==> Replaced(Quoted(text) + rest) == Quoted(text) + Replaced(rest)
    ensures IsTaken(text, HasClosing(rest)) ==> !(Quoted(text) <= Replaced(Quoted(text) + rest))
  {
    Moved("\"", EscapedAll(text) + "\"", rest);
    Moved(EscapedAll(text), "\"", rest);
    if !Opens(text, true) {
      NoneOpens(text, true, rest);
      KeptPast(Quoted(text), rest);
    } else {
      var after := AfterOpening(text, true);
      var before := FirstOpens(text, true, rest);
      StringCloses(after, rest);
      if HasClosing(Inside(after, rest)) {
        TakenIsLost(text, before, after, rest);
      } else {
        NotTakenIsKept(text, before, after, rest);
      }
    }
  }

  lemma NotTakenIsKept(text: string, before: string, after: string, rest: string)
    requires Quoted(text) + rest == before + (Opening + Inside(after, rest)) && !HasClosing(Inside(after, rest))
    requires NoneBegins(Opening, before, Opening + Inside(after, rest)) && Follows(rest)
    ensures Replaced(Quoted(text) + rest) == Quoted(text) + Replaced(rest)
  {
    KeptPast(before, Opening + Inside(after, rest));
    OpeningSplits(Inside(after, rest));
    StringCloses(after, rest);
    KeptWithoutClosing(rest);
  }

  lemma TakenIsLost(text: string, before: string, after: string, rest: string)
    requires Quoted(text) + rest == before + (Opening + Inside(after, rest)) && HasClosing(Inside(after, rest))
    requires NoneBegins(Opening, before, Opening + Inside(after, rest)) && Follows(rest)
    ensures !(Quoted(text) <= Replaced(Quoted(text) + rest))
  {
    KeptPast(before, Opening + Inside(after, rest));
    var at := TakenMakes(Inside(after, rest));
    var made := Replaced(Opening + Inside(after, rest));
    NoQuoteAndBackslash(after, rest, at, made);
    // Both go on past `before`: the string with an opening, what is made with something else.
    QuotedGoesOn(text, before, after, rest);
    SameInPrefix(Quoted(text), before, made);
  }

  /** A closed marker makes what stands in it, and an `n`. */
  lemma TakenMakes(tail: string) returns (at: nat)
    requires HasClosing(tail)
    ensures Found(tail, Closing) == Some(at) && tail[..at] + "n" <= Replaced(Opening + tail)
  {
    OpeningSplits(tail);
    at := Found(tail, Closing).value;
    Moved(tail[..at], "n", Replaced(tail[at + |Closing|..]));
    assert "" + (tail[..at] + "n" + Replaced(tail[at + |Closing|..])) == tail[..at] + "n"
      + Replaced(tail[at + |Closing|..]);
  }

  lemma SameInPrefix(text: string, before: string, more: string)
    requires |before| + 2 <= |text|
    ensures text <= before + more ==> |more| >= 2 && text[|before|..|before| + 2] == more[..2]
  {
    if text <= before + more {
      assert (before + more)[|before|..|before| + 2] == more[..2];
      assert (before + more)[..|text|] == text;
    }
  }

  lemma SameTwo(one: string, other: string)
    requires |one| >= 2 && |other| >= 2 && (one[0] != other[0] || one[1] != other[1])
    ensures one[..2] != other[..2]
  {
    assert one[..2][0] == one[0] && other[..2][0] == other[0];
    assert one[..2][1] == one[1] && other[..2][1] == other[1];
  }

  lemma QuotedGoesOn(text: string, before: string, after: string, rest: string)
    requires Quoted(text) + rest == before + (Opening + Inside(after, rest))
    ensures |before| + 2 <= |Quoted(text)| && Quoted(text)[|before|..|before| + 2] == Opening[..2]
  {
    var whole := Quoted(text) + rest;
    assert |Quoted(text)| == |before| + |Opening| + |EscapedAll(after)| + 1;
    assert whole[|before|..|before| + 2] == (Opening + Inside(after, rest))[..2] == Opening[..2];
    assert whole[|before|..|before| + 2] == Quoted(text)[|before|..|before| + 2];
  }

  /** What a taken marker leaves begins with no quote and backslash. */
  lemma NoQuoteAndBackslash(after: string, rest: string, at: nat, made: string)
    requires Follows(rest) && Found(Inside(after, rest), Closing) == Some(at)
    requires Inside(after, rest)[..at] + "n" <= made
    ensures |made| >= 2 ==> made[..2] != Opening[..2]
  {
    var tail := Inside(after, rest);
    assert Opening[0] == '"' && Opening[1] == '\\';
    assert at > 0 ==> made[0] == tail[0];
    assert at > 1 ==> made[1] == tail[1];
    assert at == 0 ==> made[0] == 'n';
    assert at == 1 ==> made[1] == 'n';
    QuoteIsLast(after, rest);
    if tail[..1] == "\"" {
      assert tail == "\"" + rest;
      assert rest != [] ==> tail[1] == rest[0];
    } else {
      assert |tail| > 0;
      assert tail[0] != '"';
    }
    if |made| >= 2 {
      SameTwo(made, Opening);
    }
  }
}
