/** Text put between the delimiters of a JavaScript string, a JavaScript template, a Dart string and a
    Swift string, and the reading each language gives it back by; and the sentence a violated bound is
    reported in, which every one of them reads alike. */
module Sentences {
  import opened Wrappers
  import opened Texts

  datatype Style = JsString | JsTemplate | DartString(quote: char) | SwiftString

  /** Where Dart text stands: between one quote or the other. */
  predicate IsStyle(style: Style) {
    style.DartString? ==> style.quote == '"' || style.quote == '\''
  }

  const Lf: char := 10 as char
  const Cr: char := 13 as char
  const Tab: char := 9 as char
  const LineSeparator: char := 0x2028 as char
  const ParagraphSeparator: char := 0x2029 as char

  predicate IsControl(c: char) {
    c as int < 32 || 127 <= c as int < 160
  }

  function Hex(d: nat): char
    requires d < 16
  {
    if d < 10 then ('0' as int + d) as char else ('A' as int + (d - 10)) as char
  }

  // ----- writing -----

  function JsEscape(c: char): string {
    if c == Lf then "\\n"
    else if c == Cr then "\\r"
    else if c == LineSeparator then "\\u2028"
    else if c == ParagraphSeparator then "\\u2029"
    else if c == '\\' || c == '"' then ['\\', c]
    else if c == Tab then "\\t"
    else if IsControl(c) then ['\\', 'u', '0', '0', Hex(c as int / 16), Hex(c as int % 16)]
    else [c]
  }

  function DartEscape(c: char, quote: char): string {
    if c == Lf then "\\n"
    else if c == Cr then "\\r"
    else if c == '$' || c == '\\' then ['\\', c]
    else if c == quote then ['\\', c]
    else [c]
  }

  function SwiftEscape(c: char): string {
    if c == '\\' then "\\\\"
    else if c == '"' then "\\\""
    else if c == Lf then "\\n"
    else if c == Cr then "\\r"
    else if c == Tab then "\\t"
    else if IsControl(c) then
      (if c as int < 16 then ['\\', 'u', '{', Hex(c as int), '}']
        else ['\\', 'u', '{', Hex(c as int / 16), Hex(c as int % 16), '}'])
    else [c]
  }

  function TemplateEscape(c: char): string {
    if c == '\\' || c == '`' || c == '$' then ['\\', c] else [c]
  }

  function Escape(style: Style, c: char): string {
    match style
    case JsString => JsEscape(c)
    case JsTemplate => TemplateEscape(c)
    case DartString(quote) => DartEscape(c, quote)
    case SwiftString => SwiftEscape(c)
  }

  /** `text` with each character escaped for `style`. */
  function Escaped(style: Style, text: string): string {
    if text == [] then [] else Escape(style, text[0]) + Escaped(style, text[1..])
  }

  lemma {:induction false} EscapedLast(style: Style, text: string, c: char)
    ensures Escaped(style, text + [c]) == Escaped(style, text) + Escape(style, c)
  {
    EscapedBoth(style, text, [c]);
    assert [c][1..] == [];
    assert Escaped(style, [c]) == Escape(style, c) + Escaped(style, []);
    assert Escape(style, c) + [] == Escape(style, c);
  }

  lemma {:induction false} EscapedBoth(style: Style, one: string, other: string)
    ensures Escaped(style, one + other) == Escaped(style, one) + Escaped(style, other)
  {
    if one == [] {
      assert one + other == other;
    } else {
      assert (one + other)[1..] == one[1..] + other;
      EscapedBoth(style, one[1..], other);
      Moved(Escape(style, one[0]), Escaped(style, one[1..]), Escaped(style, other));
    }
  }

  method EscapeJsDoubleQuoted(text: string) returns (result: string)
    ensures result == Escaped(JsString, text)
  {
    result := "";
    for i := 0 to |text|
      invariant result == Escaped(JsString, text[..i])
    {
      var ch := text[i];
      assert text[..i + 1] == text[..i] + [ch];
      EscapedLast(JsString, text[..i], ch);
      if ch == Lf {
        result := result + "\\n";
      } else if ch == Cr {
        result := result + "\\r";
      } else if ch == LineSeparator {
        result := result + "\\u2028";
      } else if ch == ParagraphSeparator {
        result := result + "\\u2029";
      } else if ch == '\\' || ch == '"' {
        result := result + ['\\', ch];
      } else if ch == Tab {
        result := result + "\\t";
      } else if IsControl(ch) {
        result := result + ['\\', 'u', '0', '0', Hex(ch as int / 16), Hex(ch as int % 16)];
      } else {
        result := result + [ch];
      }
    }
    assert text[..|text|] == text;
  }

  method DartEscaped(text: string, quote: char) returns (escaped: string)
    ensures escaped == Escaped(DartString(quote), text)
  {
    escaped := "";
    for i := 0 to |text|
      invariant escaped == Escaped(DartString(quote), text[..i])
    {
      var written := text[i];
      assert text[..i + 1] == text[..i] + [written];
      EscapedLast(DartString(quote), text[..i], written);
      if written == Lf {
        escaped := escaped + "\\n";
      } else if written == Cr {
        escaped := escaped + "\\r";
      } else if written == '$' || written == '\\' || written == quote {
        escaped := escaped + ['\\', written];
      } else {
        escaped := escaped + [written];
      }
    }
    assert text[..|text|] == text;
  }

  method SwiftLiteralText(text: string) returns (written: string)
    ensures written == Escaped(SwiftString, text)
  {
    written := "";
    for i := 0 to |text|
      invariant written == Escaped(SwiftString, text[..i])
    {
      var letter := text[i];
      assert text[..i + 1] == text[..i] + [letter];
      EscapedLast(SwiftString, text[..i], letter);
      written := written + SwiftEscape(letter);
    }
    assert text[..|text|] == text;
  }

  /** `text.replace(c, with_)` */
  function Replaced(text: string, c: char, with_: string): string {
    if text == [] then [] else (if text[0] == c then with_ else [text[0]]) + Replaced(text[1..], c, with_)
  }

  lemma {:induction false} ReplacedBoth(one: string, other: string, c: char, with_: string)
    ensures Replaced(one + other, c, with_) == Replaced(one, c, with_) + Replaced(other, c, with_)
  {
    if one == [] {
      assert one + other == other;
    } else {
      assert (one + other)[1..] == one[1..] + other;
      ReplacedBoth(one[1..], other, c, with_);
      Moved(if one[0] == c then with_ else [one[0]], Replaced(one[1..], c, with_), Replaced(other, c, with_));
    }
  }

  lemma {:induction false} ReplacedNone(text: string, c: char, with_: string)
    requires c !in text
    ensures Replaced(text, c, with_) == text
  {
    if text != [] {
      ReplacedNone(text[1..], c, with_);
    }
  }

  function JsTemplateText(text: string): string {
    Replaced(Replaced(Replaced(text, '\\', "\\\\"), '`', "\\`"), '$', "\\$")
  }

  /** The three replaces, one after another, escape each character once: none touches what an earlier
      one put in. */
  lemma {:induction false} ThreeReplacesEscapeOnce(text: string)
    ensures JsTemplateText(text) == Escaped(JsTemplate, text)
  {
    if text != [] {
      ThreeReplacesEscapeOnce(text[1..]);
      var rest := Replaced(text[1..], '\\', "\\\\");
      var head: string := if text[0] == '\\' then "\\\\" else [text[0]];
      ReplacedBoth(head, rest, '`', "\\`");
      ReplacedBoth(Replaced(head, '`', "\\`"), Replaced(rest, '`', "\\`"), '$', "\\$");
      HeadIsEscaped(text[0]);
    }
  }

  lemma HeadIsEscaped(c: char)
    ensures var head: string := if c == '\\' then "\\\\" else [c];
      Replaced(Replaced(head, '`', "\\`"), '$', "\\$") == TemplateEscape(c)
  {
    if c == '`' {
      assert [c][1..] == [] && Replaced([c], '`', "\\`") == "\\`" + Replaced([], '`', "\\`");
      ReplacedNone("\\`", '$', "\\$");
    } else if c == '$' {
      ReplacedNone([c], '`', "\\`");
      assert [c][1..] == [] && Replaced([c], '$', "\\$") == "\\$" + Replaced([], '$', "\\$");
    } else {
      var head: string := if c == '\\' then "\\\\" else [c];
      ReplacedNone(head, '`', "\\`");
      ReplacedNone(head, '$', "\\$");
    }
  }

  // ----- reading -----

  /** What is read up to the closing delimiter or the first interpolation, and the text from there. */
  datatype Reading = Reading(text: string, rest: string)

  function HexOf(c: char): Option<nat> {
    if '0' <= c <= '9' then Some(c as int - '0' as int)
    else if 'A' <= c <= 'F' then Some(c as int - 'A' as int + 10)
    else if 'a' <= c <= 'f' then Some(c as int - 'a' as int + 10)
    else None
  }

  predicate IsCodePoint(n: nat) {
    n < 0xD800 || 0xE000 <= n < 0x11_0000
  }

  /** `digits` as one hexadecimal number, after `value`. */
  function HexNumber(digits: string, value: nat): Option<nat>
    decreases |digits|
  {
    if digits == [] then Some(value)
    else
      var d := HexOf(digits[0]);
      if d.None? then None else HexNumber(digits[1..], value * 16 + d.value)
  }

  function CharOf(n: Option<nat>): Option<char> {
    if n.Some? && IsCodePoint(n.value) then Some(n.value as char) else None
  }

  /** The hexadecimal number up to the next brace, and how much of `text` it takes with the brace. */
  function Braced(text: string, value: nat, taken: nat): (r: Option<(nat, nat)>)
    ensures r.Some? ==> taken < r.value.1 <= taken + |text|
    decreases |text|
  {
    if text == [] then None
    else if text[0] == '}' then Some((value, taken + 1))
    else
      var d := HexOf(text[0]);
      if d.None? then None else Braced(text[1..], value * 16 + d.value, taken + 1)
  }

  datatype Escapee = Escapee(c: char, taken: nat)

  function Lettered(letter: char, style: Style): Option<char> {
    match letter
    case 'n' => Some(Lf)
    case 'r' => Some(Cr)
    case 't' => Some(Tab)
    case 'b' => if style.SwiftString? then None else Some(8 as char)
    case 'f' => if style.SwiftString? then None else Some(12 as char)
    case 'v' => if style.SwiftString? then None else Some(11 as char)
    case '0' => if style.DartString? then Some('0') else Some(0 as char)
    case _ => if style.SwiftString? && letter != '\\' && letter != '"' && letter != '\'' then None else Some(letter)
  }

  /** What the escape at the head of `text` stands for, past its backslash. */
  function Unescaped(style: Style, text: string): (r: Option<Escapee>)
    ensures r.Some? ==> 0 < r.value.taken <= |text|
  {
    if text == [] then None
    else if text[0] == 'u' then
      if |text| > 1 && text[1] == '{' then
        var braced := Braced(text[2..], 0, 2);
        if braced.None? then None
        else
          var c := CharOf(Some(braced.value.0));
          if c.None? then None else Some(Escapee(c.value, braced.value.1))
      else if style.SwiftString? || |text| < 5 then None
      else
        var c := CharOf(HexNumber(text[1..5], 0));
        if c.None? then None else Some(Escapee(c.value, 5))
    else if text[0] == 'x' && !style.SwiftString? then
      if |text| < 3 then None
      else
        var c := CharOf(HexNumber(text[1..3], 0));
        if c.None? then None else Some(Escapee(c.value, 3))
    else if text[0] == Lf || text[0] == Cr || '1' <= text[0] <= '9' then None
    else
      var c := Lettered(text[0], style);
      if c.None? then None else Some(Escapee(c.value, 1))
  }

  /** `text` begins with what ends the literal or interpolates a value into it. */
  predicate Stops(style: Style, text: string)
    requires text != []
  {
    match style
    case JsString => text[0] == '"'
    case JsTemplate => text[0] == '`' || "${" <= text
    case DartString(quote) => text[0] == quote || text[0] == '$'
    case SwiftString => text[0] == '"' || "\\(" <= text
  }

  predicate EndsLine(style: Style, c: char) {
    !style.JsTemplate? && (c == Lf || c == Cr)
  }

  function Led(c: char, reading: Option<Reading>): Option<Reading> {
    if reading.None? then None else Some(Reading([c] + reading.value.text, reading.value.rest))
  }

  /** The text of a literal of `style`, from inside its opening delimiter on. A template reads a carriage
      return, with the line feed after it, as a line feed. */
  function Read(style: Style, text: string): Option<Reading>
    decreases |text|
  {
    if text == [] then None
    else if Stops(style, text) then Some(Reading("", text))
    else if text[0] == '\\' then
      var escapee := Unescaped(style, text[1..]);
      if escapee.None? then None else Led(escapee.value.c, Read(style, text[1 + escapee.value.taken..]))
    else if EndsLine(style, text[0]) then None
    else if text[0] == Cr then Led(Lf, Read(style, text[if |text| > 1 && text[1] == Lf then 2 else 1..]))
    else Led(text[0], Read(style, text[1..]))
  }

  function LedBy(text: string, reading: Option<Reading>): Option<Reading> {
    if reading.None? then None else Some(Reading(text + reading.value.text, reading.value.rest))
  }

  lemma HexReads(d: nat)
    requires d < 16
    ensures HexOf(Hex(d)) == Some(d)
  {
  }

  lemma FourHexRead(a: char, b: char, n: nat)
    requires n < 256 && a == Hex(n / 16) && b == Hex(n % 16)
    ensures HexNumber(['0', '0', a, b], 0) == Some(n)
  {
    HexReads(n / 16);
    HexReads(n % 16);
    assert ['0', '0', a, b][1..] == ['0', a, b] && ['0', a, b][1..] == [a, b] && [a, b][1..] == [b] && [b][1..] == [];
    assert HexNumber([b], n / 16) == HexNumber([], n / 16 * 16 + n % 16);
    assert HexNumber([a, b], 0) == HexNumber([b], n / 16);
    assert HexNumber(['0', a, b], 0) == HexNumber([a, b], 0);
  }

  lemma SeparatorRead(d: nat)
    requires d == 8 || d == 9
    ensures HexNumber(['2', '0', '2', Hex(d)], 0) == Some(0x2020 + d)
  {
    var last := Hex(d);
    HexReads(d);
    assert ['2', '0', '2', last][1..] == ['0', '2', last] && ['0', '2', last][1..] == ['2', last]
      && ['2', last][1..] == [last] && [last][1..] == [];
    assert HexNumber([last], 0x202) == HexNumber([], 0x202 * 16 + d);
    assert HexNumber(['2', last], 0x20) == HexNumber([last], 0x202);
    assert HexNumber(['0', '2', last], 2) == HexNumber(['2', last], 0x20);
  }

  lemma UnicodeEscapeReads(style: Style, digits: string, more: string, n: nat)
    requires !style.SwiftString? && |digits| == 4 && digits[0] != '{' && HexNumber(digits, 0) == Some(n)
      && IsCodePoint(n)
    ensures Unescaped(style, ['u'] + digits + more) == Some(Escapee(n as char, 5))
  {
    var text := ['u'] + digits + more;
    assert text[1..5] == digits && text[1] == digits[0];
  }

  lemma BracedReads(n: nat, more: string)
    requires n < 256
    ensures var digits: string := if n < 16 then [Hex(n)] else [Hex(n / 16), Hex(n % 16)];
      Braced(digits + ['}'] + more, 0, 2) == Some((n, |digits| + 3))
  {
    HexReads(n / 16);
    HexReads(n % 16);
    if n < 16 {
      var text := [Hex(n)] + ['}'] + more;
      assert text[1..] == ['}'] + more;
      assert Braced(text[1..], n, 3) == Some((n, 4));
    } else {
      var text := [Hex(n / 16), Hex(n % 16)] + ['}'] + more;
      assert text[1..] == [Hex(n % 16)] + ['}'] + more && text[1..][1..] == ['}'] + more;
      assert Braced(text[1..][1..], n / 16 * 16 + n % 16, 4) == Some((n, 5));
      assert Braced(text[1..], n / 16, 3) == Braced(text[1..][1..], n / 16 * 16 + n % 16, 4);
    }
  }

  lemma EscapeReads(style: Style, escape: string, c: char, more: string)
    requires |escape| > 1 && escape[0] == '\\' && !Stops(style, escape)
    requires escape[1] != '('
    requires Unescaped(style, escape[1..] + more) == Some(Escapee(c, |escape| - 1))
    ensures Read(style, escape + more) == Led(c, Read(style, more))
  {
    var text := escape + more;
    assert text[1..] == escape[1..] + more && text[0] == '\\' && text[1] == escape[1];
    assert text[1 + (|escape| - 1)..] == more;
    assert !Stops(style, text);
  }

  /** Each character written for `style` is read back, whatever follows it. */
  lemma CharReads(style: Style, c: char, more: string)
    requires IsStyle(style) && !(style.JsTemplate? && c == Cr)
    ensures Read(style, Escape(style, c) + more) == Led(c, Read(style, more))
  {
    var escape := Escape(style, c);
    if escape == [c] {
      PlainReads(style, c, more);
    } else if |escape| == 2 {
      assert escape[1..] + more == [escape[1]] + more;
      assert Unescaped(style, [escape[1]] + more) == Some(Escapee(c, 1));
      EscapeReads(style, escape, c, more);
    } else {
      LongEscapeReads(style, c, more);
    }
  }

  lemma PlainReads(style: Style, c: char, more: string)
    requires IsStyle(style) && !(style.JsTemplate? && c == Cr) && Escape(style, c) == [c]
    ensures Read(style, [c] + more) == Led(c, Read(style, more))
  {
    var text := [c] + more;
    assert text[0] == c && text[1..] == more;
    assert c != '\\';
    assert !Stops(style, text) by {
      assert "${"[0] == '$' && "\\("[0] == '\\';
    }
  }

  lemma LongEscapeReads(style: Style, c: char, more: string)
    requires IsStyle(style) && |Escape(style, c)| > 2
    ensures Read(style, Escape(style, c) + more) == Led(c, Read(style, more))
  {
    if style.JsString? {
      UnicodeEscapedReads(style, c, more);
    } else {
      BracedEscapeReads(style, c, more);
    }
  }

  lemma UnicodeEscapedReads(style: Style, c: char, more: string)
    requires style.JsString? && IsStyle(style) && |Escape(style, c)| > 2
    ensures Read(style, Escape(style, c) + more) == Led(c, Read(style, more))
  {
    var escape, n := Escape(style, c), c as int;
    var digits := escape[2..];
    if c == LineSeparator {
      SeparatorRead(8);
      assert digits == ['2', '0', '2', '8'];
    } else if c == ParagraphSeparator {
      SeparatorRead(9);
      assert digits == ['2', '0', '2', '9'];
    } else {
      assert digits == ['0', '0', Hex(n / 16), Hex(n % 16)];
      FourHexRead(Hex(n / 16), Hex(n % 16), n);
    }
    UnicodeEscapeReads(style, digits, more, n);
    assert escape[1..] + more == ['u'] + digits + more;
    EscapeReads(style, escape, c, more);
  }

  lemma BracedEscapeReads(style: Style, c: char, more: string)
    requires !style.JsString? && IsStyle(style) && |Escape(style, c)| > 2
    ensures Read(style, Escape(style, c) + more) == Led(c, Read(style, more))
  {
    var escape, n := Escape(style, c), c as int;
    BracedReads(n, more);
    var digits: string := if n < 16 then [Hex(n)] else [Hex(n / 16), Hex(n % 16)];
    var text := escape[1..] + more;
    assert text[2..] == digits + ['}'] + more && text[0] == 'u' && text[1] == '{';
    EscapeReads(style, escape, c, more);
  }

  lemma LedOneMore(text: string, reading: Option<Reading>)
    requires text != []
    ensures Led(text[0], LedBy(text[1..], reading)) == LedBy(text, reading)
  {
    if reading.Some? {
      assert [text[0]] + (text[1..] + reading.value.text) == text + reading.value.text;
    }
  }

  /** Text written for `style` is read back exactly, and the reading goes on with what follows it: all
      text in the three string styles, and text with no carriage return in a template. */
  lemma {:induction false} EscapedIsRead(style: Style, text: string, more: string)
    requires IsStyle(style) && (style.JsTemplate? ==> Cr !in text)
    ensures Read(style, Escaped(style, text) + more) == LedBy(text, Read(style, more))
  {
    if text == [] {
      assert Escaped(style, text) + more == more;
      var reading := Read(style, more);
      assert reading.Some? ==> "" + reading.value.text == reading.value.text;
    } else {
      EscapedIsRead(style, text[1..], more);
      Moved(Escape(style, text[0]), Escaped(style, text[1..]), more);
      CharReads(style, text[0], Escaped(style, text[1..]) + more);
      LedOneMore(text, Read(style, more));
    }
  }

  lemma {:induction false} TemplateReadsNoReturn(text: string)
    ensures var reading := Read(JsTemplate, Escaped(JsTemplate, text) + "`");
      reading.Some? && Cr !in reading.value.text
    decreases |text|
  {
    var written := Escaped(JsTemplate, text) + "`";
    if text == [] {
      assert written == "`";
    } else {
      var rest := Escaped(JsTemplate, text[1..]) + "`";
      Moved(Escape(JsTemplate, text[0]), Escaped(JsTemplate, text[1..]), "`");
      TemplateReadsNoReturn(text[1..]);
      if text[0] == Cr {
        assert written == [Cr] + rest && written[1..] == rest;
        if |rest| > 0 && rest[0] == Lf {
          assert text[1..] != [] && text[1] == Lf;
          TemplateReadsNoReturn(text[2..]);
          assert text[1..][1..] == text[2..];
          assert rest == [Lf] + (Escaped(JsTemplate, text[2..]) + "`");
          assert written[2..] == rest[1..] == Escaped(JsTemplate, text[2..]) + "`";
        }
      } else {
        CharReads(JsTemplate, text[0], rest);
      }
    }
  }

  /** A template gives back the text put in it where that holds no carriage return, and only there. */
  lemma TemplateIsExact(text: string)
    ensures Read(JsTemplate, JsTemplateText(text) + "`") == Some(Reading(text, "`")) <==> Cr !in text
  {
    ThreeReplacesEscapeOnce(text);
    if Cr !in text {
      EscapedIsRead(JsTemplate, text, "`");
      assert text + "" == text;
    } else {
      TemplateReadsNoReturn(text);
    }
  }
}
