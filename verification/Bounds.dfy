/** The sentence one violated bound is reported in, and the literal each emitter writes it as. */
module Bounds {
  import opened Wrappers
  import opened Texts
  import opened Sentences

  /** A bound at the value it was written with. A number's text is its digits, its sign, its point and
      its exponent. */
  datatype Bound =
    | LiteralBool(truth: bool)
    | LiteralNumber(digits: string)
    | LiteralText(text: string)
    | MaxItems(count: string)
    | MaxLength(count: string)
    | Maximum(limit: string)
    | MinItems(count: string)
    | MinLength(count: string)
    | Minimum(limit: string)
    | Pattern(pattern: string)

  datatype Observed = Count | Length | Value

  predicate IsNumberText(text: string) {
    forall i :: 0 <= i < |text| ==>
      '0' <= text[i] <= '9' || 'a' <= text[i] <= 'z' || 'A' <= text[i] <= 'Z' || text[i] in "+-."
  }

  predicate IsWritten(bound: Bound) {
    match bound
    case LiteralNumber(digits) => IsNumberText(digits)
    case MaxItems(count) => IsNumberText(count)
    case MaxLength(count) => IsNumberText(count)
    case MinItems(count) => IsNumberText(count)
    case MinLength(count) => IsNumberText(count)
    case Maximum(limit) => IsNumberText(limit)
    case Minimum(limit) => IsNumberText(limit)
    case _ => true
  }

  /** What the sentence quotes back, if anything. */
  function ObservedBy(bound: Bound): Option<Observed> {
    match bound
    case MaxItems(_) => Some(Count)
    case MinItems(_) => Some(Count)
    case MaxLength(_) => Some(Length)
    case MinLength(_) => Some(Length)
    case Pattern(_) => None
    case _ => Some(Value)
  }

  function Stem(bound: Bound): string {
    match bound
    case LiteralBool(_) => "not the literal "
    case LiteralNumber(_) => "not the literal "
    case LiteralText(_) => "not the literal "
    case MaxItems(_) => "too long: maximum length is "
    case MaxLength(_) => "too long: maximum length is "
    case Maximum(_) => "too large: maximum is "
    case MinItems(_) => "too short: minimum length is "
    case MinLength(_) => "too short: minimum length is "
    case Minimum(_) => "too small: minimum is "
    case Pattern(_) => "does not match pattern '"
  }

  function Tail(bound: Bound): string {
    match bound
    case LiteralBool(truth) => if truth then "true" else "false"
    case LiteralNumber(digits) => digits
    case LiteralText(text) => "\"" + Escaped(JsString, text) + "\""
    case MaxItems(count) => count
    case MaxLength(count) => count
    case Maximum(limit) => limit
    case MinItems(count) => count
    case MinLength(count) => count
    case Minimum(limit) => limit
    case Pattern(pattern) => pattern + "'"
  }

  function Stated(bound: Bound): string {
    Stem(bound) + Tail(bound)
  }

  function Got(bound: Bound): string {
    if ObservedBy(bound).Some? then ", got " else ""
  }

  function Lead(place: Option<string>): string {
    if place.Some? then "'" + place.value + "': " else ""
  }

  /** The sentence Rust reports, up to the value it quotes back. */
  function Sentence(bound: Bound, place: Option<string>): string {
    Lead(place) + Stated(bound) + Got(bound)
  }

  // ----- what a sentence says of a bound -----

  /** What is measured breaks the bound at `limit`: it is more, or less. */
  predicate Breaks(bound: Bound, limit: int, measured: int) {
    match bound
    case MaxItems(_) => measured > limit
    case MaxLength(_) => measured > limit
    case Maximum(_) => measured > limit
    case MinItems(_) => measured < limit
    case MinLength(_) => measured < limit
    case Minimum(_) => measured < limit
    case _ => false
  }

  /** Items and characters are counted; a number is not. */
  predicate IsCounted(bound: Bound) {
    bound.MaxItems? || bound.MinItems? || bound.MaxLength? || bound.MinLength?
  }

  /** A sentence says too long or too large of what is more than its bound, and too short or too small
      of what is less: of a count by its length, and of a number by itself. */
  lemma StemSaysHow(bound: Bound, limit: int, measured: int)
    requires Breaks(bound, limit, measured)
    ensures measured > limit && IsCounted(bound) ==> Stem(bound) == "too long: maximum length is "
    ensures measured < limit && IsCounted(bound) ==> Stem(bound) == "too short: minimum length is "
    ensures measured > limit && !IsCounted(bound) ==> Stem(bound) == "too large: maximum is "
    ensures measured < limit && !IsCounted(bound) ==> Stem(bound) == "too small: minimum is "
    ensures ObservedBy(bound) == Some(
      if !IsCounted(bound) then Value else if bound.MaxLength? || bound.MinLength? then Length else Count)
  {
  }

  /** A literal is told as it is written: a truth by its name, a number by its digits, and a text between
      quotes that read as it. */
  lemma LiteralIsTold(bound: Bound, rest: string)
    ensures bound == LiteralBool(true) ==> Stated(bound) == "not the literal " + "true"
    ensures bound == LiteralBool(false) ==> Stated(bound) == "not the literal " + "false"
    ensures bound.LiteralNumber? ==> Stated(bound) == "not the literal " + bound.digits
    ensures bound.LiteralText? ==> Stated(bound) == "not the literal " + ("\"" + Escaped(JsString, bound.text) + "\"")
    ensures bound.LiteralText? ==>
      Read(JsString, Escaped(JsString, bound.text) + ("\"" + rest)) == Some(Reading(bound.text, "\"" + rest))
  {
    if bound.LiteralText? {
      EscapedIsRead(JsString, bound.text, "\"" + rest);
      assert bound.text + "" == bound.text;
    }
  }

  // ----- the literals, from inside their opening delimiter on -----

  function ZodStyle(bound: Bound): Style {
    if ObservedBy(bound).Some? then JsTemplate else JsString
  }

  function ZodHole(observed: Observed): string {
    match observed
    case Count => "${" + "Array.isArray(issue.input) ? issue.input.length : 0}`"
    case Length => "${" + "String(issue.input).length}`"
    case Value => "${" + "String(issue.input)}`"
  }

  /** What stands between the opening delimiter of a Zod check's sentence and the end of its literal. */
  function ZodLiteral(bound: Bound): string {
    var observed := ObservedBy(bound);
    if observed.Some? then JsTemplateText(Stated(bound)) + (", got " + ZodHole(observed.value))
    else Escaped(JsString, Stated(bound)) + "\""
  }

  /** `place` is the text the sentence opens with between its quotes, as a Dart string holds it. */
  function DartLiteral(bound: Bound, place: Option<string>, observed: string): string {
    Lead(place) + (Escaped(DartString('"'), Stated(bound)) + if ObservedBy(bound).Some?
      then ", got " + ("${" + observed + "}\"") else "\"")
  }

  function SwiftLiteral(bound: Bound, place: Option<string>, observed: string): string {
    Lead(if place.Some? then Some(Escaped(SwiftString, place.value)) else None)
    + (Escaped(SwiftString, Stated(bound)) + if ObservedBy(bound).Some? then ", got " + ("\\(" + observed + ")\"")
      else "\"")
  }

  // ----- one sentence -----

  /** Nothing of `text` is escaped for `style`. */
  predicate IsPlain(style: Style, text: string) {
    forall i :: 0 <= i < |text| ==> Escape(style, text[i]) == [text[i]]
  }

  lemma {:induction false} PlainIsEscaped(style: Style, text: string)
    requires IsPlain(style, text)
    ensures Escaped(style, text) == text
  {
    if text != [] {
      PlainIsEscaped(style, text[1..]);
    }
  }

  lemma GotIsPlain(style: Style)
    requires IsStyle(style)
    ensures IsPlain(style, ", got ") && Cr !in ", got "
  {
  }

  lemma {:induction false} EscapedHoldsNoReturn(text: string)
    ensures Cr !in Escaped(JsString, text)
  {
    if text != [] {
      EscapedHoldsNoReturn(text[1..]);
      CharHoldsNoReturn(text[0]);
    }
  }

  lemma CharHoldsNoReturn(c: char)
    ensures Cr !in JsEscape(c)
  {
  }

  lemma StemsHoldNoReturn(bound: Bound)
    ensures Cr !in Stem(bound)
  {
  }

  /** No sentence that goes into a template holds a carriage return, a string literal's escaped. */
  lemma ObservedHoldsNoReturn(bound: Bound)
    requires IsWritten(bound) && ObservedBy(bound).Some?
    ensures Cr !in Stated(bound)
  {
    StemsHoldNoReturn(bound);
    match bound
    case LiteralText(text) => EscapedHoldsNoReturn(text);
    case LiteralBool(_) =>
    case LiteralNumber(digits) => NumberHoldsNoReturn(digits);
    case MaxItems(count) => NumberHoldsNoReturn(count);
    case MaxLength(count) => NumberHoldsNoReturn(count);
    case MinItems(count) => NumberHoldsNoReturn(count);
    case MinLength(count) => NumberHoldsNoReturn(count);
    case Maximum(limit) => NumberHoldsNoReturn(limit);
    case Minimum(limit) => NumberHoldsNoReturn(limit);
  }

  lemma NumberHoldsNoReturn(text: string)
    requires IsNumberText(text)
    ensures Cr !in text
  {
    assert Cr !in "+-.";
  }

  /** A sentence and `more`, which ends the literal or interpolates a value, read as the sentence. */
  lemma StatedIsRead(style: Style, lead: string, stated: string, got: string, more: string)
    requires IsStyle(style) && (style.JsTemplate? ==> Cr !in lead + stated + got)
    requires IsPlain(style, got) && more != [] && Stops(style, more)
    ensures Read(style, Escaped(style, lead) + (Escaped(style, stated) + (got + more)))
      == Some(Reading(lead + stated + got, more))
  {
    PlainIsEscaped(style, got);
    assert Read(style, more) == Some(Reading("", more));
    PieceIsRead(style, got, more, "", more);
    PieceIsRead(style, stated, got + more, got, more);
    PieceIsRead(style, lead, Escaped(style, stated) + (got + more), stated + got, more);
    Moved(lead, stated, got);
  }

  lemma PieceIsRead(style: Style, piece: string, after: string, read: string, rest: string)
    requires IsStyle(style) && (style.JsTemplate? ==> Cr !in piece)
    requires Read(style, after) == Some(Reading(read, rest))
    ensures Read(style, Escaped(style, piece) + after) == Some(Reading(piece + read, rest))
    ensures piece + "" == piece
  {
    EscapedIsRead(style, piece, after);
  }

  lemma ZodReadsTheSentence(bound: Bound)
    requires IsWritten(bound)
    ensures var rest := if ObservedBy(bound).Some? then ZodHole(ObservedBy(bound).value) else "\"";
      Read(ZodStyle(bound), ZodLiteral(bound)) == Some(Reading(Sentence(bound, None), rest))
  {
    var observed, stated := ObservedBy(bound), Stated(bound);
    if observed.Some? {
      ThreeReplacesEscapeOnce(stated);
      ObservedHoldsNoReturn(bound);
      GotIsPlain(JsTemplate);
      HoleStops(observed.value);
      StatedIsRead(JsTemplate, "", stated, ", got ", ZodHole(observed.value));
      assert "" + (Escaped(JsTemplate, stated) + (", got " + ZodHole(observed.value))) == ZodLiteral(bound);
    } else {
      StatedIsRead(JsString, "", stated, "", "\"");
      assert "" + (Escaped(JsString, stated) + ("" + "\"")) == ZodLiteral(bound);
    }
  }

  lemma HoleStops(observed: Observed)
    ensures ZodHole(observed) != [] && Stops(JsTemplate, ZodHole(observed))
  {
    var hole := ZodHole(observed);
    assert hole[..2] == "${";
  }

  lemma BetweenPlain(style: Style, open: string, text: string, close: string)
    requires IsPlain(style, open) && IsPlain(style, close)
    ensures Escaped(style, open + text + close) == open + Escaped(style, text) + close
  {
    EscapedBoth(style, open + text, close);
    EscapedBoth(style, open, text);
    PlainIsEscaped(style, open);
    PlainIsEscaped(style, close);
  }

  lemma QuotesArePlain(style: Style)
    requires style == DartString('"') || style == SwiftString
    ensures IsPlain(style, "'") && IsPlain(style, "': ")
  {
  }

  lemma LeadIsPlain(style: Style, place: string)
    requires style == DartString('"') || style == SwiftString
    ensures Escaped(style, "'" + place + "': ") == "'" + Escaped(style, place) + "': "
  {
    QuotesArePlain(style);
    BetweenPlain(style, "'", place, "': ");
  }

  /** `place` as the emitter hands it to a Dart literal. */
  function DartPlace(place: Option<string>): Option<string> {
    if place.Some? then Some(Escaped(DartString('"'), place.value)) else None
  }

  lemma DartReadsTheSentence(bound: Bound, place: Option<string>, observed: string)
    ensures var rest := if ObservedBy(bound).Some? then "${" + observed + "}\"" else "\"";
      Read(DartString('"'), DartLiteral(bound, DartPlace(place), observed))
        == Some(Reading(Sentence(bound, place), rest))
  {
    var style := DartString('"');
    var rest := if ObservedBy(bound).Some? then "${" + observed + "}\"" else "\"";
    if place.Some? {
      LeadIsPlain(style, place.value);
    }
    GotIsPlain(style);
    assert rest[0] == if ObservedBy(bound).Some? then '$' else '"';
    StatedIsRead(style, Lead(place), Stated(bound), Got(bound), rest);
    assert Got(bound) == "" ==> Got(bound) + rest == rest;
  }

  lemma SwiftReadsTheSentence(bound: Bound, place: Option<string>, observed: string)
    ensures var rest := if ObservedBy(bound).Some? then "\\(" + observed + ")\"" else "\"";
      Read(SwiftString, SwiftLiteral(bound, place, observed)) == Some(Reading(Sentence(bound, place), rest))
  {
    var rest := if ObservedBy(bound).Some? then "\\(" + observed + ")\"" else "\"";
    if place.Some? {
      LeadIsPlain(SwiftString, place.value);
    }
    GotIsPlain(SwiftString);
    assert ObservedBy(bound).Some? ==> rest[..2] == "\\(";
    StatedIsRead(SwiftString, Lead(place), Stated(bound), Got(bound), rest);
    assert Got(bound) == "" ==> Got(bound) + rest == rest;
  }

  /** Zod, Dart and Swift read one sentence for a bound, Rust's own, up to where each quotes the value
      back: whatever text a pattern, a string literal or a place was written with. */
  lemma OneSentence(bound: Bound, place: Option<string>, dartObserved: string, swiftObserved: string)
    requires IsWritten(bound)
    ensures var zod := Read(ZodStyle(bound), ZodLiteral(bound));
      var dart := Read(DartString('"'), DartLiteral(bound, DartPlace(place), dartObserved));
      var swift := Read(SwiftString, SwiftLiteral(bound, place, swiftObserved));
      && zod.Some? && zod.value.text == Sentence(bound, None)
      && dart.Some? && dart.value.text == Sentence(bound, place)
      && swift.Some? && swift.value.text == Sentence(bound, place)
  {
    ZodReadsTheSentence(bound);
    DartReadsTheSentence(bound, place, dartObserved);
    SwiftReadsTheSentence(bound, place, swiftObserved);
  }
}
