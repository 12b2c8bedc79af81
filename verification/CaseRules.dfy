/** serde's casing rules, for struct fields and for enum variants, and the separately written loop that
    names modules. On the names a variant may have, the field rules undo the variant rules. The variant
    rule parts words at every capital letter, `capital` saying which characters are capitals; all other
    casing is of ASCII letters alone. */
module CaseRules {
  import opened Texts

  predicate IsUpper(c: char) { 'A' <= c <= 'Z' }
  predicate IsLower(c: char) { 'a' <= c <= 'z' }
  predicate IsLetter(c: char) { IsUpper(c) || IsLower(c) }

  function Upper(c: char): char {
    if IsLower(c) then (c as int - 32) as char else c
  }

  function Lower(c: char): char {
    if IsUpper(c) then (c as int + 32) as char else c
  }

  function Mapped(text: string, f: char -> char): string {
    if text == [] then [] else [f(text[0])] + Mapped(text[1..], f)
  }

  function Dashed(c: char): char {
    if c == '_' then '-' else c
  }

  /** Among ASCII characters the capitals are the letters from `A` to `Z`. */
  ghost predicate IsCapital(capital: char -> bool) {
    forall c: char :: c as int < 128 ==> (capital(c) <==> IsUpper(c))
  }

  // ----- the loops -----

  /** `field` from where `capitalize` says whether a capital is due. */
  function Pascal(field: string, capitalize: bool): string {
    if field == [] then []
    else if field[0] == '_' then Pascal(field[1..], true)
    else [if capitalize then Upper(field[0]) else field[0]] + Pascal(field[1..], false)
  }

  method FieldToPascal(field: string) returns (pascal: string)
    ensures pascal == Pascal(field, true)
  {
    pascal := "";
    var capitalize := true;
    for i := 0 to |field|
      invariant pascal + Pascal(field[i..], capitalize) == Pascal(field, true)
    {
      var ch := field[i];
      PascalFrom(field, i, capitalize);
      ghost var rest := Pascal(field[i + 1..], false);
      Moved(pascal, [if capitalize then Upper(ch) else ch], rest);
      if ch == '_' {
        capitalize := true;
      } else if capitalize {
        pascal := pascal + [Upper(ch)];
        capitalize := false;
      } else {
        pascal := pascal + [ch];
      }
    }
  }

  lemma PascalFrom(field: string, at: nat, capitalize: bool)
    requires at < |field|
    ensures Pascal(field[at..], capitalize)
         == if field[at] == '_' then Pascal(field[at + 1..], true)
            else [if capitalize then Upper(field[at]) else field[at]] + Pascal(field[at + 1..], false)
  {
    assert field[at..][0] == field[at] && field[at..][1..] == field[at + 1..];
  }

  /** `variant` from a place that is the first, or not: a capital past the first opens a word. */
  function Snake(variant: string, first: bool, capital: char -> bool): string {
    if variant == [] then []
    else
      (if !first && capital(variant[0]) then "_" else "")
      + ([Lower(variant[0])] + Snake(variant[1..], false, capital))
  }

  method VariantToSnake(variant: string, capital: char -> bool) returns (snake: string)
    ensures snake == Snake(variant, true, capital)
  {
    snake := "";
    for i := 0 to |variant|
      invariant snake + Snake(variant[i..], i == 0, capital) == Snake(variant, true, capital)
    {
      var ch := variant[i];
      SnakeFrom(variant, i, capital);
      ghost var lead, rest := if i > 0 && capital(ch) then "_" else "", Snake(variant[i + 1..], false, capital);
      Moved(snake, lead, [Lower(ch)] + rest);
      Moved(snake + lead, [Lower(ch)], rest);
      if i > 0 && capital(ch) {
        snake := snake + "_";
      }
      snake := snake + [Lower(ch)];
    }
  }

  lemma SnakeFrom(variant: string, at: nat, capital: char -> bool)
    requires at < |variant|
    ensures Snake(variant[at..], at == 0, capital)
         == (if at > 0 && capital(variant[at]) then "_" else "")
           + ([Lower(variant[at])] + Snake(variant[at + 1..], false, capital))
  {
    assert variant[at..][0] == variant[at] && variant[at..][1..] == variant[at + 1..];
  }

  /** `name` from a place after a letter, or not: a capital opens a word only after a letter. */
  function Module(name: string, afterLetter: bool): string {
    if name == [] then []
    else
      (if afterLetter && IsUpper(name[0]) then "_" else "")
      + ([Lower(name[0])] + Module(name[1..], IsLetter(name[0])))
  }

  method ToSnakeCase(name: string) returns (result: string)
    ensures result == Module(name, false)
  {
    result := "";
    var prevLower := false;
    for i := 0 to |name|
      invariant result + Module(name[i..], prevLower) == Module(name, false)
    {
      var ch := name[i];
      ModuleFrom(name, i, prevLower);
      ghost var lead, rest := if prevLower && IsUpper(ch) then "_" else "", Module(name[i + 1..], IsLetter(ch));
      Moved(result, lead, [Lower(ch)] + rest);
      Moved(result + lead, [Lower(ch)], rest);
      if IsUpper(ch) {
        if prevLower {
          result := result + "_";
        }
        result := result + [Lower(ch)];
        prevLower := true;
      } else {
        result := result + [ch];
        prevLower := IsLower(ch);
      }
    }
  }

  lemma ModuleFrom(name: string, at: nat, afterLetter: bool)
    requires at < |name|
    ensures Module(name[at..], afterLetter)
         == (if afterLetter && IsUpper(name[at]) then "_" else "")
           + ([Lower(name[at])] + Module(name[at + 1..], IsLetter(name[at])))
  {
    assert name[at..][0] == name[at] && name[at..][1..] == name[at + 1..];
  }

  function LowerFirst(name: string): string {
    if name == [] then [] else [Lower(name[0])] + name[1..]
  }

  datatype RenameRule =
    | CamelCase | KebabCase | LowerCase | NoRule | PascalCase
    | ScreamingKebabCase | ScreamingSnakeCase | SnakeCase | UpperCase

  function ApplyToField(rule: RenameRule, field: string): string {
    match rule
    case NoRule => field
    case LowerCase => field
    case SnakeCase => field
    case UpperCase => Mapped(field, Upper)
    case ScreamingSnakeCase => Mapped(field, Upper)
    case PascalCase => Pascal(field, true)
    case CamelCase => LowerFirst(Pascal(field, true))
    case KebabCase => Mapped(field, Dashed)
    case ScreamingKebabCase => Mapped(Mapped(field, Upper), Dashed)
  }

  function ApplyToVariant(rule: RenameRule, variant: string, capital: char -> bool): string {
    match rule
    case NoRule => variant
    case PascalCase => variant
    case LowerCase => Mapped(variant, Lower)
    case UpperCase => Mapped(variant, Upper)
    case CamelCase => LowerFirst(variant)
    case SnakeCase => Snake(variant, true, capital)
    case ScreamingSnakeCase => Mapped(Snake(variant, true, capital), Upper)
    case KebabCase => Mapped(Snake(variant, true, capital), Dashed)
    case ScreamingKebabCase => Mapped(Mapped(Snake(variant, true, capital), Upper), Dashed)
  }

  // ----- the field rules undo the variant rules -----

  /** Past its first character, a name without an underscore is made again from its words whatever it is. */
  lemma {:induction false} RestIsMadeAgain(rest: string, capital: char -> bool)
    requires '_' !in rest && IsCapital(capital)
    ensures Pascal(Snake(rest, false, capital), false) == rest
  {
    if rest != [] {
      RestIsMadeAgain(rest[1..], capital);
      var words := Snake(rest[1..], false, capital);
      var text := (if capital(rest[0]) then "_" else "") + ([Lower(rest[0])] + words);
      assert rest[0] in rest && Snake(rest, false, capital) == text;
      if capital(rest[0]) {
        assert text[1..] == [Lower(rest[0])] + words && text[1..][1..] == words;
      } else {
        assert text == [rest[0]] + words && text[1..] == words;
      }
    }
  }

  lemma {:induction false} NoUnderscoreIsLeft(field: string, capitalize: bool)
    ensures '_' !in Pascal(field, capitalize)
  {
    if field != [] {
      NoUnderscoreIsLeft(field[1..], field[0] == '_');
    }
  }

  /** A name is made again from its snake form where it holds no underscore and opens with no small
      letter, and only there. */
  lemma PascalUndoesSnake(variant: string, capital: char -> bool)
    requires IsCapital(capital)
    ensures Pascal(Snake(variant, true, capital), true) == variant
       <==> '_' !in variant && (variant == [] || !IsLower(variant[0]))
  {
    NoUnderscoreIsLeft(Snake(variant, true, capital), true);
    if variant != [] && '_' !in variant {
      RestIsMadeAgain(variant[1..], capital);
      FirstIsMadeAgain(Lower(variant[0]), Snake(variant[1..], false, capital));
      SameFirst(Upper(Lower(variant[0])), variant);
    }
  }

  lemma FirstIsMadeAgain(c: char, words: string)
    requires c != '_'
    ensures Pascal("" + ([c] + words), true) == [Upper(c)] + Pascal(words, false)
  {
    var text := [c] + words;
    assert "" + text == text && text[0] == c && text[1..] == words;
  }

  lemma SameFirst(c: char, text: string)
    requires text != []
    ensures [c] + text[1..] == text <==> c == text[0]
  {
    assert ([c] + text[1..])[0] == c;
    assert text == [text[0]] + text[1..];
  }

  /** A name a variant may have, whose rules are read back. */
  predicate IsVariantName(variant: string) {
    '_' !in variant && '-' !in variant && variant != [] && !IsLower(variant[0])
  }

  predicate IsSnake(text: string) {
    forall i :: 0 <= i < |text| ==> !IsUpper(text[i]) && text[i] != '-'
  }

  lemma {:induction false} SnakeIsSnake(variant: string, first: bool, capital: char -> bool)
    requires '-' !in variant
    ensures IsSnake(Snake(variant, first, capital))
  {
    if variant != [] {
      SnakeIsSnake(variant[1..], false, capital);
    }
  }

  function Undashed(c: char): char {
    if c == '-' then '_' else c
  }

  /** What is made of snake text under the screaming and the dashed modes is made back of it. */
  lemma {:induction false} ModesAreUndone(text: string)
    requires IsSnake(text)
    ensures Mapped(Mapped(text, Upper), Lower) == text
    ensures Mapped(Mapped(text, Dashed), Undashed) == text
    ensures Mapped(Mapped(Mapped(Mapped(text, Upper), Dashed), Undashed), Lower) == text
  {
    if text != [] {
      var rest := text[1..];
      ModesAreUndone(rest);
      assert Mapped(text, Upper)[1..] == Mapped(rest, Upper);
      assert Mapped(text, Dashed)[1..] == Mapped(rest, Dashed);
      var screaming := Mapped(Mapped(text, Upper), Dashed);
      assert screaming[1..] == Mapped(Mapped(rest, Upper), Dashed);
      assert Mapped(screaming, Undashed)[1..] == Mapped(Mapped(Mapped(rest, Upper), Dashed), Undashed);
      assert text == [text[0]] + rest;
    }
  }

  predicate IsWordMode(rule: RenameRule) {
    rule.SnakeCase? || rule.ScreamingSnakeCase? || rule.KebabCase? || rule.ScreamingKebabCase?
  }

  /** No two variants are written alike under a mode that parts words. */
  lemma WordModesKeepVariantsApart(rule: RenameRule, one: string, other: string, capital: char -> bool)
    requires IsCapital(capital)
    requires IsWordMode(rule) && IsVariantName(one) && IsVariantName(other)
    requires ApplyToVariant(rule, one, capital) == ApplyToVariant(rule, other, capital)
    ensures one == other
  {
    SnakeIsSnake(one, true, capital);
    SnakeIsSnake(other, true, capital);
    ModesAreUndone(Snake(one, true, capital));
    ModesAreUndone(Snake(other, true, capital));
    PascalUndoesSnake(one, capital);
    PascalUndoesSnake(other, capital);
  }

  /** A variant's name under `rule` is its snake form's under the field rule of that mode. */
  lemma FieldRuleOfTheSnakeForm(rule: RenameRule, variant: string, capital: char -> bool)
    requires IsCapital(capital)
    requires IsVariantName(variant) && (IsWordMode(rule) || rule.CamelCase? || rule.PascalCase?)
    ensures ApplyToVariant(rule, variant, capital) == ApplyToField(rule, Snake(variant, true, capital))
  {
    PascalUndoesSnake(variant, capital);
  }

  // ----- the modes that part no words -----

  /** Character by character, `cased` is `name` with its ASCII letters in one case. */
  ghost predicate IsCased(name: string, cased: string, upper: bool) {
    && |cased| == |name|
    && forall i :: 0 <= i < |name| ==>
         if upper && IsLower(name[i]) then IsUpper(cased[i]) && cased[i] as int + 32 == name[i] as int
         else if !upper && IsUpper(name[i]) then IsLower(cased[i]) && cased[i] as int == name[i] as int + 32
         else cased[i] == name[i]
  }

  lemma {:induction false} MappedIsCased(name: string)
    ensures IsCased(name, Mapped(name, Upper), true) && IsCased(name, Mapped(name, Lower), false)
  {
    if name != [] {
      MappedIsCased(name[1..]);
      var upper, lower := Mapped(name, Upper), Mapped(name, Lower);
      assert upper[1..] == Mapped(name[1..], Upper) && lower[1..] == Mapped(name[1..], Lower);
      forall i | 1 <= i < |name|
        ensures upper[i] == upper[1..][i - 1] && lower[i] == lower[1..][i - 1] && name[i] == name[1..][i - 1]
      {
      }
    }
  }

  /** The modes that part no words write a name in one case, with its first letter small, or as it is. */
  lemma WordlessModes(variant: string, field: string, capital: char -> bool)
    ensures IsCased(variant, ApplyToVariant(LowerCase, variant, capital), false)
    ensures IsCased(variant, ApplyToVariant(UpperCase, variant, capital), true)
    ensures IsCased(field, ApplyToField(UpperCase, field), true)
    ensures IsCased(field, ApplyToField(ScreamingSnakeCase, field), true)
    ensures ApplyToVariant(PascalCase, variant, capital) == ApplyToVariant(NoRule, variant, capital) == variant
    ensures ApplyToField(LowerCase, field) == ApplyToField(SnakeCase, field) == ApplyToField(NoRule, field) == field
    ensures variant != [] ==> ApplyToVariant(CamelCase, variant, capital)[1..] == variant[1..]
    ensures variant != [] ==> IsCased(variant[..1], ApplyToVariant(CamelCase, variant, capital)[..1], false)
  {
    MappedIsCased(variant);
    MappedIsCased(field);
  }

  // ----- the two snake loops -----

  lemma SameAfter(piece: string, one: string, other: string)
    ensures piece + one == piece + other <==> one == other
  {
    assert (piece + one)[|piece|..] == one && (piece + other)[|piece|..] == other;
  }

  /** A capital past the first character is an ASCII one and follows an ASCII letter. */
  predicate CapitalsFollowLetters(name: string, at: nat, capital: char -> bool) {
    forall i :: at <= i < |name| && i > 0 && capital(name[i]) ==> IsUpper(name[i]) && IsLetter(name[i - 1])
  }

  /** One character on, the two loops write alike where they open a word alike and go on alike. */
  lemma LoopsStep(name: string, first: bool, afterLetter: bool, capital: char -> bool)
    requires name != [] && (afterLetter ==> !first) && IsCapital(capital)
    ensures Snake(name, first, capital) == Module(name, afterLetter)
       <==>
         && (!first && capital(name[0]) ==> IsUpper(name[0]) && afterLetter)
         && Snake(name[1..], false, capital) == Module(name[1..], IsLetter(name[0]))
  {
    var c, snake := Lower(name[0]), Snake(name[1..], false, capital);
    var module_ := Module(name[1..], IsLetter(name[0]));
    SameAfter([c], snake, module_);
    if capital(name[0]) && !first {
      if afterLetter && IsUpper(name[0]) {
        SameAfter("_", [c] + snake, [c] + module_);
      } else {
        assert Snake(name, first, capital)[0] == '_' && Module(name, afterLetter)[0] == c;
      }
    } else {
      SameAfter("", [c] + snake, [c] + module_);
    }
  }

  lemma {:induction false} LoopsAgreeFrom(name: string, at: nat, capital: char -> bool)
    requires 0 < at <= |name| && IsCapital(capital)
    ensures Snake(name[at..], false, capital) == Module(name[at..], IsLetter(name[at - 1]))
       <==> CapitalsFollowLetters(name, at, capital)
    decreases |name| - at
  {
    if at < |name| {
      var left := name[at..];
      assert left[0] == name[at] && left[1..] == name[at + 1..];
      LoopsAgreeFrom(name, at + 1, capital);
      LoopsStep(left, false, IsLetter(name[at - 1]), capital);
      CapitalsNext(name, at, capital);
    } else {
      assert name[at..] == [];
    }
  }

  lemma CapitalsNext(name: string, at: nat, capital: char -> bool)
    requires 0 < at < |name|
    ensures CapitalsFollowLetters(name, at, capital)
       <==>
         && (capital(name[at]) ==> IsUpper(name[at]) && IsLetter(name[at - 1]))
         && CapitalsFollowLetters(name, at + 1, capital)
  {
  }

  /** The loop that names modules writes what the variant rule writes where every capital past the
      first character is an ASCII one after an ASCII letter, and only there. */
  lemma SnakeLoopsAgree(name: string, capital: char -> bool)
    requires IsCapital(capital)
    ensures Module(name, false) == Snake(name, true, capital) <==> CapitalsFollowLetters(name, 0, capital)
  {
    if name != [] {
      LoopsAgreeFrom(name, 1, capital);
      LoopsStep(name, true, false, capital);
    }
  }
}
