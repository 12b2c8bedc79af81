/** A pattern between the `/` delimiters of a JavaScript regex literal: the literal ends where it was
    written to, and the pattern read in it is the pattern that was written. */
module RegexLiteral {
  import opened Wrappers
  import opened Texts
  import opened Sentences

  predicate IsLineTerminator(c: char) {
    c == Lf || c == Cr || c == LineSeparator || c == ParagraphSeparator
  }

  /** What follows the backslash of a line terminator's escape. */
  function TerminatorEscape(c: char): string
    requires IsLineTerminator(c)
  {
    if c == Lf then "n" else if c == Cr then "r" else if c == LineSeparator then "u2028" else "u2029"
  }

  // ----- writing -----

  function Written(pattern: string): string
    decreases |pattern|
  {
    if pattern == [] then []
    else if pattern[0] == '\\' then
      if |pattern| == 1 then "\\"
      else
        var escaped: string := if IsLineTerminator(pattern[1]) then TerminatorEscape(pattern[1]) else [pattern[1]];
        "\\" + (escaped + Written(pattern[2..]))
    else if pattern[0] == '/' then "\\" + ("/" + Written(pattern[1..]))
    else if IsLineTerminator(pattern[0]) then "\\" + (TerminatorEscape(pattern[0]) + Written(pattern[1..]))
    else [pattern[0]] + Written(pattern[1..])
  }

  method EscapeJsRegexLiteral(pattern: string) returns (result: string)
    ensures result == Written(pattern)
  {
    result := "";
    var i := 0;
    while i < |pattern|
      invariant i <= |pattern| && result + Written(pattern[i..]) == Written(pattern)
    {
      var ch := pattern[i];
      ghost var left := pattern[i..];
      assert left[0] == ch && left[1..] == pattern[i + 1..] && (|left| > 1 ==> left[2..] == pattern[i + 2..]);
      ghost var before := result;
      if ch == '\\' {
        result := result + "\\";
        i := i + 1;
        if i < |pattern| {
          var escaped: string := if IsLineTerminator(pattern[i]) then TerminatorEscape(pattern[i]) else [pattern[i]];
          Moved(before, "\\", escaped + Written(pattern[i + 1..]));
          Moved(result, escaped, Written(pattern[i + 1..]));
          result := result + escaped;
          i := i + 1;
        } else {
          assert Written(pattern[i..]) == [];
        }
      } else if ch == '/' {
        Moved(before, "\\", "/" + Written(pattern[i + 1..]));
        Moved(before + "\\", "/", Written(pattern[i + 1..]));
        result := result + "\\" + "/";
        i := i + 1;
      } else if IsLineTerminator(ch) {
        Moved(before, "\\", TerminatorEscape(ch) + Written(pattern[i + 1..]));
        result := result + "\\";
        Moved(result, TerminatorEscape(ch), Written(pattern[i + 1..]));
        result := result + TerminatorEscape(ch);
        i := i + 1;
      } else {
        Moved(before, [ch], Written(pattern[i + 1..]));
        result := result + [ch];
        i := i + 1;
      }
    }
    assert pattern[i..] == [];
  }

  // ----- where the literal ends -----

  /** How a JavaScript reader leaves a stretch of a regex literal: outside a class or in one. */
  datatype State = Outside | InClass

  function After(state: State, c: char): State {
    if c == '[' then InClass else if c == ']' then Outside else state
  }

  /** Where the literal that goes on with `text` ends: the text of its body and what follows the closing
      `/`, and none where a line ends in it or nothing closes it. */
  function Ends(text: string, state: State): Option<(string, string)>
    decreases |text|
  {
    if text == [] || IsLineTerminator(text[0]) then None
    else if text[0] == '/' && state.Outside? then Some(("", text[1..]))
    else if text[0] == '\\' then
      if |text| == 1 || IsLineTerminator(text[1]) then None else Led(text[..2], Ends(text[2..], state))
    else Led(text[..1], Ends(text[1..], After(state, text[0])))
  }

  function Led(head: string, ends: Option<(string, string)>): Option<(string, string)> {
    if ends.None? then None else Some((head + ends.value.0, ends.value.1))
  }

  /** The state a pattern leaves a reader in, and none where it ends on a backslash. */
  function Leaves(pattern: string, state: State): Option<State>
    decreases |pattern|
  {
    if pattern == [] then Some(state)
    else if pattern[0] == '\\' then if |pattern| == 1 then None else Leaves(pattern[2..], state)
    else Leaves(pattern[1..], After(state, pattern[0]))
  }

  lemma LedAgain(one: string, other: string, ends: Option<(string, string)>)
    ensures Led(one, Led(other, ends)) == Led(one + other, ends)
  {
    if ends.Some? {
      Moved(one, other, ends.value.0);
    }
  }

  /** An escape of two characters is read past. */
  lemma EscapePassed(c: char, rest: string, state: State)
    requires !IsLineTerminator(c)
    ensures Ends(['\\', c] + rest, state) == Led(['\\', c], Ends(rest, state))
  {
    var text := ['\\', c] + rest;
    assert text[..2] == ['\\', c] && text[2..] == rest;
  }

  lemma PlainPassed(c: char, rest: string, state: State)
    requires c != '\\' && c != '/' && !IsLineTerminator(c)
    ensures Ends([c] + rest, state) == Led([c], Ends(rest, After(state, c)))
  {
    var text := [c] + rest;
    assert text[..1] == [c] && text[1..] == rest;
  }

  lemma TerminatorPassed(c: char, rest: string, state: State)
    requires IsLineTerminator(c)
    ensures Ends("\\" + TerminatorEscape(c) + rest, state) == Led("\\" + TerminatorEscape(c), Ends(rest, state))
  {
    if c == Lf || c == Cr {
      assert "\\" + TerminatorEscape(c) == ['\\', TerminatorEscape(c)[0]];
      EscapePassed(TerminatorEscape(c)[0], rest, state);
    } else {
      var digits := TerminatorEscape(c)[1..];
      assert TerminatorEscape(c) == ['u'] + digits;
      EscapePassed('u', digits + rest, state);
      DigitsPassed(digits, rest, state);
      LedAgain(['\\', 'u'], digits, Ends(rest, state));
      assert "\\" + TerminatorEscape(c) == ['\\', 'u'] + digits;
      Moved(['\\', 'u'], digits, rest);
    }
  }

  lemma {:induction false} DigitsPassed(digits: string, rest: string, state: State)
    requires forall i :: 0 <= i < |digits| ==> '0' <= digits[i] <= '9'
    ensures Ends(digits + rest, state) == Led(digits, Ends(rest, state))
  {
    if digits == [] {
      assert digits + rest == rest;
      LedByNothing(Ends(rest, state));
    } else {
      DigitsPassed(digits[1..], rest, state);
      PlainPassed(digits[0], digits[1..] + rest, state);
      LedAgain([digits[0]], digits[1..], Ends(rest, state));
      assert [digits[0]] + digits[1..] == digits;
      Moved([digits[0]], digits[1..], rest);
    }
  }

  /** Read past what was written of a pattern, the reader is where the pattern leaves it. */
  lemma {:induction false} WrittenPassed(pattern: string, rest: string, state: State)
    requires Leaves(pattern, state).Some?
    ensures Ends(Written(pattern) + rest, state) == Led(Written(pattern), Ends(rest, Leaves(pattern, state).value))
    decreases |pattern|
  {
    if pattern == [] {
      LedByNothing(Ends(rest, state));
      assert Written(pattern) + rest == rest;
    } else if pattern[0] == '\\' {
      WrittenPassed(pattern[2..], rest, state);
      EscapeWrittenPassed(pattern, rest, state);
    } else {
      WrittenPassed(pattern[1..], rest, After(state, pattern[0]));
      CharWrittenPassed(pattern, rest, state);
    }
  }

  /** The reader is past what was written of `pattern` where the pattern leaves it. */
  ghost predicate IsPassed(pattern: string, rest: string, state: State) {
    && Leaves(pattern, state).Some?
    && Ends(Written(pattern) + rest, state) == Led(Written(pattern), Ends(rest, Leaves(pattern, state).value))
  }

  lemma EscapeWrittenPassed(pattern: string, rest: string, state: State)
    requires |pattern| > 1 && pattern[0] == '\\' && IsPassed(pattern[2..], rest, state)
    ensures IsPassed(pattern, rest, state)
  {
    var more := Written(pattern[2..]);
    if IsLineTerminator(pattern[1]) {
      Passed("\\" + TerminatorEscape(pattern[1]), more, rest, state, state, Leaves(pattern, state).value) by {
        TerminatorPassed(pattern[1], more + rest, state);
      }
      Moved("\\", TerminatorEscape(pattern[1]), more);
    } else {
      Passed(['\\', pattern[1]], more, rest, state, state, Leaves(pattern, state).value) by {
        EscapePassed(pattern[1], more + rest, state);
      }
      assert "\\" + ([pattern[1]] + more) == ['\\', pattern[1]] + more;
    }
  }

  lemma CharWrittenPassed(pattern: string, rest: string, state: State)
    requires pattern != [] && pattern[0] != '\\' && IsPassed(pattern[1..], rest, After(state, pattern[0]))
    ensures IsPassed(pattern, rest, state)
  {
    var more, next := Written(pattern[1..]), After(state, pattern[0]);
    if pattern[0] == '/' {
      Passed(['\\', '/'], more, rest, state, state, Leaves(pattern, state).value) by {
        EscapePassed('/', more + rest, state);
      }
      assert "\\" + ("/" + more) == ['\\', '/'] + more;
    } else if IsLineTerminator(pattern[0]) {
      Passed("\\" + TerminatorEscape(pattern[0]), more, rest, state, state, Leaves(pattern, state).value) by {
        TerminatorPassed(pattern[0], more + rest, state);
      }
      Moved("\\", TerminatorEscape(pattern[0]), more);
    } else {
      Passed([pattern[0]], more, rest, state, next, Leaves(pattern, state).value) by {
        PlainPassed(pattern[0], more + rest, state);
      }
    }
  }

  lemma LedByNothing(ends: Option<(string, string)>)
    ensures Led("", ends) == ends
  {
    assert ends.Some? ==> "" + ends.value.0 == ends.value.0;
  }

  lemma Passed(head: string, more: string, rest: string, state: State, next: State, last: State)
    requires Ends(head + (more + rest), state) == Led(head, Ends(more + rest, next))
    requires Ends(more + rest, next) == Led(more, Ends(rest, last))
    ensures Ends(head + more + rest, state) == Led(head + more, Ends(rest, last))
  {
    Moved(head, more, rest);
    LedAgain(head, more, Ends(rest, last));
  }

  /** A pattern that closes its classes and does not end on a backslash is the literal's whole body,
      whatever slashes and line ends it holds. */
  lemma LiteralEndsWhereItIsClosed(pattern: string, rest: string)
    requires Leaves(pattern, Outside) == Some(Outside)
    ensures Ends(Written(pattern) + "/" + rest, Outside) == Some((Written(pattern), rest))
  {
    Moved(Written(pattern), "/", rest);
    WrittenPassed(pattern, "/" + rest, Outside);
    assert ("/" + rest)[1..] == rest;
    assert Written(pattern) + "" == Written(pattern);
  }

  // ----- what the pattern says -----

  /** A pattern's characters and escapes, those that stand for one character told as it. */
  datatype Atom = Raw(c: char) | Escape(c: char) | Character(c: char) | Backslash

  function RawAtom(c: char): Atom {
    if c == '/' || IsLineTerminator(c) then Character(c) else Raw(c)
  }

  function EscapeAtom(c: char): Atom {
    if c == '/' || IsLineTerminator(c) then Character(c)
    else if c == 'n' then Character(Lf)
    else if c == 'r' then Character(Cr)
    else Escape(c)
  }

  predicate AreHex(text: string, count: nat) {
    count == 0 || (text != [] && HexOf(text[0]).Some? && AreHex(text[1..], count - 1))
  }

  /** The character four hexadecimal digits at the head of `text` name. */
  function FourHex(text: string): (c: Option<char>)
    ensures c.Some? ==> |text| >= 4
  {
    if |text| < 4 then None else CharOf(HexNumber(text[..4], 0))
  }

  function Atoms(pattern: string): seq<Atom>
    decreases |pattern|
  {
    if pattern == [] then []
    else if pattern[0] != '\\' then [RawAtom(pattern[0])] + Atoms(pattern[1..])
    else if |pattern| == 1 then [Backslash]
    else if pattern[1] == 'u' && FourHex(pattern[2..]).Some?
      then [Character(FourHex(pattern[2..]).value)] + Atoms(pattern[6..])
    else [EscapeAtom(pattern[1])] + Atoms(pattern[2..])
  }

  lemma HexIsKept(pattern: string)
    requires pattern != [] && HexOf(pattern[0]).Some?
    ensures Written(pattern) == [pattern[0]] + Written(pattern[1..])
  {
  }

  lemma {:induction false} HexRunIsKept(pattern: string, count: nat)
    requires AreHex(pattern, count)
    ensures count <= |pattern| && Written(pattern) == pattern[..count] + Written(pattern[count..])
  {
    if count == 0 {
      assert pattern[0..] == pattern && pattern[..0] == [];
    } else {
      HexRunIsKept(pattern[1..], count - 1);
      HexIsKept(pattern);
      Moved([pattern[0]], pattern[1..][..count - 1], Written(pattern[1..][count - 1..]));
      assert pattern[..count] == [pattern[0]] + pattern[1..][..count - 1];
      assert pattern[count..] == pattern[1..][count - 1..];
    }
  }

  /** Writing a pattern puts no hexadecimal digit where there was none. */
  lemma {:induction false} HexRunIsItsOwn(pattern: string, count: nat)
    ensures AreHex(Written(pattern), count) ==> AreHex(pattern, count)
  {
    if count > 0 && pattern != [] {
      HexRunIsItsOwn(pattern[1..], count - 1);
      if HexOf(pattern[0]).Some? {
        assert Written(pattern)[1..] == Written(pattern[1..]);
      } else {
        assert Written(pattern)[0] == if pattern[0] == '/' || IsLineTerminator(pattern[0]) then '\\' else pattern[0];
      }
    }
  }

  lemma {:induction false} HexNumberIsHex(digits: string, value: nat)
    ensures HexNumber(digits, value).Some? ==> AreHex(digits, |digits|)
    decreases |digits|
  {
    if digits != [] && HexOf(digits[0]).Some? {
      HexNumberIsHex(digits[1..], value * 16 + HexOf(digits[0]).value);
    }
  }

  lemma {:induction false} HexPrefix(text: string, count: nat)
    requires count <= |text|
    ensures AreHex(text[..count], count) <==> AreHex(text, count)
  {
    if count > 0 {
      HexPrefix(text[1..], count - 1);
      assert text[..count][1..] == text[1..][..count - 1];
    }
  }

  lemma FourHexIsKept(pattern: string)
    ensures FourHex(Written(pattern)) == FourHex(pattern)
    ensures FourHex(pattern).Some? ==> Written(pattern)[4..] == Written(pattern[4..])
  {
    FourHexAreHex(pattern);
    FourHexAreHex(Written(pattern));
    HexRunIsItsOwn(pattern, 4);
    if AreHex(pattern, 4) {
      HexRunIsKept(pattern, 4);
      assert Written(pattern)[..4] == pattern[..4];
    }
  }

  lemma FourHexAreHex(text: string)
    ensures FourHex(text).Some? ==> AreHex(text, 4)
  {
    if |text| >= 4 {
      HexNumberIsHex(text[..4], 0);
      HexPrefix(text, 4);
    }
  }

  lemma TerminatorAtoms(c: char, rest: string)
    requires IsLineTerminator(c)
    ensures Atoms("\\" + (TerminatorEscape(c) + rest)) == [Character(c)] + Atoms(rest)
  {
    var text := "\\" + (TerminatorEscape(c) + rest);
    if c == Lf || c == Cr {
      assert text[2..] == rest;
    } else {
      var d := if c == LineSeparator then 8 else 9;
      SeparatorRead(d);
      assert TerminatorEscape(c)[1..] == ['2', '0', '2', Hex(d)];
      assert text[2..][..4] == ['2', '0', '2', Hex(d)];
      assert text[6..] == rest;
    }
  }

  lemma EscapeAtoms(c: char, rest: string, kept: string)
    requires FourHex(kept) == FourHex(rest) && (FourHex(rest).Some? ==> |kept| >= 4)
    requires c == 'u' && FourHex(rest).Some? ==> Atoms(kept[4..]) == Atoms(rest[4..])
    requires !(c == 'u' && FourHex(rest).Some?) ==> Atoms(kept) == Atoms(rest)
    ensures Atoms(['\\', c] + kept) == Atoms(['\\', c] + rest)
  {
    var one, other := ['\\', c] + kept, ['\\', c] + rest;
    assert one[2..] == kept && other[2..] == rest;
    if c == 'u' && FourHex(rest).Some? {
      assert one[6..] == kept[4..] && other[6..] == rest[4..];
    }
  }

  /** The pattern read in the literal is the pattern written, each slash and each line end the character
      it was. */
  lemma {:induction false} SamePattern(pattern: string)
    ensures Atoms(Written(pattern)) == Atoms(pattern)
    decreases |pattern|
  {
    if pattern == [] {
    } else if pattern[0] == '\\' {
      if |pattern| > 1 {
        SamePattern(pattern[2..]);
        if pattern[1] == 'u' && FourHex(pattern[2..]).Some? {
          SamePattern(pattern[6..]);
        }
        SameEscape(pattern[1], pattern[2..]);
        assert pattern == ['\\', pattern[1]] + pattern[2..];
      }
    } else {
      SamePattern(pattern[1..]);
      SamePlain(pattern[0], pattern[1..]);
      assert pattern == [pattern[0]] + pattern[1..];
    }
  }

  lemma SameEscape(c: char, rest: string)
    requires Atoms(Written(rest)) == Atoms(rest)
    requires c == 'u' && FourHex(rest).Some? ==> Atoms(Written(rest[4..])) == Atoms(rest[4..])
    ensures Atoms(Written(['\\', c] + rest)) == Atoms(['\\', c] + rest)
  {
    EscapeIsWritten(c, rest);
    if IsLineTerminator(c) {
      TerminatorAtoms(c, Written(rest));
      EscapedTerminator(c, rest);
    } else {
      FourHexIsKept(rest);
      EscapeAtoms(c, rest, Written(rest));
    }
  }

  lemma EscapeIsWritten(c: char, rest: string)
    ensures Written(['\\', c] + rest)
         == if IsLineTerminator(c) then "\\" + (TerminatorEscape(c) + Written(rest)) else ['\\', c] + Written(rest)
  {
    var pattern := ['\\', c] + rest;
    assert pattern[0] == '\\' && pattern[1] == c && pattern[2..] == rest;
    assert "\\" + ([c] + Written(rest)) == ['\\', c] + Written(rest);
  }

  lemma EscapedTerminator(c: char, rest: string)
    requires IsLineTerminator(c)
    ensures Atoms(['\\', c] + rest) == [Character(c)] + Atoms(rest)
  {
    assert (['\\', c] + rest)[2..] == rest;
  }

  lemma SamePlain(c: char, rest: string)
    requires c != '\\' && Atoms(Written(rest)) == Atoms(rest)
    ensures Atoms(Written([c] + rest)) == Atoms([c] + rest)
  {
    assert ([c] + rest)[1..] == rest;
    if c == '/' {
      assert ("\\" + ("/" + Written(rest)))[2..] == Written(rest);
    } else if IsLineTerminator(c) {
      TerminatorAtoms(c, Written(rest));
    } else {
      assert ([c] + Written(rest))[1..] == Written(rest);
    }
  }
}
