/** Text: where a pattern is found in it, and where none can begin. */
module Texts {
  import opened Wrappers

  /** Written text goes on by a piece whether or not the rest is there yet. */
  lemma Moved(written: string, piece: string, rest: string)
    ensures written + (piece + rest) == written + piece + rest
    ensures piece == "" ==> written + piece == written
  {
  }

  /** What begins with two parts begins with the one, and past it with the other. */
  lemma PrefixParts(one: string, other: string, text: string)
    ensures one + other <= text <==> one <= text && other <= text[|one|..]
    ensures one + other <= text ==> text[|one + other|..] == text[|one|..][|other|..]
  {
    if one <= text {
      var rest := text[|one|..];
      assert text == one + rest;
      if other <= rest {
        assert text == one + (other + rest[|other|..]);
        Moved(one, other, rest[|other|..]);
      }
    }
    if one + other <= text {
      assert text[..|one|] == (one + other)[..|one|] == one;
      assert text[|one|..][..|other|] == (one + other)[|one|..] == other;
    }
  }

  lemma FirstMoves<T>(done: seq<T>, items: seq<T>)
    requires items != []
    ensures done + [items[0]] + items[1..] == done + items
  {
  }

  lemma SuffixSplits<T>(items: seq<T>, at: nat)
    requires at < |items|
    ensures items[at..] == [items[at]] + items[at + 1..]
  {
  }

  /** Where `names` lists `name` first. */
  function Position(names: seq<string>, name: string): (at: Option<nat>)
    ensures at.Some? ==> at.value < |names| && names[at.value] == name
  {
    if names == [] then None
    else if names[0] == name then Some(0)
    else
      var rest := Position(names[1..], name);
      if rest.None? then None else Some(rest.value + 1)
  }

  /** The first place `pattern` is found. */
  function Found(text: string, pattern: string): (at: Option<nat>)
    ensures at.Some? ==> at.value + |pattern| <= |text|
  {
    if pattern <= text then Some(0)
    else if text == [] then None
    else
      var rest := Found(text[1..], pattern);
      if rest.None? then None else Some(rest.value + 1)
  }

  /** No `pattern` begins in `piece`, whatever of it is in `rest`. */
  predicate NoneBegins(pattern: string, piece: string, rest: string) {
    forall i :: 0 <= i < |piece| ==> !(pattern <= (piece + rest)[i..])
  }

  /** What is found first past a piece in which none begins. */
  lemma {:induction false} FoundPast(pattern: string, piece: string, rest: string)
    requires NoneBegins(pattern, piece, rest)
    ensures Found(piece + rest, pattern) == var at := Found(rest, pattern); if at.None? then None
      else Some(|piece| + at.value)
  {
    if piece == [] {
      assert piece + rest == rest;
    } else {
      var text := piece + rest;
      assert text[0..] == text && text[1..] == piece[1..] + rest;
      forall i | 0 <= i < |piece[1..]| ensures !(pattern <= (piece[1..] + rest)[i..]) {
        assert text[i + 1..] == (piece[1..] + rest)[i..];
      }
      FoundPast(pattern, piece[1..], rest);
    }
  }

  lemma CutPast(piece: string, rest: string, at: nat, width: nat)
    requires at + width <= |rest|
    ensures (piece + rest)[..|piece| + at] == piece + rest[..at]
    ensures (piece + rest)[|piece| + at + width..] == rest[at + width..]
  {
  }

  /** `text.split_once(pattern)` */
  function SplitOnce(text: string, pattern: string): (parts: Option<(string, string)>)
    ensures parts.Some? ==> |parts.value.1| + |pattern| <= |text|
  {
    var at := Found(text, pattern);
    if at.None? then None else Some((text[..at.value], text[at.value + |pattern|..]))
  }

  lemma SplitOncePast(pattern: string, piece: string, rest: string)
    requires NoneBegins(pattern, piece, rest)
    ensures SplitOnce(piece + rest, pattern)
         == var split := SplitOnce(rest, pattern); if split.None? then None
           else Some((piece + split.value.0, split.value.1))
  {
    FoundPast(pattern, piece, rest);
    var found := Found(rest, pattern);
    if found.Some? {
      CutPast(piece, rest, found.value, |pattern|);
    }
  }

  lemma BothBegin(pattern: string, one: string, other: string, rest: string)
    requires NoneBegins(pattern, one, other + rest) && NoneBegins(pattern, other, rest)
    ensures NoneBegins(pattern, one + other, rest)
  {
    var text := one + other + rest;
    assert text == one + (other + rest);
    forall i | 0 <= i < |one + other| ensures !(pattern <= text[i..]) {
      if i >= |one| {
        assert text[i..] == (other + rest)[i - |one|..];
      }
    }
  }
}
