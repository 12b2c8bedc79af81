/** The two verdicts a `pattern` earns from the regex it parses to: whether a search for it succeeds
    in every haystack, and whether a plain text check says the same thing. Both are read off the
    expression tree and held here to a match relation over the positions of a haystack. */
module Patterns {
  import opened Wrappers

  newtype byte = x: int | 0 <= x < 256
  type Bytes = seq<byte>

  /** `Word` is a word-boundary assertion of any flavour. */
  datatype Look = Start | End | LineStart | LineEnd | Word(flavour: string)

  datatype Hir =
    | Empty
    | Literal(run: Bytes)
    | Class(members: set<Bytes>)
    | Assertion(look: Look)
    | Repetition(min: nat, max: Option<nat>, sub: Hir)
    | Capture(sub: Hir)
    | Concat(parts: seq<Hir>)
    | Alternation(branches: seq<Hir>)

  /** Whether a word-boundary assertion of a flavour holds at a position of a haystack. */
  type Boundaries = (string, Bytes, nat) -> bool

  // ----- what a match is -----

  ghost predicate Holds(word: Boundaries, look: Look, s: Bytes, i: nat) {
    match look
    case Start => i == 0
    case End => i == |s|
    case LineStart => i == 0 || (i <= |s| && s[i - 1] == 10)
    case LineEnd => i == |s| || (i < |s| && s[i] == 10)
    case Word(flavour) => word(flavour, s, i)
  }

  /** `h` matches the bytes of `s` from `i` up to `j`. */
  ghost predicate Matches(word: Boundaries, h: Hir, s: Bytes, i: nat, j: nat)
    decreases h, 1
  {
    i <= j <= |s| &&
    match h
    case Empty => i == j
    case Literal(run) => s[i..j] == run
    case Class(members) => i < j && s[i..j] in members
    case Assertion(look) => i == j && Holds(word, look, s, i)
    case Repetition(min, max, sub) =>
      exists n: nat :: min <= n && (max.Some? ==> n <= max.value) && MatchesTimes(word, sub, n, s, i, j)
    case Capture(sub) => Matches(word, sub, s, i, j)
    case Concat(parts) => MatchesAll(word, parts, s, i, j)
    case Alternation(branches) => exists k :: 0 <= k < |branches| && Matches(word, branches[k], s, i, j)
  }

  ghost predicate MatchesTimes(word: Boundaries, sub: Hir, n: nat, s: Bytes, i: nat, j: nat)
    decreases sub, 2, n, 1
  {
    if n == 0 then i == j else exists m: nat :: TimesThrough(word, sub, n, s, i, m, j)
  }

  ghost predicate TimesThrough(word: Boundaries, sub: Hir, n: nat, s: Bytes, i: nat, m: nat, j: nat)
    requires n > 0
    decreases sub, 2, n, 0
  {
    Matches(word, sub, s, i, m) && MatchesTimes(word, sub, n - 1, s, m, j)
  }

  ghost predicate MatchesAll(word: Boundaries, parts: seq<Hir>, s: Bytes, i: nat, j: nat)
    decreases parts, 0, 1
  {
    if parts == [] then i == j else exists m: nat :: AllThrough(word, parts, s, i, m, j)
  }

  ghost predicate AllThrough(word: Boundaries, parts: seq<Hir>, s: Bytes, i: nat, m: nat, j: nat)
    requires parts != []
    decreases parts, 0, 0
  {
    Matches(word, parts[0], s, i, m) && MatchesAll(word, parts[1..], s, m, j)
  }

  lemma Opens(word: Boundaries, parts: seq<Hir>, s: Bytes, i: nat, j: nat) returns (m: nat)
    requires parts != [] && MatchesAll(word, parts, s, i, j)
    ensures i <= m <= |s| && Matches(word, parts[0], s, i, m) && MatchesAll(word, parts[1..], s, m, j)
  {
    m :| AllThrough(word, parts, s, i, m, j);
    Bounded(word, parts[0], s, i, m);
  }

  lemma Bounded(word: Boundaries, h: Hir, s: Bytes, i: nat, j: nat)
    requires Matches(word, h, s, i, j)
    ensures i <= j <= |s|
  {
  }

  lemma Shuts(word: Boundaries, parts: seq<Hir>, s: Bytes, i: nat, m: nat, j: nat)
    requires parts != [] && Matches(word, parts[0], s, i, m) && MatchesAll(word, parts[1..], s, m, j)
    ensures MatchesAll(word, parts, s, i, j)
  {
    assert AllThrough(word, parts, s, i, m, j);
  }

  lemma OpensTimes(word: Boundaries, sub: Hir, n: nat, s: Bytes, i: nat, j: nat) returns (m: nat)
    requires n > 0 && MatchesTimes(word, sub, n, s, i, j)
    ensures Matches(word, sub, s, i, m) && MatchesTimes(word, sub, n - 1, s, m, j)
  {
    m :| TimesThrough(word, sub, n, s, i, m, j);
  }

  lemma RepetitionMatches(word: Boundaries, min: nat, max: Option<nat>, sub: Hir, n: nat, s: Bytes, i: nat, j: nat)
    requires i <= j <= |s| && min <= n && (max.Some? ==> n <= max.value) && MatchesTimes(word, sub, n, s, i, j)
    ensures Matches(word, Repetition(min, max, sub), s, i, j)
  {
  }

  ghost predicate Found(word: Boundaries, h: Hir, s: Bytes) {
    exists i: nat, j: nat :: Matches(word, h, s, i, j)
  }

  // ----- the verdict on every haystack -----

  predicate IsTextAnchor(h: Hir) {
    h == Assertion(Start) || h == Assertion(End)
  }

  /** How many of `parts` are whole-text anchors. */
  function Anchors(parts: seq<Hir>): nat {
    if parts == [] then 0 else (if IsTextAnchor(parts[0]) then 1 else 0) + Anchors(parts[1..])
  }

  /** Whether `h` matches the empty string at every position of every haystack. */
  predicate MatchesAtEveryPosition(h: Hir) {
    match h
    case Empty => true
    case Repetition(min, _, _) => min == 0
    case Capture(sub) => MatchesAtEveryPosition(sub)
    case Concat(parts) => forall k :: 0 <= k < |parts| ==> MatchesAtEveryPosition(parts[k])
    case Alternation(branches) => exists k :: 0 <= k < |branches| && MatchesAtEveryPosition(branches[k])
    case Literal(_) => false
    case Class(_) => false
    case Assertion(_) => false
  }

  predicate ConcatMatchesEveryHaystack(parts: seq<Hir>) {
    && Anchors(parts) <= 1
    && forall k :: 0 <= k < |parts| && !IsTextAnchor(parts[k]) ==> MatchesAtEveryPosition(parts[k])
  }

  predicate MatchesEveryHaystack(h: Hir) {
    match h
    case Assertion(_) => IsTextAnchor(h)
    case Capture(sub) => MatchesEveryHaystack(sub)
    case Alternation(branches) => exists k :: 0 <= k < |branches| && MatchesEveryHaystack(branches[k])
    case Concat(parts) => ConcatMatchesEveryHaystack(parts)
    case Empty => MatchesAtEveryPosition(h)
    case Literal(_) => MatchesAtEveryPosition(h)
    case Class(_) => MatchesAtEveryPosition(h)
    case Repetition(_, _, _) => MatchesAtEveryPosition(h)
  }

  lemma {:induction false} AllMatchHere(word: Boundaries, parts: seq<Hir>, s: Bytes, i: nat)
    requires i <= |s| && forall k :: 0 <= k < |parts| ==> Matches(word, parts[k], s, i, i)
    ensures MatchesAll(word, parts, s, i, i)
  {
    if parts != [] {
      AllMatchHere(word, parts[1..], s, i);
      Shuts(word, parts, s, i, i, i);
    }
  }

  /** What asks the haystack for nothing matches anywhere in it. */
  lemma {:induction false} EveryPositionMatches(word: Boundaries, h: Hir, s: Bytes, i: nat)
    requires MatchesAtEveryPosition(h) && i <= |s|
    ensures Matches(word, h, s, i, i)
  {
    match h
    case Empty =>
    case Repetition(min, max, sub) => RepetitionMatches(word, min, max, sub, 0, s, i, i);
    case Capture(sub) => EveryPositionMatches(word, sub, s, i);
    case Concat(parts) =>
      forall k | 0 <= k < |parts| ensures Matches(word, parts[k], s, i,
        i) { EveryPositionMatches(word, parts[k], s, i); }
      AllMatchHere(word, parts, s, i);
    case Alternation(branches) =>
      var k :| 0 <= k < |branches| && MatchesAtEveryPosition(branches[k]);
      EveryPositionMatches(word, branches[k], s, i);
  }

  lemma {:induction false} TheAnchor(parts: seq<Hir>) returns (k: nat)
    requires Anchors(parts) == 1
    ensures k < |parts| && IsTextAnchor(parts[k])
    ensures forall m :: 0 <= m < |parts| && m != k ==> !IsTextAnchor(parts[m])
  {
    if IsTextAnchor(parts[0]) {
      k := 0;
      NoAnchor(parts[1..]);
      assert forall m :: 1 <= m < |parts| ==> parts[m] == parts[1..][m - 1];
    } else {
      k := TheAnchor(parts[1..]);
      k := k + 1;
      assert forall m :: 1 <= m < |parts| ==> parts[m] == parts[1..][m - 1];
    }
  }

  lemma {:induction false} NoAnchor(parts: seq<Hir>)
    requires Anchors(parts) == 0
    ensures forall m :: 0 <= m < |parts| ==> !IsTextAnchor(parts[m])
  {
    if parts != [] {
      NoAnchor(parts[1..]);
      assert forall m :: 1 <= m < |parts| ==> parts[m] == parts[1..][m - 1];
    }
  }

  /** A pattern the verdict refuses for admitting every value does: a search for it succeeds in every
      haystack, a concatenation with one whole-text anchor among them. */
  lemma {:induction false} VerdictIsSound(word: Boundaries, h: Hir, s: Bytes)
    requires MatchesEveryHaystack(h)
    ensures Found(word, h, s)
  {
    match h
    case Assertion(look) =>
      var i := if look == Start then 0 else |s|;
      assert Matches(word, h, s, i, i);
    case Capture(sub) =>
      VerdictIsSound(word, sub, s);
      var i: nat, j: nat :| Matches(word, sub, s, i, j);
      assert Matches(word, h, s, i, j);
    case Alternation(branches) =>
      var k :| 0 <= k < |branches| && MatchesEveryHaystack(branches[k]);
      VerdictIsSound(word, branches[k], s);
      var i: nat, j: nat :| Matches(word, branches[k], s, i, j);
      assert Matches(word, h, s, i, j);
    case Concat(parts) =>
      var i := 0;
      if Anchors(parts) == 1 {
        var k := TheAnchor(parts);
        i := if parts[k] == Assertion(Start) then 0 else |s|;
      } else {
        NoAnchor(parts);
      }
      forall k | 0 <= k < |parts| ensures Matches(word, parts[k], s, i, i) {
        if !IsTextAnchor(parts[k]) { EveryPositionMatches(word, parts[k], s, i); }
      }
      AllMatchHere(word, parts, s, i);
      assert Matches(word, h, s, i, i);
    case Empty => assert Matches(word, h, s, 0, 0);
    case Repetition(_, _, sub) =>
      assert MatchesTimes(word, sub, 0, s, 0, 0);
      assert Matches(word, h, s, 0, 0);
  }

  /** All that is asserted in `h` is among `looks`. */
  ghost predicate AssertsOnly(h: Hir, looks: set<Look>) {
    match h
    case Assertion(look) => look in looks
    case Repetition(_, _, sub) => AssertsOnly(sub, looks)
    case Capture(sub) => AssertsOnly(sub, looks)
    case Concat(parts) => forall k :: 0 <= k < |parts| ==> AssertsOnly(parts[k], looks)
    case Alternation(branches) => forall k :: 0 <= k < |branches| ==> AssertsOnly(branches[k], looks)
    case _ => true
  }

  lemma {:induction false} AssertsAmongMore(h: Hir, looks: set<Look>, more: set<Look>)
    requires AssertsOnly(h, looks) && looks <= more
    ensures AssertsOnly(h, more)
  {
    match h
    case Repetition(_, _, sub) => AssertsAmongMore(sub, looks, more);
    case Capture(sub) => AssertsAmongMore(sub, looks, more);
    case Concat(parts) =>
      forall k | 0 <= k < |parts| ensures AssertsOnly(parts[k], more) { AssertsAmongMore(parts[k], looks, more); }
    case Alternation(branches) =>
      forall k | 0 <= k < |branches| ensures AssertsOnly(branches[k], more) {
        AssertsAmongMore(branches[k], looks, more);
      }
    case _ =>
  }

  /** Whether `h` can match nothing, at a start or an end where it asserts one. Where the verdict asks a
      repetition to be asked for no time at all, this asks it for no time or for what can itself match
      nothing. */
  predicate Nullable(h: Hir) {
    match h
    case Empty => true
    case Literal(run) => run == []
    case Class(_) => false
    case Assertion(_) => IsTextAnchor(h)
    case Repetition(min, max, sub) => (max.Some? ==> min <= max.value) && (min == 0 || Nullable(sub))
    case Capture(sub) => Nullable(sub)
    case Concat(parts) => forall k :: 0 <= k < |parts| ==> Nullable(parts[k])
    case Alternation(branches) => exists k :: 0 <= k < |branches| && Nullable(branches[k])
  }

  lemma {:induction false} NullableMatchesNothing(word: Boundaries, h: Hir, looks: set<Look>, s: Bytes, i: nat)
    requires AssertsOnly(h, looks) && Nullable(h) && i <= |s|
    requires forall look :: look in looks ==> Holds(word, look, s, i)
    ensures Matches(word, h, s, i, i)
  {
    match h
    case Empty =>
    case Literal(_) =>
    case Assertion(_) =>
    case Repetition(min, max, sub) =>
      if min > 0 {
        NullableMatchesNothing(word, sub, looks, s, i);
      }
      NothingAgain(word, sub, min, s, i);
      RepetitionMatches(word, min, max, sub, min, s, i, i);
    case Capture(sub) => NullableMatchesNothing(word, sub, looks, s, i);
    case Concat(parts) =>
      forall k | 0 <= k < |parts| ensures Matches(word, parts[k], s, i, i) {
        NullableMatchesNothing(word, parts[k], looks, s, i);
      }
      AllMatchHere(word, parts, s, i);
    case Alternation(branches) =>
      var k :| 0 <= k < |branches| && Nullable(branches[k]);
      NullableMatchesNothing(word, branches[k], looks, s, i);
  }

  lemma {:induction false} NothingAgain(word: Boundaries, sub: Hir, n: nat, s: Bytes, i: nat)
    requires n > 0 ==> Matches(word, sub, s, i, i)
    ensures MatchesTimes(word, sub, n, s, i, i)
  {
    if n > 0 {
      NothingAgain(word, sub, n - 1, s, i);
      assert TimesThrough(word, sub, n, s, i, i, i);
    }
  }

  lemma {:induction false} EmptyMatchIsNullable(word: Boundaries, h: Hir)
    requires Matches(word, h, [], 0, 0)
    requires AssertsOnly(h, {Start, End})
    ensures Nullable(h)
  {
    match h
    case Repetition(min, max, sub) =>
      var n: nat :| min <= n && (max.Some? ==> n <= max.value) && MatchesTimes(word, sub, n, [], 0, 0);
      if min > 0 {
        var m := OpensTimes(word, sub, n, [], 0, 0);
        EmptyMatchIsNullable(word, sub);
      }
    case Capture(sub) => EmptyMatchIsNullable(word, sub);
    case Concat(parts) => AllEmptyAreNullable(word, parts);
    case Alternation(branches) =>
      var k :| 0 <= k < |branches| && Matches(word, branches[k], [], 0, 0);
      EmptyMatchIsNullable(word, branches[k]);
    case _ =>
  }

  lemma {:induction false} AllEmptyAreNullable(word: Boundaries, parts: seq<Hir>)
    requires MatchesAll(word, parts, [], 0, 0)
    requires forall k :: 0 <= k < |parts| ==> AssertsOnly(parts[k], {Start, End})
    ensures forall k :: 0 <= k < |parts| ==> Nullable(parts[k])
  {
    if parts != [] {
      var m := Opens(word, parts, [], 0, 0);
      EmptyMatchIsNullable(word, parts[0]);
      AllEmptyAreNullable(word, parts[1..]);
      assert forall k :: 1 <= k < |parts| ==> parts[k] == parts[1..][k - 1];
    }
  }

  /** Where no more is asserted than one end of the text, a search succeeds in every haystack iff it
      does in the empty one, iff the pattern can match nothing. */
  lemma FoundEverywhereIsNullable(word: Boundaries, h: Hir, look: Look)
    requires IsTextAnchor(Assertion(look)) && AssertsOnly(h, {look})
    ensures (forall s :: Found(word, h, s)) <==> Nullable(h)
    ensures Found(word, h, []) <==> Nullable(h)
  {
    if Found(word, h, []) {
      var i: nat, j: nat :| Matches(word, h, [], i, j);
      AssertsAmongMore(h, {look}, {Start, End});
      EmptyMatchIsNullable(word, h);
    }
    if Nullable(h) {
      forall s: Bytes ensures Found(word, h, s) {
        NullableMatchesNothing(word, h, {look}, s, if look == Start then 0 else |s|);
      }
    }
  }

  // ----- what the verdict misses -----

  /** `h` can match nothing and is not written so that it shows: by a repetition asked for, an empty run
      or an anchor, in every part or branch it could show in. */
  predicate MissedWithin(h: Hir) {
    match h
    case Empty => false
    case Literal(run) => run == []
    case Class(_) => false
    case Assertion(_) => IsTextAnchor(h)
    case Repetition(min, _, _) => min > 0 && Nullable(h)
    case Capture(sub) => MissedWithin(sub)
    case Concat(parts) => Nullable(h) && exists k :: 0 <= k < |parts| && MissedWithin(parts[k])
    case Alternation(branches) =>
      Nullable(h) && forall k :: 0 <= k < |branches| && Nullable(branches[k]) ==> MissedWithin(branches[k])
  }

  /** The same of a whole pattern, where one anchor stands alone, and one among the parts of a
      concatenation. */
  predicate Missed(h: Hir) {
    match h
    case Assertion(_) => false
    case Capture(sub) => Missed(sub)
    case Concat(parts) =>
      && Nullable(h)
      && (TwoAreAnchors(parts) || exists k :: 0 <= k < |parts| && !IsTextAnchor(parts[k]) && MissedWithin(parts[k]))
    case Alternation(branches) =>
      Nullable(h) && forall k :: 0 <= k < |branches| && Nullable(branches[k]) ==> Missed(branches[k])
    case _ => MissedWithin(h)
  }

  predicate TwoAreAnchors(parts: seq<Hir>) {
    exists i, k :: 0 <= i < k < |parts| && IsTextAnchor(parts[i]) && IsTextAnchor(parts[k])
  }

  lemma {:induction false} EveryPositionIsSeen(h: Hir)
    ensures MatchesAtEveryPosition(h) <==> Nullable(h) && !MissedWithin(h)
    ensures MissedWithin(h) ==> Nullable(h)
  {
    match h
    case Capture(sub) => EveryPositionIsSeen(sub);
    case Concat(parts) =>
      forall k | 0 <= k < |parts|
        ensures MatchesAtEveryPosition(parts[k]) <==> Nullable(parts[k]) && !MissedWithin(parts[k])
      {
        EveryPositionIsSeen(parts[k]);
      }
    case Alternation(branches) =>
      forall k | 0 <= k < |branches|
        ensures MatchesAtEveryPosition(branches[k]) <==> Nullable(branches[k]) && !MissedWithin(branches[k])
      {
        EveryPositionIsSeen(branches[k]);
      }
    case _ =>
  }

  lemma {:induction false} CountedAnchors(parts: seq<Hir>)
    ensures Anchors(parts) > 0 <==> exists k :: 0 <= k < |parts| && IsTextAnchor(parts[k])
    ensures Anchors(parts) > 1 <==> TwoAreAnchors(parts)
  {
    if parts != [] {
      var rest := parts[1..];
      CountedAnchors(rest);
      assert forall k :: 0 <= k < |rest| ==> rest[k] == parts[k + 1];
      assert forall k :: 1 <= k < |parts| ==> parts[k] == rest[k - 1];
      if i, k :| 0 <= i < k < |rest| && IsTextAnchor(rest[i]) && IsTextAnchor(rest[k]) {
        assert IsTextAnchor(parts[i + 1]) && IsTextAnchor(parts[k + 1]);
      }
    }
  }

  /** The verdict says of a pattern that it matches every haystack where it can match nothing and that
      is not missed. */
  lemma {:induction false} VerdictIsSeen(h: Hir)
    ensures MatchesEveryHaystack(h) <==> Nullable(h) && !Missed(h)
    ensures Missed(h) ==> Nullable(h)
  {
    match h
    case Assertion(_) =>
    case Capture(sub) => VerdictIsSeen(sub);
    case Concat(parts) =>
      CountedAnchors(parts);
      forall k | 0 <= k < |parts|
        ensures MatchesAtEveryPosition(parts[k]) <==> Nullable(parts[k]) && !MissedWithin(parts[k])
      {
        EveryPositionIsSeen(parts[k]);
      }
    case Alternation(branches) =>
      forall k | 0 <= k < |branches|
        ensures MatchesEveryHaystack(branches[k]) <==> Nullable(branches[k]) && !Missed(branches[k])
      {
        VerdictIsSeen(branches[k]);
      }
    case _ => EveryPositionIsSeen(h);
  }

  /** Where no more is asserted than one end of the text, the verdict is right of the patterns it does
      not miss, and of no other. */
  lemma VerdictIsExact(word: Boundaries, h: Hir, look: Look)
    requires IsTextAnchor(Assertion(look)) && AssertsOnly(h, {look})
    ensures (MatchesEveryHaystack(h) <==> forall s :: Found(word, h, s)) <==> !Missed(h)
  {
    FoundEverywhereIsNullable(word, h, look);
    VerdictIsSeen(h);
  }

  /** A repetition is asked for nothing, or for what matches something; a run is not empty; and nothing
      is asserted. */
  predicate IsPlain(h: Hir) {
    match h
    case Empty => true
    case Literal(run) => run != []
    case Class(_) => true
    case Assertion(_) => false
    case Repetition(min, _, sub) => min == 0 || !Nullable(sub)
    case Capture(sub) => IsPlain(sub)
    case Concat(parts) => forall k :: 0 <= k < |parts| ==> IsPlain(parts[k])
    case Alternation(branches) => forall k :: 0 <= k < |branches| ==> IsPlain(branches[k])
  }

  /** The same, but for an anchor that stands for itself or once among the parts of a concatenation. */
  predicate IsPlainlyAnchored(h: Hir) {
    match h
    case Assertion(_) => IsTextAnchor(h)
    case Capture(sub) => IsPlainlyAnchored(sub)
    case Concat(parts) =>
      !TwoAreAnchors(parts) && forall k :: 0 <= k < |parts| ==> IsTextAnchor(parts[k]) || IsPlain(parts[k])
    case Alternation(branches) => forall k :: 0 <= k < |branches| ==> IsPlainlyAnchored(branches[k])
    case _ => IsPlain(h)
  }

  lemma {:induction false} PlainIsNotMissedWithin(h: Hir)
    requires IsPlain(h)
    ensures !MissedWithin(h)
  {
    match h
    case Capture(sub) => PlainIsNotMissedWithin(sub);
    case Concat(parts) =>
      forall k | 0 <= k < |parts| ensures !MissedWithin(parts[k]) { PlainIsNotMissedWithin(parts[k]); }
    case Alternation(branches) =>
      forall k | 0 <= k < |branches| ensures !MissedWithin(branches[k]) { PlainIsNotMissedWithin(branches[k]); }
    case _ =>
  }

  lemma {:induction false} PlainlyAnchoredIsNotMissed(h: Hir)
    requires IsPlainlyAnchored(h)
    ensures !Missed(h)
  {
    match h
    case Capture(sub) => PlainlyAnchoredIsNotMissed(sub);
    case Concat(parts) =>
      forall k | 0 <= k < |parts| && !IsTextAnchor(parts[k]) ensures !MissedWithin(parts[k]) {
        PlainIsNotMissedWithin(parts[k]);
      }
    case Alternation(branches) =>
      forall k | 0 <= k < |branches| ensures !Missed(branches[k]) { PlainlyAnchoredIsNotMissed(branches[k]); }
    case Assertion(_) =>
    case _ => PlainIsNotMissedWithin(h);
  }

  /** Of a pattern written plainly, one end of the text asserted at most, the verdict is that a search
      succeeds in every haystack exactly where it does. */
  lemma VerdictIsComplete(word: Boundaries, h: Hir, look: Look)
    requires IsTextAnchor(Assertion(look)) && AssertsOnly(h, {look}) && IsPlainlyAnchored(h)
    ensures MatchesEveryHaystack(h) <==> Nullable(h)
    ensures MatchesEveryHaystack(h) <==> forall s :: Found(word, h, s)
  {
    PlainlyAnchoredIsNotMissed(h);
    VerdictIsExact(word, h, look);
    FoundEverywhereIsNullable(word, h, look);
  }

  /** An anchor in a group, ahead of what can match nothing: `(^)a*` is found everywhere, and the verdict
      does not say so. */
  lemma VerdictMissesCapturedAnchor(word: Boundaries, a: Bytes)
    ensures var h := Concat([Capture(Assertion(Start)), Repetition(0, None, Literal(a))]);
      !MatchesEveryHaystack(h) && forall s :: Found(word, h, s)
  {
    var h := Concat([Capture(Assertion(Start)), Repetition(0, None, Literal(a))]);
    assert !MatchesAtEveryPosition(h.parts[0]);
    FoundEverywhereIsNullable(word, h, Start);
  }

  /** A repetition asked at least once for what can match nothing: `(?:a*)+` is found everywhere, and
      the verdict does not say so. */
  lemma VerdictMissesNestedRepetition(word: Boundaries, a: Bytes)
    ensures var h := Repetition(1, None, Repetition(0, None, Literal(a)));
      !MatchesEveryHaystack(h) && forall s :: Found(word, h, s)
  {
    var star := Repetition(0, None, Literal(a));
    var h := Repetition(1, None, star);
    forall s: Bytes ensures Found(word, h, s) {
      RepetitionMatches(word, 0, None, Literal(a), 0, s, 0, 0);
      assert MatchesTimes(word, star, 0, s, 0, 0);
      assert TimesThrough(word, star, 1, s, 0, 0, 0);
      RepetitionMatches(word, 1, None, star, 1, s, 0, 0);
      assert Matches(word, h, s, 0, 0);
    }
  }

  // ----- the text check a pattern says the same as -----

  datatype TrivialPattern =
    | Contains(needle: Bytes)
    | EndsWith(needle: Bytes)
    | Equals(needle: Bytes)
    | IsEmpty
    | StartsWith(needle: Bytes)

  ghost predicate StandsAt(needle: Bytes, s: Bytes, i: nat) {
    i + |needle| <= |s| && s[i..i + |needle|] == needle
  }

  ghost predicate Passes(check: TrivialPattern, s: Bytes) {
    match check
    case Contains(needle) => exists i: nat :: StandsAt(needle, s, i)
    case EndsWith(needle) => |needle| <= |s| && s[|s| - |needle|..] == needle
    case Equals(needle) => s == needle
    case IsEmpty => s == []
    case StartsWith(needle) => needle <= s
  }

  /** The bytes a run of parts spells, or `None` where one of them is no literal. */
  function Spelled(parts: seq<Hir>): Option<Bytes> {
    if parts == [] then Some([])
    else if !parts[0].Literal? then None
    else match Spelled(parts[1..]) case None => None case Some(rest) => Some(parts[0].run + rest)
  }

  /** The non-empty text a run of parts spells; `utf8` says which bytes are one. */
  function LiteralNeedle(utf8: Bytes -> bool, parts: seq<Hir>): Option<Bytes> {
    match Spelled(parts)
    case None => None
    case Some(bytes) => if bytes == [] || !utf8(bytes) then None else Some(bytes)
  }

  function TrivialConcat(utf8: Bytes -> bool, parts: seq<Hir>): Option<TrivialPattern> {
    if parts == [] then None
    else
      var opens := parts[0] == Assertion(Start);
      var closes := parts[|parts| - 1] == Assertion(End);
      var inner := if |parts| < 2 then [] else parts[1..|parts| - 1];
      if opens && closes then
        if inner == [] then Some(IsEmpty)
        else match LiteralNeedle(utf8, inner) case None => None case Some(needle) => Some(Equals(needle))
      else if opens && parts[|parts| - 1].Literal? then
        match LiteralNeedle(utf8, parts[1..]) case None => None case Some(needle) => Some(StartsWith(needle))
      else if closes && parts[0].Literal? then
        match LiteralNeedle(utf8, parts[..|parts| - 1]) case None => None case Some(needle) => Some(EndsWith(needle))
      else match LiteralNeedle(utf8, parts) case None => None case Some(needle) => Some(Contains(needle))
  }

  function Trivial(utf8: Bytes -> bool, h: Hir): Option<TrivialPattern> {
    match h
    case Literal(_) =>
      (match LiteralNeedle(utf8, [h]) case None => None case Some(needle) => Some(Contains(needle)))
    case Concat(parts) => TrivialConcat(utf8, parts)
    case _ => None
  }

  lemma SlicesJoined(s: Bytes, i: nat, j: nat, one: Bytes, other: Bytes)
    requires i <= j <= |s| && s[i..j] == one + other
    ensures i + |one| <= j && s[i..i + |one|] == one && s[i + |one|..j] == other
  {
    assert |s[i..j]| == j - i;
    assert s[i..i + |one|] == s[i..j][..|one|] == (one + other)[..|one|];
    assert s[i + |one|..j] == s[i..j][|one|..] == (one + other)[|one|..];
  }

  lemma {:induction false} SpelledMatches(word: Boundaries, parts: seq<Hir>, s: Bytes, i: nat, j: nat)
    requires Spelled(parts).Some? && i <= |s|
    ensures MatchesAll(word, parts, s, i, j) <==> i <= j <= |s| && s[i..j] == Spelled(parts).value
  {
    if parts != [] {
      var run, rest := parts[0].run, Spelled(parts[1..]).value;
      if MatchesAll(word, parts, s, i, j) {
        var m := Opens(word, parts, s, i, j);
        SpelledMatches(word, parts[1..], s, m, j);
        assert s[i..j] == s[i..m] + s[m..j];
      }
      if i <= j <= |s| && s[i..j] == run + rest {
        var m := i + |run|;
        SlicesJoined(s, i, j, run, rest);
        SpelledMatches(word, parts[1..], s, m, j);
        Shuts(word, parts, s, i, m, j);
      }
    }
  }

  /** `one` and then `two` match, meeting at `m`. */
  ghost predicate Meet(word: Boundaries, one: seq<Hir>, two: seq<Hir>, s: Bytes, i: nat, m: nat, j: nat) {
    MatchesAll(word, one, s, i, m) && MatchesAll(word, two, s, m, j)
  }

  lemma {:induction false} Parted(word: Boundaries, one: seq<Hir>, two: seq<Hir>, s: Bytes, i: nat,
      j: nat) returns (m: nat)
    requires MatchesAll(word, one + two, s, i, j)
    ensures Meet(word, one, two, s, i, m, j)
  {
    if one == [] {
      assert one + two == two;
      m := i;
    } else {
      assert (one + two)[0] == one[0] && (one + two)[1..] == one[1..] + two;
      var k := Opens(word, one + two, s, i, j);
      m := Parted(word, one[1..], two, s, k, j);
      Shuts(word, one, s, i, k, m);
    }
  }

  lemma {:induction false} Joined(word: Boundaries, one: seq<Hir>, two: seq<Hir>, s: Bytes, i: nat, m: nat, j: nat)
    requires Meet(word, one, two, s, i, m, j)
    ensures MatchesAll(word, one + two, s, i, j)
  {
    if one == [] {
      assert one + two == two;
    } else {
      assert (one + two)[0] == one[0] && (one + two)[1..] == one[1..] + two;
      var k := Opens(word, one, s, i, m);
      Joined(word, one[1..], two, s, k, m, j);
      Shuts(word, one + two, s, i, k, j);
    }
  }

  lemma AnchorMatches(word: Boundaries, look: Look, s: Bytes, i: nat, j: nat)
    ensures MatchesAll(word, [Assertion(look)], s, i, j) <==> i == j <= |s| && Holds(word, look, s, i)
  {
    var parts := [Assertion(look)];
    assert parts[1..] == [];
    if MatchesAll(word, parts, s, i, j) {
      var m := Opens(word, parts, s, i, j);
    }
    if i == j <= |s| && Holds(word, look, s, i) {
      Shuts(word, parts, s, i, i, i);
    }
  }

  /** A literal run is found exactly where the text contains it. */
  lemma ContainsIsExact(word: Boundaries, parts: seq<Hir>, s: Bytes)
    requires Spelled(parts).Some?
    ensures Found(word, Concat(parts), s) <==> Passes(Contains(Spelled(parts).value), s)
  {
    var needle := Spelled(parts).value;
    if Found(word, Concat(parts), s) {
      var i: nat, j: nat :| Matches(word, Concat(parts), s, i, j);
      SpelledMatches(word, parts, s, i, j);
      assert StandsAt(needle, s, i);
    }
    if Passes(Contains(needle), s) {
      var i: nat :| StandsAt(needle, s, i);
      SpelledMatches(word, parts, s, i, i + |needle|);
      assert Matches(word, Concat(parts), s, i, i + |needle|);
    }
  }

  lemma StartsWithIsExact(word: Boundaries, run: seq<Hir>, s: Bytes)
    requires Spelled(run).Some?
    ensures Found(word, Concat([Assertion(Start)] + run), s) <==> Passes(StartsWith(Spelled(run).value), s)
  {
    var parts, needle := [Assertion(Start)] + run, Spelled(run).value;
    if Found(word, Concat(parts), s) {
      var i: nat, j: nat :| Matches(word, Concat(parts), s, i, j);
      var m := Parted(word, [Assertion(Start)], run, s, i, j);
      AnchorMatches(word, Start, s, i, m);
      SpelledMatches(word, run, s, 0, j);
      assert s[..j] == needle;
    }
    if needle <= s {
      AnchorMatches(word, Start, s, 0, 0);
      SpelledMatches(word, run, s, 0, |needle|);
      Joined(word, [Assertion(Start)], run, s, 0, 0, |needle|);
      assert Matches(word, Concat(parts), s, 0, |needle|);
    }
  }

  lemma EndsWithIsExact(word: Boundaries, run: seq<Hir>, s: Bytes)
    requires Spelled(run).Some?
    ensures Found(word, Concat(run + [Assertion(End)]), s) <==> Passes(EndsWith(Spelled(run).value), s)
  {
    var parts, needle := run + [Assertion(End)], Spelled(run).value;
    if Found(word, Concat(parts), s) {
      var i: nat, j: nat :| Matches(word, Concat(parts), s, i, j);
      var m := Parted(word, run, [Assertion(End)], s, i, j);
      AnchorMatches(word, End, s, m, j);
      SpelledMatches(word, run, s, i, m);
      assert s[i..] == needle;
    }
    if Passes(EndsWith(needle), s) {
      var i := |s| - |needle|;
      AnchorMatches(word, End, s, |s|, |s|);
      SpelledMatches(word, run, s, i, |s|);
      Joined(word, run, [Assertion(End)], s, i, |s|, |s|);
      assert Matches(word, Concat(parts), s, i, |s|);
    }
  }

  lemma EqualsIsExact(word: Boundaries, run: seq<Hir>, s: Bytes)
    requires Spelled(run).Some?
    ensures Found(word, Concat([Assertion(Start)] + run + [Assertion(End)]), s) <==> s == Spelled(run).value
  {
    var parts, needle := [Assertion(Start)] + run + [Assertion(End)], Spelled(run).value;
    if Found(word, Concat(parts), s) {
      var i: nat, j: nat :| Matches(word, Concat(parts), s, i, j);
      var k := Parted(word, [Assertion(Start)] + run, [Assertion(End)], s, i, j);
      var m := Parted(word, [Assertion(Start)], run, s, i, k);
      AnchorMatches(word, Start, s, i, m);
      AnchorMatches(word, End, s, k, j);
      SpelledMatches(word, run, s, 0, |s|);
      assert s[0..|s|] == s;
    }
    if s == needle {
      assert s[0..|s|] == s;
      AnchorMatches(word, Start, s, 0, 0);
      AnchorMatches(word, End, s, |s|, |s|);
      SpelledMatches(word, run, s, 0, |s|);
      Joined(word, [Assertion(Start)], run, s, 0, 0, |s|);
      Joined(word, [Assertion(Start)] + run, [Assertion(End)], s, 0, |s|, |s|);
      assert Matches(word, Concat(parts), s, 0, |s|);
    }
  }

  /** Whenever a pattern is answered with a text check, the check accepts exactly the texts a search
      for the pattern succeeds in. */
  lemma TrivialIsExact(word: Boundaries, utf8: Bytes -> bool, h: Hir, s: Bytes)
    requires Trivial(utf8, h).Some?
    ensures Found(word, h, s) <==> Passes(Trivial(utf8, h).value, s)
  {
    match h
    case Literal(run) =>
      assert Spelled([h]) == Some(run + []) && run + [] == run;
      ContainsIsExact(word, [h], s);
      forall i: nat, j: nat ensures Matches(word, h, s, i, j) <==> Matches(word, Concat([h]), s, i, j) {
        if i <= |s| { SpelledMatches(word, [h], s, i, j); }
      }
    case Concat(parts) =>
      var last := |parts| - 1;
      var opens, closes := parts[0] == Assertion(Start), parts[last] == Assertion(End);
      if opens && closes {
        var inner := parts[1..last];
        assert parts == [Assertion(Start)] + inner + [Assertion(End)];
        EqualsIsExact(word, inner, s);
      } else if opens && parts[last].Literal? {
        assert parts == [Assertion(Start)] + parts[1..];
        StartsWithIsExact(word, parts[1..], s);
      } else if closes && parts[0].Literal? {
        assert parts == parts[..last] + [Assertion(End)];
        EndsWithIsExact(word, parts[..last], s);
      } else {
        ContainsIsExact(word, parts, s);
      }
  }

  // ----- which patterns are answered -----

  predicate AreLiterals(parts: seq<Hir>) {
    forall k :: 0 <= k < |parts| ==> parts[k].Literal?
  }

  /** The runs of `parts`, one after another. */
  function Runs(parts: seq<Hir>): Bytes {
    if parts == [] then [] else (if parts[0].Literal? then parts[0].run else []) + Runs(parts[1..])
  }

  function Anchored(opens: bool, run: seq<Hir>, closes: bool): seq<Hir> {
    (if opens then [Assertion(Start)] else []) + run + (if closes then [Assertion(End)] else [])
  }

  function CheckOf(opens: bool, needle: Bytes, closes: bool): TrivialPattern {
    if opens && closes then Equals(needle)
    else if opens then StartsWith(needle)
    else if closes then EndsWith(needle)
    else Contains(needle)
  }

  /** What can stand in a text check: some text. */
  predicate IsNeedle(utf8: Bytes -> bool, run: seq<Hir>) {
    AreLiterals(run) && Runs(run) != [] && utf8(Runs(run))
  }

  lemma {:induction false} LiteralsAreSpelled(parts: seq<Hir>)
    ensures Spelled(parts).Some? <==> AreLiterals(parts)
    ensures AreLiterals(parts) ==> Spelled(parts) == Some(Runs(parts))
  {
    if parts != [] {
      LiteralsAreSpelled(parts[1..]);
      assert forall k :: 1 <= k < |parts| ==> parts[k] == parts[1..][k - 1];
    }
  }

  lemma NeedleIsAnswered(utf8: Bytes -> bool, run: seq<Hir>)
    ensures LiteralNeedle(utf8, run) == if IsNeedle(utf8, run) then Some(Runs(run)) else None
  {
    LiteralsAreSpelled(run);
  }

  lemma AnsweredBetween(utf8: Bytes -> bool, run: seq<Hir>)
    requires IsNeedle(utf8, run)
    ensures Trivial(utf8, Concat([Assertion(Start)] + run + [Assertion(End)])) == Some(Equals(Runs(run)))
  {
    var parts := [Assertion(Start)] + run + [Assertion(End)];
    NeedleIsAnswered(utf8, run);
    assert parts[1..|parts| - 1] == run;
  }

  lemma AnsweredBehind(utf8: Bytes -> bool, run: seq<Hir>)
    requires IsNeedle(utf8, run)
    ensures Trivial(utf8, Concat([Assertion(Start)] + run)) == Some(StartsWith(Runs(run)))
  {
    var parts := [Assertion(Start)] + run;
    NeedleIsAnswered(utf8, run);
    assert parts[1..] == run && parts[|parts| - 1] == run[|run| - 1];
  }

  lemma AnsweredAhead(utf8: Bytes -> bool, run: seq<Hir>)
    requires IsNeedle(utf8, run)
    ensures Trivial(utf8, Concat(run + [Assertion(End)])) == Some(EndsWith(Runs(run)))
  {
    var parts := run + [Assertion(End)];
    NeedleIsAnswered(utf8, run);
    assert parts[..|parts| - 1] == run && parts[0] == run[0];
  }

  lemma AnsweredAlone(utf8: Bytes -> bool, run: seq<Hir>)
    requires IsNeedle(utf8, run)
    ensures Trivial(utf8, Concat(run)) == Some(Contains(Runs(run)))
  {
    NeedleIsAnswered(utf8, run);
    var first, last := run[0], run[|run| - 1];
    assert first.Literal? && last.Literal?;
    assert first != Assertion(Start) && last != Assertion(End);
  }

  lemma AnsweredByItself(utf8: Bytes -> bool, h: Hir)
    requires IsNeedle(utf8, [h])
    ensures Trivial(utf8, h) == Some(Contains(Runs([h])))
  {
    NeedleIsAnswered(utf8, [h]);
    assert [h][0].Literal?;
  }

  /** A run of literals that spells some text is answered, behind a start anchor or not and ahead of an
      end anchor or not, with the check of that text at that place. */
  lemma LiteralsAreAnswered(utf8: Bytes -> bool, opens: bool, run: seq<Hir>, closes: bool)
    requires IsNeedle(utf8, run)
    ensures Trivial(utf8, Concat(Anchored(opens, run, closes))) == Some(CheckOf(opens, Runs(run), closes))
    ensures |run| == 1 ==> Trivial(utf8, run[0]) == Some(Contains(Runs(run)))
  {
    AnsweredAlone(utf8, run);
    AnchoredIs(opens, run, closes);
    if |run| == 1 {
      assert run == [run[0]];
      AnsweredByItself(utf8, run[0]);
    }
    if opens && closes {
      AnsweredBetween(utf8, run);
    } else if opens {
      AnsweredBehind(utf8, run);
    } else if closes {
      AnsweredAhead(utf8, run);
    }
  }

  lemma AnchoredIs(opens: bool, run: seq<Hir>, closes: bool)
    ensures Anchored(opens, run, closes)
         == if opens && closes then [Assertion(Start)] + run + [Assertion(End)]
            else if opens then [Assertion(Start)] + run
            else if closes then run + [Assertion(End)] else run
  {
  }

  /** And nothing is besides, but the two anchors with nothing between them. */
  lemma AnsweredAreLiterals(utf8: Bytes -> bool, h: Hir) returns (opens: bool, run: seq<Hir>, closes: bool)
    requires Trivial(utf8, h).Some?
    ensures (h == Concat([Assertion(Start), Assertion(End)]) && Trivial(utf8, h) == Some(IsEmpty))
      || (IsNeedle(utf8, run) && Trivial(utf8, h) == Some(CheckOf(opens, Runs(run), closes))
          && (h == Concat(Anchored(opens, run, closes)) || ([h] == run && !opens && !closes)))
  {
    opens, run, closes := false, [h], false;
    if h.Concat? {
      var parts := h.parts;
      var last := |parts| - 1;
      opens, closes := parts[0] == Assertion(Start), parts[last] == Assertion(End);
      if opens && closes {
        run := parts[1..last];
        assert parts == [Assertion(Start)] + run + [Assertion(End)];
      } else if opens && parts[last].Literal? {
        run := parts[1..];
        assert parts == [Assertion(Start)] + run;
      } else if closes && parts[0].Literal? {
        run := parts[..last];
        assert parts == run + [Assertion(End)];
      } else {
        run := parts;
      }
      NeedleIsAnswered(utf8, run);
      assert AreLiterals(parts) ==> parts[0].Literal? && parts[last].Literal?;
    } else {
      NeedleIsAnswered(utf8, run);
    }
  }

  /** The two anchors with nothing between them are the check for the empty text. */
  lemma AnchorsAreAnswered(utf8: Bytes -> bool)
    ensures Trivial(utf8, Concat([Assertion(Start), Assertion(End)])) == Some(IsEmpty)
  {
    assert [Assertion(Start), Assertion(End)][1..1] == [];
  }

  /** No pattern answered with a text check is one that admits every value. */
  lemma TrivialConstrains(utf8: Bytes -> bool, h: Hir)
    requires Trivial(utf8, h).Some?
    ensures !MatchesEveryHaystack(h)
  {
    if h.Concat? {
      var parts, last := h.parts, |h.parts| - 1;
      if parts[0] == Assertion(Start) && parts[last] == Assertion(End) {
        TwoAnchors(parts);
      } else if !parts[0].Literal? {
        assert parts[last].Literal?;
      }
    }
  }

  lemma TwoAnchors(parts: seq<Hir>)
    requires |parts| >= 2 && parts[0] == Assertion(Start) && parts[|parts| - 1] == Assertion(End)
    ensures Anchors(parts) >= 2
  {
    LastAnchor(parts[1..]);
  }

  lemma {:induction false} LastAnchor(parts: seq<Hir>)
    requires parts != [] && IsTextAnchor(parts[|parts| - 1])
    ensures Anchors(parts) >= 1
  {
    if |parts| > 1 { LastAnchor(parts[1..]); }
  }
}
