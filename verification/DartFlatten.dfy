/** What a member flattened into its holder is read from in the Dart class emitted for the holder.
    The emitter walks the members once and writes, for each, an expression over the decoded object;
    a reader keeps the object itself and takes off it what each member takes. They are one. */
module DartFlatten {
  import opened Wrappers
  import opened DartMaps
  import opened DartJson
  import opened Texts

  /** What a type flattened into a holder takes off the object the holder reads. */
  datatype Taken =
    | FirstOf(names: seq<seq<string>>)
    | Keys(keys: seq<string>)
    | Only(keys: seq<string>)
    | Tagged(keys: seq<string>)

  datatype Member =
    | Own(wireName: string)
    | Flattened(taken: Taken, readsTheWhole: bool)

  // ----- the emitted expressions -----

  datatype Expr =
    | Source
    | Without(of: Expr, keys: seq<string>)
    | OnlyUnder(of: Expr, keys: seq<string>)
    | OneUnder(of: Expr, variants: seq<seq<string>>)
    | WithoutFirst(of: Expr, names: seq<string>)

  datatype Argument =
    | Keyed(wireName: string)
    | ReadFrom(from: Expr)

  /** More than one variant of an enum in the flattened data, each by its name. */
  datatype Refusal = Several(variants: seq<string>)

  type Evaluated = Result<seq<JsonEntry>, Refusal>

  function AllNames(names: seq<seq<string>>): seq<string> {
    if names == [] then [] else names[0] + AllNames(names[1..])
  }

  /** `({...entries}..remove(k)..remove(k))` */
  function RemovedAll(entries: seq<JsonEntry>, keys: seq<string>): seq<JsonEntry>
    decreases |keys|
  {
    if keys == [] then entries else RemovedAll(Removed(entries, keys[0]), keys[1..])
  }

  /** `{ for (final key in keys) if (whole.containsKey(key)) key: whole[key] }`, after `built` */
  function Collected(whole: seq<JsonEntry>, keys: seq<string>, built: seq<JsonEntry>): seq<JsonEntry> {
    if keys == [] then built
    else
      var held := Held(whole, keys[0]);
      Collected(whole, keys[1..], if held.Some? then Put(built, keys[0], held.value) else built)
  }

  /** `whole.keys.where(names.contains)` */
  function KeysAmong(whole: seq<JsonEntry>, names: seq<string>): seq<string> {
    if whole == [] then []
    else (if whole[0].key in names then [whole[0].key] else []) + KeysAmong(whole[1..], names)
  }

  /** `[for (final variant in names) if (variant.any(whole.containsKey)) variant.first]` */
  function VariantsHeld(whole: seq<JsonEntry>, names: seq<seq<string>>): seq<string> {
    if names == [] then []
    else
      (if exists i :: 0 <= i < |names[0]| && HoldsKey(whole, names[0][i]) then [names[0][0]] else [])
      + VariantsHeld(whole, names[1..])
  }

  function Eval(e: Expr, source: seq<JsonEntry>): Evaluated {
    match e
    case Source => Ok(source)
    case Without(of, keys) =>
      var entries := Eval(of, source);
      if entries.Err? then entries else Ok(RemovedAll(entries.value, keys))
    case OnlyUnder(of, keys) =>
      var entries := Eval(of, source);
      if entries.Err? then entries else Ok(Collected(entries.value, keys, []))
    case OneUnder(of, names) =>
      var entries := Eval(of, source);
      if entries.Err? then entries
      else
        var found := KeysAmong(entries.value, AllNames(names));
        if |found| > 1 then Err(Several(VariantsHeld(entries.value, names)))
        else Ok(Collected(entries.value, found, []))
    case WithoutFirst(of, names) =>
      var entries := Eval(of, source);
      if entries.Err? then entries
      else
        var found := KeysAmong(entries.value, names);
        Ok(if found == [] then entries.value else Removed(entries.value, found[0]))
  }

  function WithoutKeys(of: Expr, keys: seq<string>): Expr {
    if keys == [] then of else Without(of, keys)
  }

  // ----- the emitter -----

  function OwnNames(fields: seq<Member>): seq<string> {
    if fields == [] then []
    else (if fields[0].Own? then [fields[0].wireName] else []) + OwnNames(fields[1..])
  }

  function TagKeys(tag: Option<string>): seq<string> {
    if tag.Some? then [tag.value] else []
  }

  /** The keys of the holder's own. */
  function OwnKeys(fields: seq<Member>, tag: Option<string>): seq<string> {
    TagKeys(tag) + OwnNames(fields)
  }

  /** The expression a flattened member is read from: the whole object, or what it is `handed`. */
  function ReadOf(taken: Taken, readsTheWhole: bool, handed: Expr): Expr {
    match taken
    case FirstOf(names) => OneUnder(handed, names)
    case Keys(_) => if readsTheWhole then Source else handed
    case Only(keys) => OnlyUnder(handed, keys)
    case Tagged(_) => if readsTheWhole then Source else handed
  }

  method Pushed(takenAhead: seq<string>, taken: seq<string>) returns (more: seq<string>)
    ensures IsPushed(takenAhead, more, taken)
  {
    more := takenAhead;
    for i := 0 to |taken|
      invariant takenAhead <= more
      invariant forall key :: key in more <==> key in takenAhead || key in taken[..i]
      invariant forall k :: |takenAhead| <= k < |more| ==> more[k] in taken && more[k] !in takenAhead
    {
      if taken[i] !in more {
        more := more + [taken[i]];
      }
      assert taken[..i + 1] == taken[..i] + [taken[i]];
    }
  }

  /** A member of the holder's own is read from its key; a flattened one from an expression that is,
      for every object, what the reader hands it. */
  ghost predicate IsReadRight(argument: Argument, fields: seq<Member>, i: nat, tag: Option<string>)
    requires i < |fields|
  {
    if fields[i].Own? then argument == Keyed(fields[i].wireName)
    else argument.ReadFrom? && forall source :: IsMap(source) ==>
      Eval(argument.from, source) == HandedTo(fields, i, tag, source)
  }

  ghost predicate AreReadRight(arguments: seq<Argument>, fields: seq<Member>, tag: Option<string>) {
    |arguments| <= |fields| && forall i :: 0 <= i < |arguments| ==> IsReadRight(arguments[i], fields, i, tag)
  }

  /** `key` is the tag's, or that of a member of the holder's own. */
  ghost predicate IsHolders(fields: seq<Member>, tag: Option<string>, key: string) {
    tag == Some(key) || exists i :: 0 <= i < |fields| && fields[i] == Own(key)
  }

  /** The i-th member is read from the object as it came. */
  predicate SeesTheWhole(fields: seq<Member>, i: nat)
    requires i < |fields|
  {
    fields[i].Flattened? && fields[i].readsTheWhole && (fields[i].taken.Keys? || fields[i].taken.Tagged?)
  }

  /** A flattened member is read from the object as it came, or from entries of it none of which is the
      holder's own. */
  ghost predicate HandsNoneOfTheHolders(argument: Argument, fields: seq<Member>, i: nat, tag: Option<string>)
    requires i < |fields|
  {
    fields[i].Flattened? && argument.ReadFrom? ==>
      forall source, entry :: IsMap(source) && IsAnswered(argument.from, source, entry) ==>
        entry in source && (SeesTheWhole(fields, i) || !IsHolders(fields, tag, entry.key))
  }

  ghost predicate IsAnswered(e: Expr, source: seq<JsonEntry>, entry: JsonEntry) {
    Eval(e, source).Ok? && entry in Eval(e, source).value
  }

  /** One argument a field: from its key, or from the expression a flattened one is read from. */
  method ConstructorArguments(fields: seq<Member>, tag: Option<string>) returns (arguments: seq<Argument>)
    ensures |arguments| == |fields| && AreReadRight(arguments, fields, tag)
    ensures forall i :: 0 <= i < |fields| ==> HandsNoneOfTheHolders(arguments[i], fields, i, tag)
  {
    arguments := [];
    var takenAhead := OwnKeys(fields, tag);
    var source := Source;
    var removed: nat := 0;
    StandsAtFirst(fields, tag);
    for n := 0 to |fields|
      invariant Walked(arguments, source, takenAhead, removed, fields, n, tag)
    {
      WalkedPast(arguments, source, takenAhead, removed, fields, n, tag);
      match fields[n] {
        case Own(wireName) =>
          arguments := arguments + [Keyed(wireName)];
        case Flattened(taken, readsTheWhole) =>
          var handed := WithoutKeys(source, takenAhead[removed..]);
          arguments := arguments + [ReadFrom(ReadOf(taken, readsTheWhole, handed))];
          if taken.FirstOf? {
            source := WithoutFirst(handed, AllNames(taken.names));
            removed := |takenAhead|;
          } else {
            takenAhead := Pushed(takenAhead, taken.keys);
          }
      }
    }
    forall i | 0 <= i < |fields| ensures HandsNoneOfTheHolders(arguments[i], fields, i, tag) {
      ReadRightHandsNone(arguments[i], fields, i, tag);
    }
  }

  // ----- the reader -----

  /** `entries` without the first under one of `names`. */
  function AllButFirst(entries: seq<JsonEntry>, names: seq<string>): seq<JsonEntry> {
    if entries == [] then []
    else if entries[0].key in names then entries[1..]
    else [entries[0]] + AllButFirst(entries[1..], names)
  }

  function FirstUnder(entries: seq<JsonEntry>, names: seq<string>): seq<JsonEntry> {
    var under := Under(entries, names);
    if under == [] then [] else [under[0]]
  }

  /** What a type takes of what it is handed. */
  function Takes(taken: Taken, entries: seq<JsonEntry>): seq<JsonEntry> {
    match taken
    case FirstOf(names) => FirstUnder(entries, AllNames(names))
    case Keys(keys) => Under(entries, keys)
    case Only(keys) => Under(entries, keys)
    case Tagged(keys) => Under(entries, keys)
  }

  function Leaves(taken: Taken, entries: seq<JsonEntry>): seq<JsonEntry> {
    match taken
    case FirstOf(names) => AllButFirst(entries, AllNames(names))
    case Keys(keys) => Minus(entries, keys)
    case Only(keys) => Minus(entries, keys)
    case Tagged(keys) => Minus(entries, keys)
  }

  /** What the reader still holds once its tag, its own keys and its first `n` members are read. */
  function Remainder(fields: seq<Member>, n: nat, tag: Option<string>, source: seq<JsonEntry>): seq<JsonEntry>
    requires n <= |fields|
  {
    if n == 0 then Minus(source, OwnKeys(fields, tag))
    else
      var before := Remainder(fields, n - 1, tag, source);
      if fields[n - 1].Own? then before else Leaves(fields[n - 1].taken, before)
  }

  /** The entries under `keys`, in the order of `keys`: a key given twice counts once. */
  function Listed(entries: seq<JsonEntry>, keys: seq<string>): seq<JsonEntry> {
    if keys == [] then []
    else
      var last := |keys| - 1;
      var held := Held(entries, keys[last]);
      Listed(entries, keys[..last]) + if held.Some? && keys[last] !in keys[..last]
        then [Entry(keys[last], held.value)] else []
  }

  /** What the reader hands a flattened type that reads only from what is left. */
  function Handed(taken: Taken, left: seq<JsonEntry>): Evaluated {
    match taken
    case FirstOf(names) =>
      if |Under(left, AllNames(names))| > 1 then Err(Several(VariantsHeld(left, names)))
        else Ok(Under(left, AllNames(names)))
    case Only(keys) => Ok(Listed(left, keys))
    case Keys(_) => Ok(left)
    case Tagged(_) => Ok(left)
  }

  function HandedTo(fields: seq<Member>, i: nat, tag: Option<string>, source: seq<JsonEntry>): Evaluated
    requires i < |fields| && fields[i].Flattened?
  {
    if SeesTheWhole(fields, i) then Ok(source)
    else Handed(fields[i].taken, Remainder(fields, i, tag, source))
  }

  // ----- the walk keeps the reader's remainder -----

  /** `source` and the keys of `takenAhead` from `removed` on are what is left after `n` members, and
      none of the keys before is in `source` any more. */
  ghost predicate StandsFor(e: Expr, takenAhead: seq<string>, removed: nat, left: seq<JsonEntry>,
      source: seq<JsonEntry>) {
    && removed <= |takenAhead|
    && Eval(e, source).Ok?
    && IsMap(Eval(e, source).value)
    && Minus(Eval(e, source).value, takenAhead[removed..]) == left
    && forall entry :: entry in Eval(e, source).value ==> entry.key !in takenAhead[..removed]
  }

  ghost predicate Stands(e: Expr, takenAhead: seq<string>, removed: nat, fields: seq<Member>, n: nat,
      tag: Option<string>)
    requires n <= |fields|
  {
    removed <= |takenAhead| && forall source :: IsMap(source) ==>
      StandsFor(e, takenAhead, removed, Remainder(fields, n, tag, source), source)
  }

  lemma StandsAtFirst(fields: seq<Member>, tag: Option<string>)
    ensures Stands(Source, OwnKeys(fields, tag), 0, fields, 0, tag)
  {
    var keys := OwnKeys(fields, tag);
    assert keys[0..] == keys;
  }

  lemma StandsPastOwn(e: Expr, takenAhead: seq<string>, removed: nat, fields: seq<Member>, n: nat, tag: Option<string>)
    requires n < |fields| && fields[n].Own? && Stands(e, takenAhead, removed, fields, n, tag)
    ensures Stands(e, takenAhead, removed, fields, n + 1, tag)
  {
    forall source | IsMap(source)
      ensures StandsFor(e, takenAhead, removed, Remainder(fields, n + 1, tag, source), source)
    {
      assert StandsFor(e, takenAhead, removed, Remainder(fields, n, tag, source), source);
    }
  }

  lemma {:induction false} RemovedAllIsMinus(entries: seq<JsonEntry>, keys: seq<string>)
    requires IsMap(entries)
    ensures RemovedAll(entries, keys) == Minus(entries, keys)
    decreases |keys|
  {
    if keys == [] {
      MinusNothing(entries, keys);
    } else {
      RemovedIsMinus(entries, keys[0]);
      MinusIsMap(entries, [keys[0]]);
      RemovedAllIsMinus(Removed(entries, keys[0]), keys[1..]);
      MinusBoth(entries, [keys[0]], keys[1..]);
      assert [keys[0]] + keys[1..] == keys;
    }
  }

  ghost predicate NoneHeld(entries: seq<JsonEntry>, keys: seq<string>) {
    forall entry :: entry in entries ==> entry.key !in keys
  }

  /** The expression written for the n-th member is what the reader has left, where nothing is under
      a key taken ahead. */
  ghost predicate IsRemainder(handed: Expr, takenAhead: seq<string>, fields: seq<Member>, n: nat, tag: Option<string>)
    requires n <= |fields|
  {
    forall source :: IsMap(source) ==>
      && Eval(handed, source) == Ok(Remainder(fields, n, tag, source))
      && IsMap(Remainder(fields, n, tag, source))
      && NoneHeld(Remainder(fields, n, tag, source), takenAhead)
  }

  lemma WithoutLeaves(e: Expr, takenAhead: seq<string>, removed: nat, left: seq<JsonEntry>, source: seq<JsonEntry>)
    requires StandsFor(e, takenAhead, removed, left, source)
    ensures Eval(WithoutKeys(e, takenAhead[removed..]), source) == Ok(left)
    ensures IsMap(left) && NoneHeld(left, takenAhead)
  {
    var entries, keys := Eval(e, source).value, takenAhead[removed..];
    RemovedAllIsMinus(entries, keys);
    MinusIsMap(entries, keys);
    if keys == [] {
      MinusNothing(entries, []);
    }
    forall entry | entry in left ensures entry.key !in takenAhead {
      MinusHolds(entries, keys, entry);
      InEitherPart(takenAhead, removed, entry.key);
    }
  }

  lemma InEitherPart(keys: seq<string>, at: nat, key: string)
    requires at <= |keys|
    ensures key in keys <==> key in keys[..at] || key in keys[at..]
  {
    assert keys == keys[..at] + keys[at..];
  }

  lemma HandedIsRemainder(e: Expr, takenAhead: seq<string>, removed: nat, fields: seq<Member>, n: nat,
      tag: Option<string>)
    requires n < |fields| && Stands(e, takenAhead, removed, fields, n, tag)
    ensures IsRemainder(WithoutKeys(e, takenAhead[removed..]), takenAhead, fields, n, tag)
  {
    forall source | IsMap(source)
      ensures Eval(WithoutKeys(e, takenAhead[removed..]), source) == Ok(Remainder(fields, n, tag, source))
      ensures IsMap(Remainder(fields, n, tag, source))
      ensures NoneHeld(Remainder(fields, n, tag, source), takenAhead)
    {
      WithoutLeaves(e, takenAhead, removed, Remainder(fields, n, tag, source), source);
    }
  }

  /** `after` is `before` with those of `keys` that were not in it. */
  ghost predicate IsPushed(before: seq<string>, after: seq<string>, keys: seq<string>) {
    && before <= after
    && (forall key :: key in after <==> key in before || key in keys)
    && (forall i :: |before| <= i < |after| ==> after[i] in keys && after[i] !in before)
  }

  lemma StandsWithMore(e: Expr, before: seq<string>, after: seq<string>, removed: nat, left: seq<JsonEntry>,
      source: seq<JsonEntry>, keys: seq<string>)
    requires StandsFor(e, before, removed, left, source) && IsPushed(before, after, keys)
    ensures StandsFor(e, after, removed, Minus(left, keys), source)
  {
    var entries := Eval(e, source).value;
    assert after[..removed] == before[..removed];
    MinusBoth(entries, before[removed..], keys);
    forall entry | entry in entries
      ensures entry.key in after[removed..] <==> entry.key in before[removed..] + keys
    {
      InEitherPart(before, removed, entry.key);
      InEitherPart(after, removed, entry.key);
    }
    MinusAgrees(entries, after[removed..], before[removed..] + keys);
  }

  lemma StandsPastKeys(e: Expr, before: seq<string>, after: seq<string>, removed: nat, fields: seq<Member>, n: nat,
      tag: Option<string>)
    requires n < |fields| && fields[n].Flattened? && !fields[n].taken.FirstOf?
      && Stands(e, before, removed, fields, n, tag)
    requires IsPushed(before, after, fields[n].taken.keys)
    ensures Stands(e, after, removed, fields, n + 1, tag)
  {
    forall source | IsMap(source)
      ensures StandsFor(e, after, removed, Remainder(fields, n + 1, tag, source), source)
    {
      StandsWithMore(e, before, after, removed, Remainder(fields, n, tag, source), source, fields[n].taken.keys);
    }
  }

  lemma {:induction false} KeysAmongAreUnder(entries: seq<JsonEntry>, names: seq<string>)
    ensures |KeysAmong(entries, names)| == |Under(entries, names)|
    ensures forall i :: 0 <= i < |Under(entries, names)| ==>
      KeysAmong(entries, names)[i] == Under(entries, names)[i].key
  {
    if entries != [] {
      KeysAmongAreUnder(entries[1..], names);
    }
  }

  lemma {:induction false} FirstIsRemoved(entries: seq<JsonEntry>, names: seq<string>)
    requires IsMap(entries)
    ensures AllButFirst(entries, names)
         == if Under(entries, names) == [] then entries else Removed(entries, Under(entries, names)[0].key)
  {
    if entries != [] {
      FirstIsRemoved(entries[1..], names);
      if entries[0].key !in names && Under(entries, names) != [] {
        var first := Under(entries, names)[0];
        UnderHolds(entries, names, first);
        assert first.key != entries[0].key;
      }
    }
  }

  lemma AllButFirstIsMap(entries: seq<JsonEntry>, names: seq<string>)
    requires IsMap(entries)
    ensures IsMap(AllButFirst(entries, names))
    ensures forall entry :: entry in AllButFirst(entries, names) ==> entry in entries
  {
    FirstIsRemoved(entries, names);
    if Under(entries, names) == [] {
    } else {
      var key := Under(entries, names)[0].key;
      RemovedIsMinus(entries, key);
      MinusIsMap(entries, [key]);
      forall entry | entry in AllButFirst(entries, names) ensures entry in entries {
        MinusHolds(entries, [key], entry);
      }
    }
  }

  lemma StandsWithoutFirst(handed: Expr, takenAhead: seq<string>, left: seq<JsonEntry>, source: seq<JsonEntry>,
      names: seq<string>)
    requires Eval(handed, source) == Ok(left) && IsMap(left) && NoneHeld(left, takenAhead)
    ensures StandsFor(WithoutFirst(handed, names), takenAhead, |takenAhead|, AllButFirst(left, names), source)
  {
    KeysAmongAreUnder(left, names);
    FirstIsRemoved(left, names);
    AllButFirstIsMap(left, names);
    MinusNothing(AllButFirst(left, names), []);
    assert takenAhead[|takenAhead|..] == [] && takenAhead[..|takenAhead|] == takenAhead;
  }

  lemma StandsPastFirst(handed: Expr, e: Expr, takenAhead: seq<string>, fields: seq<Member>, n: nat,
      tag: Option<string>)
    requires n < |fields| && fields[n].Flattened? && fields[n].taken.FirstOf?
    requires IsRemainder(handed, takenAhead, fields, n, tag)
      && e == WithoutFirst(handed, AllNames(fields[n].taken.names))
    ensures Stands(e, takenAhead, |takenAhead|, fields, n + 1, tag)
  {
    forall source | IsMap(source)
      ensures StandsFor(e, takenAhead, |takenAhead|, Remainder(fields, n + 1, tag, source), source)
    {
      StandsWithoutFirst(handed, takenAhead, Remainder(fields, n, tag, source), source,
        AllNames(fields[n].taken.names));
    }
  }

  // ----- what each member reads is what the reader hands it -----

  lemma {:induction false} ListedHolds(entries: seq<JsonEntry>, keys: seq<string>, entry: JsonEntry)
    ensures entry in Listed(entries, keys) <==> entry.key in keys && Held(entries, entry.key) == Some(entry.value)
  {
    if keys != [] {
      var last := |keys| - 1;
      ListedHolds(entries, keys[..last], entry);
      assert keys == keys[..last] + [keys[last]];
    }
  }

  lemma {:induction false} PutIsNothingNew(entries: seq<JsonEntry>, key: string, value: Json)
    requires Entry(key, value) in entries && forall entry :: entry in entries && entry.key == key ==>
      entry.value == value
    ensures Put(entries, key, value) == entries
  {
    if entries[0].key == key {
      assert entries[0] in entries && entries[0] == Entry(key, value);
    } else {
      PutIsNothingNew(entries[1..], key, value);
    }
  }

  lemma {:induction false} CollectedIsListed(whole: seq<JsonEntry>, done: seq<string>, keys: seq<string>)
    ensures Collected(whole, keys, Listed(whole, done)) == Listed(whole, done + keys)
    decreases |keys|
  {
    if keys == [] {
      assert done + keys == done;
    } else {
      var more := done + [keys[0]];
      ListedOneMore(whole, done, keys[0]);
      CollectedIsListed(whole, more, keys[1..]);
      FirstMoves(done, keys);
    }
  }

  /** What is listed under one key more is what was, and the entry under that key put beside it. */
  lemma ListedOneMore(whole: seq<JsonEntry>, done: seq<string>, key: string)
    ensures Listed(whole, done + [key])
         == var held := Held(whole, key); if held.Some? then Put(Listed(whole, done), key, held.value)
           else Listed(whole, done)
  {
    var held, more := Held(whole, key), done + [key];
    assert more[..|more| - 1] == done;
    if held.Some? {
      var entry := Entry(key, held.value);
      ListedHolds(whole, done, entry);
      forall other | other in Listed(whole, done) ensures other.key in done && (other.key == key ==> other == entry) {
        ListedHolds(whole, done, other);
      }
      if key in done {
        PutIsNothingNew(Listed(whole, done), key, held.value);
      } else {
        PutAppends(Listed(whole, done), key, held.value);
      }
    }
  }

  lemma OneIsCollected(left: seq<JsonEntry>, names: seq<string>)
    requires IsMap(left) && |Under(left, names)| <= 1
    ensures Collected(left, KeysAmong(left, names), []) == Under(left, names)
  {
    var found, under := KeysAmong(left, names), Under(left, names);
    KeysAmongAreUnder(left, names);
    if under != [] {
      UnderHolds(left, names, under[0]);
      InIsHeld(left, under[0]);
      assert found[1..] == [] && under == [under[0]];
    }
  }

  lemma OneUnderIsRead(handed: Expr, names: seq<seq<string>>, left: seq<JsonEntry>, source: seq<JsonEntry>)
    requires Eval(handed, source) == Ok(left) && IsMap(left)
    ensures Eval(OneUnder(handed, names), source) == Handed(FirstOf(names), left)
  {
    KeysAmongAreUnder(left, AllNames(names));
    if |Under(left, AllNames(names))| <= 1 {
      OneIsCollected(left, AllNames(names));
    }
  }

  lemma OnlyUnderIsRead(handed: Expr, keys: seq<string>, left: seq<JsonEntry>, source: seq<JsonEntry>)
    requires Eval(handed, source) == Ok(left)
    ensures Eval(OnlyUnder(handed, keys), source) == Ok(Listed(left, keys))
  {
    CollectedIsListed(left, [], keys);
    assert [] + keys == keys;
  }

  lemma HandedIsRead(handed: Expr, taken: Taken, left: seq<JsonEntry>, source: seq<JsonEntry>)
    requires Eval(handed, source) == Ok(left) && IsMap(left)
    ensures Eval(ReadOf(taken, false, handed), source) == Handed(taken, left)
  {
    match taken
    case FirstOf(names) => OneUnderIsRead(handed, names, left, source);
    case Only(keys) => OnlyUnderIsRead(handed, keys, left, source);
    case _ =>
  }

  lemma OneMoreRead(handed: Expr, takenAhead: seq<string>, arguments: seq<Argument>, fields: seq<Member>,
      tag: Option<string>)
    requires AreReadRight(arguments, fields, tag)
    requires |arguments| < |fields| && fields[|arguments|].Flattened?
      && IsRemainder(handed, takenAhead, fields, |arguments|, tag)
    ensures var field := fields[|arguments|];
      AreReadRight(arguments + [ReadFrom(ReadOf(field.taken, field.readsTheWhole, handed))], fields, tag)
  {
    MemberIsRead(handed, takenAhead, fields, |arguments|, tag);
  }

  lemma MemberIsRead(handed: Expr, takenAhead: seq<string>, fields: seq<Member>, n: nat, tag: Option<string>)
    requires n < |fields| && fields[n].Flattened? && IsRemainder(handed, takenAhead, fields, n, tag)
    ensures IsReadRight(ReadFrom(ReadOf(fields[n].taken, fields[n].readsTheWhole, handed)), fields, n, tag)
  {
    var field := fields[n];
    forall source | IsMap(source) ensures Eval(ReadOf(field.taken, field.readsTheWhole, handed), source)
      == HandedTo(fields, n, tag, source) {
      HandedIsRead(handed, field.taken, Remainder(fields, n, tag, source), source);
    }
  }

  lemma OneMoreKeyed(arguments: seq<Argument>, fields: seq<Member>, tag: Option<string>)
    requires AreReadRight(arguments, fields, tag)
    requires |arguments| < |fields| && fields[|arguments|].Own?
    ensures AreReadRight(arguments + [Keyed(fields[|arguments|].wireName)], fields, tag)
  {
  }

  /** Where the walk stands after `n` members. */
  ghost predicate Walked(arguments: seq<Argument>, e: Expr, takenAhead: seq<string>, removed: nat,
      fields: seq<Member>, n: nat, tag: Option<string>)
    requires n <= |fields|
  {
    |arguments| == n && AreReadRight(arguments, fields, tag) && Stands(e, takenAhead, removed, fields, n, tag)
  }

  lemma WalkedPast(arguments: seq<Argument>, e: Expr, takenAhead: seq<string>, removed: nat, fields: seq<Member>,
      n: nat, tag: Option<string>)
    requires n < |fields| && Walked(arguments, e, takenAhead, removed, fields, n, tag)
    ensures removed <= |takenAhead|
    ensures var handed := WithoutKeys(e, takenAhead[removed..]);
      match fields[n]
      case Own(wireName) => Walked(arguments + [Keyed(wireName)], e, takenAhead, removed, fields, n + 1, tag)
      case Flattened(taken, whole) =>
        var more := arguments + [ReadFrom(ReadOf(taken, whole, handed))];
        if taken.FirstOf? then Walked(more, WithoutFirst(handed, AllNames(taken.names)), takenAhead, |takenAhead|,
          fields, n + 1, tag)
        else forall after :: IsPushed(takenAhead, after, taken.keys) ==>
          Walked(more, e, after, removed, fields, n + 1, tag)
  {
    if fields[n].Own? {
      OneMoreKeyed(arguments, fields, tag);
      StandsPastOwn(e, takenAhead, removed, fields, n, tag);
    } else {
      var handed, taken := WithoutKeys(e, takenAhead[removed..]), fields[n].taken;
      HandedIsRemainder(e, takenAhead, removed, fields, n, tag);
      OneMoreRead(handed, takenAhead, arguments, fields, tag);
      if taken.FirstOf? {
        StandsPastFirst(handed, WithoutFirst(handed, AllNames(taken.names)), takenAhead, fields, n, tag);
      } else {
        forall after | IsPushed(takenAhead, after, taken.keys) ensures Stands(e, after, removed, fields, n + 1, tag) {
          StandsPastKeys(e, takenAhead, after, removed, fields, n, tag);
        }
      }
    }
  }

  // ----- no entry twice -----

  /** What the i-th member takes of the object. */
  function TakenBy(fields: seq<Member>, i: nat, tag: Option<string>, source: seq<JsonEntry>): seq<JsonEntry>
    requires i < |fields|
  {
    if fields[i].Own? then [] else Takes(fields[i].taken, Remainder(fields, i, tag, source))
  }

  /** What a type leaves is what is under none of some keys, and what it takes is under one of them. */
  lemma LeavesIsMinus(taken: Taken, entries: seq<JsonEntry>) returns (gone: seq<string>)
    requires IsMap(entries)
    ensures Leaves(taken, entries) == Minus(entries, gone)
    ensures forall entry :: entry in Takes(taken, entries) <==> entry in entries && entry.key in gone
  {
    match taken {
      case FirstOf(names) =>
        gone := FirstIsMinus(entries, AllNames(names));
      case _ =>
        gone := taken.keys;
        forall entry ensures entry in Under(entries, gone) <==> entry in entries && entry.key in gone {
          UnderHolds(entries, gone, entry);
        }
    }
  }

  lemma FirstIsMinus(entries: seq<JsonEntry>, names: seq<string>) returns (gone: seq<string>)
    requires IsMap(entries)
    ensures AllButFirst(entries, names) == Minus(entries, gone)
    ensures forall entry :: entry in FirstUnder(entries, names) <==> entry in entries && entry.key in gone
  {
    var under := Under(entries, names);
    FirstIsRemoved(entries, names);
    if under == [] {
      gone := [];
      MinusNothing(entries, gone);
    } else {
      gone := [under[0].key];
      RemovedIsMinus(entries, under[0].key);
      UnderHolds(entries, names, under[0]);
      InIsHeld(entries, under[0]);
      forall entry | entry in entries && entry.key == under[0].key ensures entry == under[0] {
        InIsHeld(entries, entry);
      }
    }
  }

  lemma {:induction false} RemainderIsMinus(fields: seq<Member>, n: nat, tag: Option<string>,
      source: seq<JsonEntry>) returns (gone: seq<string>)
    requires n <= |fields| && IsMap(source)
    ensures Remainder(fields, n, tag, source) == Minus(source, gone)
    ensures IsMap(Remainder(fields, n, tag, source))
  {
    if n == 0 {
      gone := OwnKeys(fields, tag);
    } else {
      gone := RemainderIsMinus(fields, n - 1, tag, source);
      if fields[n - 1].Flattened? {
        var more := LeavesIsMinus(fields[n - 1].taken, Remainder(fields, n - 1, tag, source));
        MinusBoth(source, gone, more);
        gone := gone + more;
      }
    }
    MinusIsMap(source, gone);
  }

  lemma {:induction false} OwnNamesAreOwn(fields: seq<Member>, key: string)
    ensures key in OwnNames(fields) <==> exists i :: 0 <= i < |fields| && fields[i] == Own(key)
  {
    if fields != [] {
      OwnNamesAreOwn(fields[1..], key);
      if i :| 0 <= i < |fields| && fields[i] == Own(key) {
        assert i > 0 ==> fields[1..][i - 1] == Own(key);
      }
      if i :| 0 <= i < |fields[1..]| && fields[1..][i] == Own(key) {
        assert fields[i + 1] == Own(key);
      }
    }
  }

  lemma OwnKeysAreTheHolders(fields: seq<Member>, tag: Option<string>, key: string)
    ensures key in OwnKeys(fields, tag) <==> IsHolders(fields, tag, key)
  {
    OwnNamesAreOwn(fields, key);
  }

  lemma {:induction false} NamesOfSome(names: seq<seq<string>>, key: string)
    ensures key in AllNames(names) <==> exists v :: 0 <= v < |names| && key in names[v]
  {
    if names != [] {
      NamesOfSome(names[1..], key);
      if v :| 0 <= v < |names| && key in names[v] {
        assert v > 0 ==> names[1..][v - 1] == names[v];
      }
      if v :| 0 <= v < |names[1..]| && key in names[1..][v] {
        assert names[v + 1] == names[1..][v];
      }
    }
  }

  /** The refusal of several variants names each of which some name is held, by its first name. */
  lemma {:induction false} SeveralAreHeld(whole: seq<JsonEntry>, names: seq<seq<string>>, name: string)
    requires forall v :: 0 <= v < |names| ==> names[v] != []
    ensures name in VariantsHeld(whole, names)
       <==> exists v :: 0 <= v < |names| && names[v][0] == name && IsHeldByName(whole, names[v])
  {
    if names != [] {
      var rest := names[1..];
      SeveralAreHeld(whole, rest, name);
      if v :| 0 <= v < |names| && names[v][0] == name && IsHeldByName(whole, names[v]) {
        assert v > 0 ==> rest[v - 1] == names[v];
      }
      if v :| 0 <= v < |rest| && rest[v][0] == name && IsHeldByName(whole, rest[v]) {
        assert names[v + 1] == rest[v];
      }
    }
  }

  ghost predicate IsHeldByName(whole: seq<JsonEntry>, names: seq<string>) {
    exists entry :: entry in whole && entry.key in names
  }

  /** A member takes what is left to it under its keys, or the first of what is left that a variant's
      name names. */
  ghost predicate IsTaken(taken: Taken, entries: seq<JsonEntry>, entry: JsonEntry) {
    match taken
    case FirstOf(names) =>
      exists i :: 0 <= i < |entries| && entries[i] == entry && IsNamed(names, entry.key)
        && forall k :: 0 <= k < i ==> !IsNamed(names, entries[k].key)
    case _ => entry in entries && entry.key in taken.keys
  }

  ghost predicate IsNamed(names: seq<seq<string>>, key: string) {
    exists v :: 0 <= v < |names| && key in names[v]
  }

  lemma {:induction false} FirstIsNamed(entries: seq<JsonEntry>, names: seq<seq<string>>, entry: JsonEntry)
    ensures entry in FirstUnder(entries, AllNames(names)) <==> IsTaken(FirstOf(names), entries, entry)
  {
    if entries != [] {
      NamesOfSome(names, entries[0].key);
      NamesOfSome(names, entry.key);
      var rest := entries[1..];
      if IsNamed(names, entries[0].key) {
        assert FirstUnder(entries, AllNames(names)) == [entries[0]];
      } else {
        FirstIsNamed(rest, names, entry);
        if IsTaken(FirstOf(names), entries, entry) {
          var i :| 0 <= i < |entries| && entries[i] == entry && IsNamed(names, entry.key)
            && forall k :: 0 <= k < i ==> !IsNamed(names, entries[k].key);
          assert rest[i - 1] == entry && forall k :: 0 <= k < i - 1 ==> rest[k] == entries[k + 1];
        }
        if IsTaken(FirstOf(names), rest, entry) {
          var i :| 0 <= i < |rest| && rest[i] == entry && forall k :: 0 <= k < i ==> !IsNamed(names, rest[k].key);
          assert entries[i + 1] == entry && forall k :: 1 <= k < i + 1 ==> entries[k] == rest[k - 1];
        }
      }
    }
  }

  lemma TakesIsTaken(taken: Taken, entries: seq<JsonEntry>, entry: JsonEntry)
    ensures entry in Takes(taken, entries) <==> IsTaken(taken, entries, entry)
  {
    match taken
    case FirstOf(names) => FirstIsNamed(entries, names, entry);
    case _ => UnderHolds(entries, taken.keys, entry);
  }

  /** What is left after `n` members is, of the object, what is neither the holder's own nor taken by
      one of them of what was left to it. */
  lemma {:induction false} RemainderIsTheRest(fields: seq<Member>, n: nat, tag: Option<string>,
      source: seq<JsonEntry>, entry: JsonEntry)
    requires n <= |fields| && IsMap(source)
    ensures entry in Remainder(fields, n, tag, source)
       <==>
         && entry in source && !IsHolders(fields, tag, entry.key)
         && forall k :: 0 <= k < n ==> !TookIt(fields, k, tag, source, entry)
  {
    if n == 0 {
      OwnKeysAreTheHolders(fields, tag, entry.key);
      MinusHolds(source, OwnKeys(fields, tag), entry);
    } else {
      RemainderIsTheRest(fields, n - 1, tag, source, entry);
      RestOrTook(fields, n - 1, tag, source, entry);
    }
  }

  /** The k-th member takes the entry of what was left to it. */
  ghost predicate TookIt(fields: seq<Member>, k: nat, tag: Option<string>, source: seq<JsonEntry>, entry: JsonEntry)
    requires k < |fields|
  {
    fields[k].Flattened? && IsTaken(fields[k].taken, Remainder(fields, k, tag, source), entry)
  }

  lemma RestOrTook(fields: seq<Member>, k: nat, tag: Option<string>, source: seq<JsonEntry>, entry: JsonEntry)
    requires k < |fields| && IsMap(source)
    ensures entry in Remainder(fields, k + 1, tag, source)
       <==> entry in Remainder(fields, k, tag, source) && !TookIt(fields, k, tag, source, entry)
  {
    TakenOrLeft(fields, k, tag, source, entry);
    if fields[k].Flattened? {
      TakesIsTaken(fields[k].taken, Remainder(fields, k, tag, source), entry);
    }
  }

  lemma ReadRightHandsNone(argument: Argument, fields: seq<Member>, i: nat, tag: Option<string>)
    requires i < |fields| && IsReadRight(argument, fields, i, tag)
    ensures HandsNoneOfTheHolders(argument, fields, i, tag)
  {
    forall source, entry |
      fields[i].Flattened? && argument.ReadFrom? && IsMap(source) && IsAnswered(argument.from, source, entry)
      ensures entry in source && (SeesTheWhole(fields, i) || !IsHolders(fields, tag, entry.key))
    {
      if !SeesTheWhole(fields, i) {
        HandedIsLeft(fields[i].taken, Remainder(fields, i, tag, source), entry);
        RemainderIsTheRest(fields, i, tag, source, entry);
      }
    }
  }

  /** What is handed over is some of what is left. */
  lemma HandedIsLeft(taken: Taken, left: seq<JsonEntry>, entry: JsonEntry)
    requires Handed(taken, left).Ok? && entry in Handed(taken, left).value
    ensures entry in left
  {
    match taken
    case FirstOf(names) => UnderHolds(left, AllNames(names), entry);
    case Only(keys) =>
      ListedHolds(left, keys, entry);
      HeldIsIn(left, entry.key);
    case _ =>
  }

  lemma {:induction false} HeldIsIn(entries: seq<JsonEntry>, key: string)
    ensures Held(entries, key).Some? ==> Entry(key, Held(entries, key).value) in entries
  {
    if entries != [] && entries[0].key != key {
      HeldIsIn(entries[1..], key);
    }
  }

  /** What a reader makes of an entry: the tag or a member of the holder's own, a part of the value of
      a flattened member, or nothing. */
  datatype Place = HoldersOwn | PartOf(member: nat) | LeftOver

  ghost predicate IsAt(place: Place, entry: JsonEntry, fields: seq<Member>, n: nat, tag: Option<string>,
      source: seq<JsonEntry>)
    requires n <= |fields|
  {
    match place
    case HoldersOwn => entry in source && IsHolders(fields, tag, entry.key)
    case PartOf(i) => i < n && entry in TakenBy(fields, i, tag, source)
    case LeftOver => entry in Remainder(fields, n, tag, source)
  }

  /** Each entry of the object has one place and no other, and no entry comes from elsewhere. */
  lemma {:induction false} EachEntryOnce(fields: seq<Member>, n: nat, tag: Option<string>, source: seq<JsonEntry>,
      entry: JsonEntry) returns (place: Place)
    requires n <= |fields| && IsMap(source)
    ensures entry in source ==> IsAt(place, entry, fields, n, tag, source)
    ensures forall other :: IsAt(other, entry, fields, n, tag, source) ==> entry in source && other == place
  {
    if n == 0 {
      MinusHolds(source, OwnKeys(fields, tag), entry);
      OwnKeysAreTheHolders(fields, tag, entry.key);
      place := if entry.key in OwnKeys(fields, tag) then HoldersOwn else LeftOver;
    } else {
      var before := EachEntryOnce(fields, n - 1, tag, source, entry);
      place := OneMoreTakes(fields, n - 1, tag, source, entry, before);
    }
  }

  /** `entry` is at `place` where it is an entry of the object, and nowhere else. */
  ghost predicate IsOnlyAt(place: Place, entry: JsonEntry, fields: seq<Member>, n: nat, tag: Option<string>,
      source: seq<JsonEntry>)
    requires n <= |fields|
  {
    && (entry in source ==> IsAt(place, entry, fields, n, tag, source))
    && forall other :: IsAt(other, entry, fields, n, tag, source) ==> entry in source && other == place
  }

  /** With one member more, an entry is that member's part where it was left over and is taken, and
      stays where it was otherwise. */
  lemma OneMoreTakes(fields: seq<Member>, n: nat, tag: Option<string>, source: seq<JsonEntry>, entry: JsonEntry,
      before: Place) returns (place: Place)
    requires n < |fields| && IsMap(source)
    requires IsOnlyAt(before, entry, fields, n, tag, source)
    ensures IsOnlyAt(place, entry, fields, n + 1, tag, source)
  {
    var next := n + 1;
    TakenOrLeft(fields, n, tag, source, entry);
    if entry in TakenBy(fields, n, tag, source) {
      assert IsAt(LeftOver, entry, fields, n, tag, source);
      place := PartOf(n);
    } else {
      place := before;
    }
    forall other | IsAt(other, entry, fields, next, tag, source) ensures entry in source && other == place {
      if other != PartOf(n) {
        assert IsAt(other, entry, fields, n, tag, source);
      }
    }
  }

  lemma TakenOrLeft(fields: seq<Member>, i: nat, tag: Option<string>, source: seq<JsonEntry>, entry: JsonEntry)
    requires i < |fields| && IsMap(source)
    ensures entry in Remainder(fields, i, tag, source)
       <==> entry in TakenBy(fields, i, tag, source) || entry in Remainder(fields, i + 1, tag, source)
    ensures !(entry in TakenBy(fields, i, tag, source) && entry in Remainder(fields, i + 1, tag, source))
  {
    if fields[i].Flattened? {
      var before := Remainder(fields, i, tag, source);
      var _ := RemainderIsMinus(fields, i, tag, source);
      var gone := LeavesIsMinus(fields[i].taken, before);
      MinusHolds(before, gone, entry);
    }
  }

  // ----- a member that reads the whole object -----

  /** What a member that reads the whole object sees under its keys is what it takes, but for the
      entries the tag, the holder's own or a member before it took: it sees those again. */
  lemma TheWholeShowsMore(fields: seq<Member>, i: nat, tag: Option<string>, source: seq<JsonEntry>)
    requires i < |fields| && fields[i].Flattened? && !fields[i].taken.FirstOf? && IsMap(source)
    ensures var keys := fields[i].taken.keys;
      Under(source, keys) == TakenBy(fields, i, tag, source)
      <==> forall entry :: entry in source && entry.key in keys ==> entry in Remainder(fields, i, tag, source)
  {
    var left, keys := Remainder(fields, i, tag, source), fields[i].taken.keys;
    var gone := RemainderIsMinus(fields, i, tag, source);
    forall entry ensures entry in left <==> entry in source && entry.key !in gone {
      MinusHolds(source, gone, entry);
    }
    if forall entry :: entry in source && entry.key in keys ==> entry in left {
      UnderMinus(source, gone, keys);
    } else {
      var entry :| entry in source && entry.key in keys && entry !in left;
      UnderHolds(source, keys, entry);
      UnderHolds(left, keys, entry);
    }
  }

  lemma {:induction false} UnderMinus(entries: seq<JsonEntry>, gone: seq<string>, keys: seq<string>)
    requires forall entry :: entry in entries && entry.key in keys ==> entry.key !in gone
    ensures Under(Minus(entries, gone), keys) == Under(entries, keys)
  {
    if entries != [] {
      UnderMinus(entries[1..], gone, keys);
    }
  }
}
