/** The sealed Dart class of a tagged enum: what each variant's `toJson` writes under the three
    taggings, and the base class's dispatch, which reads it back. */
module DartTagged {
  import opened Wrappers
  import opened DartMaps
  import opened DartJson

  /** A payload's own write and read; the read answers none where it throws. */
  datatype Codec<!V> = Codec(write: V -> Json, read: Json -> Option<V>)

  datatype NamedField<!V> = NamedField(wireName: string, codec: Codec<V>)

  /** `writesAName`: an externally tagged enum, whose unit variants it writes as bare names.
      `readsAUnit`: a value read from `null`, which an absent key would pass for. */
  datatype Payload<!V> =
    | UnitPayload
    | NamedPayload(fields: seq<NamedField<V>>)
    | ValuePayload(codec: Codec<V>, writesAName: bool, readsAUnit: bool)

  datatype Variant<!V> = Variant(wireTag: string, aliases: seq<string>, payload: Payload<V>)

  datatype Tagging = External | Internal(tag: string) | Adjacent(tag: string, content: string)

  datatype Held<V> = UnitHeld | NamedHeld(values: seq<V>) | ValueHeld(value: V)

  datatype Read<V> = Read(variant: nat, held: Held<V>)

  function Names<V>(variant: Variant<V>): seq<string> {
    [variant.wireTag] + variant.aliases
  }

  // ----- writing -----

  /** The literal `{...base, k: v, ...}`: a key written again keeps its place and takes the later value. */
  function Spread(base: seq<JsonEntry>, more: seq<JsonEntry>): seq<JsonEntry>
    decreases |more|
  {
    if more == [] then base else Spread(Put(base, more[0].key, more[0].value), more[1..])
  }

  function FieldEntries<V>(fields: seq<NamedField<V>>, values: seq<V>): seq<JsonEntry>
    requires |fields| == |values|
  {
    if fields == [] then []
    else [Entry(fields[0].wireName, fields[0].codec.write(values[0]))] + FieldEntries(fields[1..], values[1..])
  }

  predicate Fits<V>(payload: Payload<V>, held: Held<V>) {
    match payload
    case UnitPayload => held.UnitHeld?
    case NamedPayload(fields) => held.NamedHeld? && |held.values| == |fields|
    case ValuePayload(_, _, _) => held.ValueHeld?
  }

  /** The entries a written value adds to the object it joins: a bare name as an entry over `null`. */
  function JoinedEntries(writesAName: bool, written: Json): Option<seq<JsonEntry>> {
    if writesAName && written.Text? then Some([Entry(written.text, Null)])
    else if written.Object? then Some(written.entries)
    else None
  }

  /** What the value's own write is, beside no tag. */
  function OwnWrite<V>(payload: Payload<V>, held: Held<V>): Json
    requires Fits(payload, held) && !payload.UnitPayload?
  {
    match payload
    case NamedPayload(fields) => Object(Spread([], FieldEntries(fields, held.values)))
    case ValuePayload(codec, _, _) => codec.write(held.value)
  }

  /** The variant's JSON with its name written as `name`, and none where joining the payload to the
      tag's object throws. */
  function WrittenAs<V>(name: string, payload: Payload<V>, tagging: Tagging, held: Held<V>): Option<Json>
    requires Fits(payload, held)
  {
    match tagging
    case External => Some(if payload.UnitPayload? then Text(name) else Object([Entry(name, OwnWrite(payload, held))]))
    case Adjacent(tag, content) =>
      Some(Object(if payload.UnitPayload? then [Entry(tag, Text(name))]
                  else Spread([Entry(tag, Text(name))], [Entry(content, OwnWrite(payload, held))])))
    case Internal(tag) =>
      match payload
      case UnitPayload => Some(Object([Entry(tag, Text(name))]))
      case NamedPayload(fields) => Some(Object(Spread([Entry(tag, Text(name))], FieldEntries(fields, held.values))))
      case ValuePayload(codec, writesAName, _) =>
        var joined := JoinedEntries(writesAName, codec.write(held.value));
        if joined.None? then None else Some(Object(Spread([Entry(tag, Text(name))], joined.value)))
  }

  /** `toJson` */
  function ToJson<V>(variant: Variant<V>, tagging: Tagging, held: Held<V>): Option<Json>
    requires Fits(variant.payload, held)
  {
    WrittenAs(variant.wireTag, variant.payload, tagging, held)
  }

  // ----- reading -----

  function At(entries: seq<JsonEntry>, key: string): Json {
    var held := DartMaps.Held(entries, key);
    if held.Some? then held.value else Null
  }

  /** Each member from its key. */
  function ReadFields<V>(fields: seq<NamedField<V>>, entries: seq<JsonEntry>): Option<seq<V>> {
    if fields == [] then Some([])
    else
      var first, rest := fields[0].codec.read(At(entries, fields[0].wireName)), ReadFields(fields[1..], entries);
      if first.Some? && rest.Some? then Some([first.value] + rest.value) else None
  }

  function ReadNamed<V>(fields: seq<NamedField<V>>, source: Json): Option<Held<V>> {
    if !source.Object? then None
    else
      var values := ReadFields(fields, source.entries);
      if values.Some? then Some(NamedHeld(values.value)) else None
  }

  function ReadValue<V>(codec: Codec<V>, source: Json): Option<Held<V>> {
    var value := codec.read(source);
    if value.Some? then Some(ValueHeld(value.value)) else None
  }

  /** The first variant `wanted` names among those `among` answers for. */
  function Dispatched<V>(variants: seq<Variant<V>>, wanted: string, among: Variant<V> -> bool): (at: Option<nat>)
    ensures at.Some? ==> at.value < |variants| && wanted in Names(variants[at.value]) && among(variants[at.value])
  {
    if variants == [] then None
    else if wanted in Names(variants[0]) && among(variants[0]) then Some(0)
    else
      var rest := Dispatched(variants[1..], wanted, among);
      if rest.None? then None else Some(rest.value + 1)
  }

  function ReadExternal<V>(variant: Variant<V>, entries: seq<JsonEntry>, tag: string): Option<Held<V>> {
    var source := At(entries, tag);
    match variant.payload
    case UnitPayload => if source == Null then Some(UnitHeld) else None
    case NamedPayload(fields) => ReadNamed(fields, source)
    case ValuePayload(codec, _, _) => ReadValue(codec, source)
  }

  function ReadInternal<V>(variant: Variant<V>, entries: seq<JsonEntry>, tagKey: string): Option<Held<V>> {
    match variant.payload
    case UnitPayload => Some(UnitHeld)
    case NamedPayload(fields) => ReadNamed(fields, Object(entries))
    case ValuePayload(codec, _, _) => ReadValue(codec, Object(Removed(entries, tagKey)))
  }

  function ReadAdjacent<V>(variant: Variant<V>, entries: seq<JsonEntry>, content: string): Option<Held<V>> {
    var held := DartMaps.Held(entries, content);
    match variant.payload
    case UnitPayload => if held.Some? then None else Some(UnitHeld)
    case NamedPayload(fields) => ReadNamed(fields, At(entries, content))
    case ValuePayload(codec, _, readsAUnit) =>
      if readsAUnit && held.None? then None else ReadValue(codec, At(entries, content))
  }

  function Answer<V>(at: nat, held: Option<Held<V>>): Option<Read<V>> {
    if held.Some? then Some(Read(at, held.value)) else None
  }

  predicate IsUnitVariant<V>(variant: Variant<V>) {
    variant.payload.UnitPayload?
  }

  /** The base class's dispatch; none where it throws. */
  function FromJson<V>(variants: seq<Variant<V>>, tagging: Tagging, json: Json): Option<Read<V>> {
    match tagging
    case External =>
      if json.Text? then
        var at := Dispatched(variants, json.text, IsUnitVariant);
        if at.None? then None else Some(Read(at.value, UnitHeld))
      else if !json.Object? || |json.entries| != 1 then None
      else
        var tag := json.entries[0].key;
        var at := Dispatched(variants, tag, variant => true);
        if at.None? then None else Answer(at.value, ReadExternal(variants[at.value], json.entries, tag))
    case Internal(tagKey) =>
      if !json.Object? || !At(json.entries, tagKey).Text? then None
      else
        var at := Dispatched(variants, At(json.entries, tagKey).text, variant => true);
        if at.None? then None else Answer(at.value, ReadInternal(variants[at.value], json.entries, tagKey))
    case Adjacent(tagKey, content) =>
      if !json.Object? || !At(json.entries, tagKey).Text? then None
      else
        var at := Dispatched(variants, At(json.entries, tagKey).text, variant => true);
        if at.None? then None else Answer(at.value, ReadAdjacent(variants[at.value], json.entries, content))
  }

  // ----- what an enum and its payloads must be -----

  /** No two variants answer to one name. */
  ghost predicate DistinctNames<V>(variants: seq<Variant<V>>) {
    forall i, j, name :: 0 <= i < j < |variants| && name in Names(variants[i]) ==> name !in Names(variants[j])
  }

  ghost predicate DistinctWireNames<V>(fields: seq<NamedField<V>>) {
    forall i, j :: 0 <= i < j < |fields| ==> fields[i].wireName != fields[j].wireName
  }

  /** The payload's reads undo its writes at `held`. */
  ghost predicate Inverse<V>(payload: Payload<V>, held: Held<V>)
    requires Fits(payload, held)
  {
    match payload
    case UnitPayload => true
    case NamedPayload(fields) =>
      DistinctWireNames(fields) && forall i :: 0 <= i < |fields| ==>
        fields[i].codec.read(fields[i].codec.write(held.values[i])) == Some(held.values[i])
    case ValuePayload(codec, _, _) => codec.read(codec.write(held.value)) == Some(held.value)
  }

  /** What joins the tag's object is entries under other keys, from which the payload reads as it does
      from its own write. */
  ghost predicate Joins<V>(payload: Payload<V>, held: Held<V>, tag: string)
    requires Fits(payload, held)
  {
    match payload
    case UnitPayload => true
    case NamedPayload(fields) => forall i :: 0 <= i < |fields| ==> fields[i].wireName != tag
    case ValuePayload(codec, writesAName, _) =>
      var joined := JoinedEntries(writesAName, codec.write(held.value));
      && joined.Some?
      && IsMap([Entry(tag, Null)] + joined.value)
      && codec.read(Object(joined.value)) == Some(held.value)
  }

  ghost predicate Readable<V>(payload: Payload<V>, tagging: Tagging, held: Held<V>)
    requires Fits(payload, held)
  {
    && Inverse(payload, held)
    && match tagging
       case External => true
       case Internal(tag) => Joins(payload, held, tag)
       case Adjacent(tag, content) => tag != content
  }

  // ----- the round trip -----

  lemma {:induction false} DispatchFinds<V>(variants: seq<Variant<V>>, i: nat, name: string, among: Variant<V> -> bool)
    requires DistinctNames(variants) && i < |variants| && name in Names(variants[i]) && among(variants[i])
    ensures Dispatched(variants, name, among) == Some(i)
  {
    if i > 0 {
      assert name !in Names(variants[0]);
      forall a, b, n | 0 <= a < b < |variants[1..]|
        && n in Names(variants[1..][a]) ensures n !in Names(variants[1..][b]) {
        assert variants[1..][a] == variants[a + 1] && variants[1..][b] == variants[b + 1];
      }
      DispatchFinds(variants[1..], i - 1, name, among);
    }
  }

  lemma {:induction false} SpreadAppends(base: seq<JsonEntry>, more: seq<JsonEntry>)
    requires IsMap(base + more)
    ensures Spread(base, more) == base + more
    decreases |more|
  {
    if more != [] {
      var all := base + more;
      forall i | 0 <= i < |base| ensures base[i].key != more[0].key {
        assert all[i] == base[i] && all[|base|] == more[0];
      }
      PutAppends(base, more[0].key, more[0].value);
      assert base + [more[0]] + more[1..] == all;
      SpreadAppends(base + [more[0]], more[1..]);
    }
  }

  lemma {:induction false} FieldEntriesAt<V>(fields: seq<NamedField<V>>, values: seq<V>)
    requires |fields| == |values|
    ensures |FieldEntries(fields, values)| == |fields|
    ensures forall i :: 0 <= i < |fields| ==>
      FieldEntries(fields, values)[i] == Entry(fields[i].wireName, fields[i].codec.write(values[i]))
  {
    if fields != [] {
      FieldEntriesAt(fields[1..], values[1..]);
      forall i | 0 <= i < |fields|
        ensures FieldEntries(fields, values)[i] == Entry(fields[i].wireName, fields[i].codec.write(values[i]))
      {
        if i > 0 {
          assert fields[i] == fields[1..][i - 1] && values[i] == values[1..][i - 1];
        }
      }
    }
  }

  lemma {:induction false} FieldsReadBack<V>(fields: seq<NamedField<V>>, values: seq<V>, entries: seq<JsonEntry>)
    requires |fields| == |values|
    requires forall i :: 0 <= i < |fields| ==>
      At(entries, fields[i].wireName) == fields[i].codec.write(values[i])
        && fields[i].codec.read(fields[i].codec.write(values[i])) == Some(values[i])
    ensures ReadFields(fields, entries) == Some(values)
  {
    if fields != [] {
      forall i | 0 <= i < |fields[1..]|
        ensures At(entries, fields[1..][i].wireName) == fields[1..][i].codec.write(values[1..][i])
        ensures fields[1..][i].codec.read(fields[1..][i].codec.write(values[1..][i])) == Some(values[1..][i])
      {
        assert fields[1..][i] == fields[i + 1] && values[1..][i] == values[i + 1];
      }
      FieldsReadBack(fields[1..], values[1..], entries);
      assert values == [values[0]] + values[1..];
    }
  }

  /** Members written after `ahead`, whose keys are none of theirs, read back from the whole object. */
  lemma NamedReadsBack<V>(fields: seq<NamedField<V>>, values: seq<V>, ahead: seq<JsonEntry>)
    requires |fields| == |values| && Inverse(NamedPayload(fields), NamedHeld(values)) && |ahead| <= 1
    requires forall i, k :: 0 <= i < |fields| && 0 <= k < |ahead| ==> fields[i].wireName != ahead[k].key
    ensures var entries := Spread(ahead, FieldEntries(fields, values));
      ReadNamed(fields, Object(entries)) == Some(NamedHeld(values)) && entries == ahead + FieldEntries(fields, values)
  {
    var own := FieldEntries(fields, values);
    var entries := ahead + own;
    FieldEntriesAt(fields, values);
    forall i, j | 0 <= i < j < |entries| ensures entries[i].key != entries[j].key {
      if i >= |ahead| {
        assert fields[i - |ahead|].wireName != fields[j - |ahead|].wireName;
      }
    }
    SpreadAppends(ahead, own);
    forall i | 0 <= i < |fields| ensures At(entries, fields[i].wireName) == fields[i].codec.write(values[i]) {
      assert entries[|ahead| + i] == own[i];
      InIsHeld(entries, own[i]);
    }
    FieldsReadBack(fields, values, entries);
  }

  lemma ExternalReadsBack<V>(variants: seq<Variant<V>>, i: nat, name: string, held: Held<V>)
    requires DistinctNames(variants) && i < |variants| && name in Names(variants[i]) && Fits(variants[i].payload, held)
    requires Readable(variants[i].payload, External, held)
    ensures FromJson(variants, External, WrittenAs(name, variants[i].payload, External, held).value)
      == Some(Read(i, held))
  {
    var payload := variants[i].payload;
    match payload
    case UnitPayload => DispatchFinds(variants, i, name, IsUnitVariant);
    case NamedPayload(fields) =>
      DispatchFinds(variants, i, name, variant => true);
      NamedReadsBack(fields, held.values, []);
    case ValuePayload(_, _, _) => DispatchFinds(variants, i, name, variant => true);
  }

  lemma AdjacentReadsBack<V>(variants: seq<Variant<V>>, i: nat, name: string, tagging: Tagging, held: Held<V>)
    requires DistinctNames(variants) && i < |variants| && name in Names(variants[i]) && Fits(variants[i].payload, held)
    requires tagging.Adjacent? && Readable(variants[i].payload, tagging, held)
    ensures FromJson(variants, tagging, WrittenAs(name, variants[i].payload, tagging, held).value)
      == Some(Read(i, held))
  {
    var payload, tag := variants[i].payload, Entry(tagging.tag, Text(name));
    DispatchFinds(variants, i, name, variant => true);
    if payload.UnitPayload? {
      assert [tag][1..] == [] && DartMaps.Held([tag][1..], tagging.content) == None;
    } else {
      var own := Entry(tagging.content, OwnWrite(payload, held));
      assert Put([tag], own.key, own.value) == [tag, own] by {
        PutAppends([tag], own.key, own.value);
      }
      assert [own][1..] == [];
      assert Spread([tag], [own]) == [tag, own];
      assert [tag, own][1..] == [own];
      assert DartMaps.Held([tag, own], tagging.content) == Some(own.value);
      if payload.NamedPayload? {
        NamedReadsBack(payload.fields, held.values, []);
      }
    }
  }

  lemma InternalReadsBack<V>(variants: seq<Variant<V>>, i: nat, name: string, tagging: Tagging, held: Held<V>)
    requires DistinctNames(variants) && i < |variants| && name in Names(variants[i]) && Fits(variants[i].payload, held)
    requires tagging.Internal? && Readable(variants[i].payload, tagging, held)
    ensures WrittenAs(name, variants[i].payload, tagging, held).Some?
    ensures FromJson(variants, tagging, WrittenAs(name, variants[i].payload, tagging, held).value)
      == Some(Read(i, held))
  {
    var payload, tag := variants[i].payload, Entry(tagging.tag, Text(name));
    DispatchFinds(variants, i, name, variant => true);
    match payload
    case UnitPayload =>
    case NamedPayload(fields) => NamedReadsBack(fields, held.values, [tag]);
    case ValuePayload(codec, writesAName, _) =>
      var joined := JoinedEntries(writesAName, codec.write(held.value)).value;
      var all, marked := [tag] + joined, [Entry(tagging.tag, Null)] + joined;
      forall a, b | 0 <= a < b < |all| ensures all[a].key != all[b].key {
        assert all[a].key == marked[a].key && all[b].key == marked[b].key;
      }
      SpreadAppends([tag], joined);
      assert all[1..] == joined;
  }

  /** The dispatch gives back the variant and the payload `toJson` wrote, under each tagging, and
      whichever of its names the variant is written under. */
  lemma ReadsBackWhatItWrites<V>(variants: seq<Variant<V>>, i: nat, name: string, tagging: Tagging, held: Held<V>)
    requires DistinctNames(variants) && i < |variants| && name in Names(variants[i]) && Fits(variants[i].payload, held)
    requires Readable(variants[i].payload, tagging, held)
    ensures var json := WrittenAs(name, variants[i].payload, tagging, held);
      json.Some? && FromJson(variants, tagging, json.value) == Some(Read(i, held))
    ensures var json := ToJson(variants[i], tagging, held);
      json.Some? && FromJson(variants, tagging, json.value) == Some(Read(i, held))
  {
    var wireTag := variants[i].wireTag;
    assert wireTag in Names(variants[i]);
    match tagging
    case External =>
      ExternalReadsBack(variants, i, name, held);
      ExternalReadsBack(variants, i, wireTag, held);
    case Internal(_) =>
      InternalReadsBack(variants, i, name, tagging, held);
      InternalReadsBack(variants, i, wireTag, tagging, held);
    case Adjacent(_, _) =>
      AdjacentReadsBack(variants, i, name, tagging, held);
      AdjacentReadsBack(variants, i, wireTag, tagging, held);
  }

  /** An externally tagged enum is read back too from the entries it joins another object with, where
      its unit variants are an entry over `null`: what makes it join another tagged enum's object. */
  lemma ReadsBackWhatItJoins<V>(variants: seq<Variant<V>>, i: nat, held: Held<V>)
    requires DistinctNames(variants) && i < |variants| && Fits(variants[i].payload, held)
    requires Readable(variants[i].payload, External, held)
    ensures var joined := JoinedEntries(true, ToJson(variants[i], External, held).value);
      joined.Some? && FromJson(variants, External, Object(joined.value)) == Some(Read(i, held))
  {
    var wireTag := variants[i].wireTag;
    assert wireTag in Names(variants[i]);
    ExternalReadsBack(variants, i, wireTag, held);
    if variants[i].payload.UnitPayload? {
      DispatchFinds(variants, i, wireTag, variant => true);
      assert At([Entry(wireTag, Null)], wireTag) == Null;
    }
  }

  // ----- the forms serde writes -----

  /** From `at` on, `entries` are the members, each under its own name, and nothing else. */
  ghost predicate AreTheMembers<V>(fields: seq<NamedField<V>>, values: seq<V>, entries: seq<JsonEntry>, at: nat)
    requires |fields| == |values|
  {
    && |entries| == at + |fields|
    && forall i :: 0 <= i < |fields| ==>
         entries[at + i].key == fields[i].wireName && entries[at + i].value == fields[i].codec.write(values[i])
  }

  /** `json` is the payload on its own: an object of its members, or its value's own JSON. */
  ghost predicate IsContent<V>(payload: Payload<V>, held: Held<V>, json: Json)
    requires Fits(payload, held)
  {
    match payload
    case UnitPayload => false
    case NamedPayload(fields) => json.Object? && AreTheMembers(fields, held.values, json.entries, 0)
    case ValuePayload(codec, _, _) => json == codec.write(held.value)
  }

  /** Beside the tag's entry stand the payload's own: its members, or its object's, a bare name being an
      entry over `null`. */
  ghost predicate IsBesideTheTag<V>(payload: Payload<V>, held: Held<V>, entries: seq<JsonEntry>)
    requires Fits(payload, held) && entries != []
  {
    match payload
    case UnitPayload => |entries| == 1
    case NamedPayload(fields) => AreTheMembers(fields, held.values, entries, 1)
    case ValuePayload(codec, writesAName, _) =>
      match codec.write(held.value)
      case Text(name) => writesAName && |entries| == 2 && entries[1].key == name && entries[1].value == Null
      case Object(own) => entries[1..] == own
      case _ => false
  }

  /** `json` is what serde writes of a variant named `name`: a unit variant alone as its bare name, and
      any other as the one entry under its name; or an object that opens with the tag, its payload beside
      it or under the content key. */
  ghost predicate IsWireForm<V>(name: string, payload: Payload<V>, tagging: Tagging, held: Held<V>, json: Json)
    requires Fits(payload, held)
  {
    match tagging
    case External =>
      if payload.UnitPayload? then json == Text(name)
      else json.Object? && IsOneEntry(json.entries, name, payload, held)
    case Internal(tag) =>
      json.Object? && json.entries != [] && json.entries[0] == Entry(tag, Text(name))
      && IsBesideTheTag(payload, held, json.entries)
    case Adjacent(tag, content) =>
      json.Object? && json.entries != [] && json.entries[0] == Entry(tag, Text(name))
      && if payload.UnitPayload? then |json.entries| == 1
         else IsOneEntry(json.entries[1..], content, payload, held)
  }

  ghost predicate IsOneEntry<V>(entries: seq<JsonEntry>, key: string, payload: Payload<V>, held: Held<V>)
    requires Fits(payload, held)
  {
    |entries| == 1 && entries[0].key == key && IsContent(payload, held, entries[0].value)
  }

  lemma OwnWriteIsContent<V>(payload: Payload<V>, held: Held<V>)
    requires Fits(payload, held) && !payload.UnitPayload? && Inverse(payload, held)
    ensures IsContent(payload, held, OwnWrite(payload, held))
  {
    if payload.NamedPayload? {
      NamedReadsBack(payload.fields, held.values, []);
      FieldEntriesAt(payload.fields, held.values);
    }
  }

  /** What a variant writes is the form serde writes of it, under each tagging. */
  lemma WritesTheWireForm<V>(name: string, payload: Payload<V>, tagging: Tagging, held: Held<V>)
    requires Fits(payload, held) && Readable(payload, tagging, held)
    ensures var json := WrittenAs(name, payload, tagging, held);
      json.Some? && IsWireForm(name, payload, tagging, held, json.value)
  {
    match tagging
    case External =>
      if !payload.UnitPayload? {
        OwnWriteIsContent(payload, held);
      }
    case Adjacent(tag, content) =>
      if !payload.UnitPayload? {
        OwnWriteIsContent(payload, held);
        var own := Entry(content, OwnWrite(payload, held));
        assert IsMap([Entry(tag, Text(name)), own]);
        SpreadAppends([Entry(tag, Text(name))], [own]);
      }
    case Internal(tag) => JoinedIsBesideTheTag(name, payload, tag, held);
  }

  lemma JoinedIsBesideTheTag<V>(name: string, payload: Payload<V>, tag: string, held: Held<V>)
    requires Fits(payload, held) && Readable(payload, Internal(tag), held)
    ensures var json := WrittenAs(name, payload, Internal(tag), held);
      json.Some? && IsWireForm(name, payload, Internal(tag), held, json.value)
  {
    var first := Entry(tag, Text(name));
    match payload
    case UnitPayload =>
    case NamedPayload(fields) =>
      NamedReadsBack(fields, held.values, [first]);
      FieldEntriesAt(fields, held.values);
    case ValuePayload(codec, writesAName, _) =>
      var joined := JoinedEntries(writesAName, codec.write(held.value)).value;
      var all, marked := [first] + joined, [Entry(tag, Null)] + joined;
      forall a, b | 0 <= a < b < |all| ensures all[a].key != all[b].key {
        assert all[a].key == marked[a].key && all[b].key == marked[b].key;
      }
      SpreadAppends([first], joined);
      assert all[1..] == joined;
  }

  // ----- what is refused -----

  /** The name a JSON value carries where the enum's tag is read. */
  function NameIn(tagging: Tagging, json: Json): Option<string> {
    if tagging.External? then
      if json.Text? then Some(json.text)
      else if json.Object? && |json.entries| == 1 then Some(json.entries[0].key)
      else None
    else if json.Object? && At(json.entries, tagging.tag).Text? then Some(At(json.entries, tagging.tag).text)
    else None
  }

  /** Whatever the dispatch answers is the variant the JSON names, with a payload of that variant's
      kind: no tag, an unknown one, or one of two keys is refused. */
  lemma AnswersOnlyTheNamed<V>(variants: seq<Variant<V>>, tagging: Tagging, json: Json)
    requires FromJson(variants, tagging, json).Some?
    ensures var read := FromJson(variants, tagging, json).value;
      && read.variant < |variants|
      && NameIn(tagging, json).Some? && NameIn(tagging, json).value in Names(variants[read.variant])
      && Fits(variants[read.variant].payload, read.held)
  {
    var read := FromJson(variants, tagging, json).value;
    if !(tagging.External? && json.Text?) {
      var variant := variants[read.variant];
      if variant.payload.NamedPayload? {
        var source := if tagging.External? then At(json.entries, json.entries[0].key)
          else if tagging.Internal? then json else At(json.entries, tagging.content);
        FieldsCount(variant.payload.fields, source.entries);
      }
    }
  }

  lemma {:induction false} FieldsCount<V>(fields: seq<NamedField<V>>, entries: seq<JsonEntry>)
    requires ReadFields(fields, entries).Some?
    ensures |ReadFields(fields, entries).value| == |fields|
  {
    if fields != [] {
      FieldsCount(fields[1..], entries);
    }
  }

  /** Where no content key stands, a payload that is a value is read from `null`, and one that would pass
      an absent key for `()` is refused; so is one of named members. */
  lemma AbsentContent<V>(variants: seq<Variant<V>>, i: nat, tagging: Tagging, json: Json)
    requires DistinctNames(variants) && i < |variants| && !IsUnitVariant(variants[i])
    requires tagging.Adjacent? && NameIn(tagging, json).Some? && NameIn(tagging, json).value in Names(variants[i])
    requires DartMaps.Held(json.entries, tagging.content).None?
    ensures var payload := variants[i].payload;
      FromJson(variants, tagging, json).Some?
      <==> payload.ValuePayload? && !payload.readsAUnit && payload.codec.read(Null).Some?
  {
    DispatchFinds(variants, i, NameIn(tagging, json).value, variant => true);
  }

  /** A unit variant beside a content key is refused, `null` under it or not. */
  lemma UnitTakesNoContent<V>(variants: seq<Variant<V>>, i: nat, tagging: Tagging, json: Json)
    requires DistinctNames(variants) && i < |variants| && IsUnitVariant(variants[i])
    requires tagging.Adjacent? && NameIn(tagging, json).Some? && NameIn(tagging, json).value in Names(variants[i])
    ensures FromJson(variants, tagging, json).Some? <==> DartMaps.Held(json.entries, tagging.content).None?
  {
    DispatchFinds(variants, i, NameIn(tagging, json).value, variant => true);
  }
}
