# A verified model of tixschema's hard parts

tixschema reads Rust declarations and emits JSON Schema, Zod, TypeScript, Dart and Swift text that must
all mean the same thing. This project models the algorithms that claim rests on and proves the claims,
for all inputs, in Dafny.

| part | modules |
|---|---|
| The JSON Schema document builder: names in flight, hoisted definitions | `HoistingModel`, `HoistingMeaning`, `HoistingRoutes`, `HoistingRefusals`, `HoistingBuilder` |
| The merge of flattened members and the expansion of what is flattened | `FlattenModel`, `FlattenMerge`, `FlattenExpansion`, `FlattenMeaning`, `FlattenReferences`, `FlattenRefusals` |
| Patterns: the verdict on patterns that admit every value, the text checks, the spelling for JavaScript | `Patterns`, `Spelling`, `SpellingMeaning`, `SpellingRefusals`, `RegexLiteral` |
| The Dart class of a struct with flattened members | `DartMaps`, `DartJson`, `DartFlatten` |
| The Dart reads and writes of a member, over a small expression language with its evaluator | `DartCodec`, `DartCodecMeaning`, `DartCodecReads`, `DartCodecExact` |
| The Dart class of a tagged enum | `DartTagged` |
| A field's levels, the type they stand for, filling, and the list a recovering decode is told a type by | `Levels`, `Integers`, `Filling`, `Expected` |
| The TypeScript spelling of a field, and spellings with placeholders | `Typescript`, `TypescriptMeaning`, `Placeholders`, `TypescriptFilling` |
| Literals and names: the bigint marker, the escapes, the one sentence of a bound, serde's casing rules | `BigintMarkers`, `BigintWriter`, `Sentences`, `Bounds`, `CaseRules`, `Decimals`, `Texts` |

`dafny verify dfyconfig.toml` checks all of it.

How the model stands to the code:

- Code that updates things step by step is a class or a method with loops (`Builder`, `Walk`, `JsSpelling`,
  `MergeObjectSchemas`, `MergedObjectValue`, `ConstructorArguments`, `LevelsStackedOver`,
  `ExpectedMembers`, `TypescriptBase`, `Rendered`, `PlaceholdersFilled`, the escapes, the casing loops),
  proved against a function of its inputs; what the code promises is then proved of that function.
  Code made of expressions and recursion is functions.
- Thread-local registries are arguments. What a panic refuses is an error value.
- The expression language of the Dart reads binds the names the emitter binds (`e`, `array`, `tuple`, `range`,
  `result`, `held`), so that a capture would show as a failed proof.

Five places where the code does not do what it is for, each with its exact condition:

- A definition whose body is itself a reference is merged as an object with no members: a document over one is right
  of an object that does not split between its base and its other sources, and of one that does where what is
  behind takes the keys that are left and there are none, or refuses them and there are some; and of no other
  (`FlattenReferences.BehindAReference`). `FlattenReferences.MembersBehindAReferenceAreLost` gives the object it is
  wrong of wherever what is behind is closed and has a property.
- A pattern that asks a repetition at least once for what can match nothing, or groups an anchor ahead of what can,
  admits every value, and is not judged to: the verdict is right of a pattern that asserts one end of the text at
  most iff the pattern shows that it can match nothing, by the parts and branches of its tree
  (`Patterns.VerdictIsExact`), as every pattern written without those two does (`Patterns.VerdictIsComplete`).
- A string or key in which a bigint marker opens, and after which one closes, is taken for an integer: the
  literal is right iff there is none (`BigintWriter.Literal`). The mark alone and an opening that is never closed are
  written rightly (`BigintWriter.OpeningAloneIsKept`).
- An `Option<()>` holding `()` is written and read as `null` (`DartCodecExact.ReadUndoesWrite`): every other
  value comes back.
- A template literal reads a carriage return as a line feed (`Sentences.TemplateIsExact`): no sentence
  written into one holds one (`Bounds.ObservedHoldsNoReturn`).

What is refused, where that is more or less than one may expect:

- Where arguments write no names, a route that comes back to a name at another filling is refused if it goes through
  no name twice before (`HoistingBuilder.RootedDocument`). By way of a name it went through already it need not be
  (`HoistingRefusals.ComingBackIsNoClash`).
- A Dart read throws on an array of another length than its own (`DartCodecExact.AnotherLengthIsRefused`), and on a
  tuple of another length, a range under other keys and a `Result` of no known arm
  (`DartCodecExact.AnotherShapeIsRefused`).

## Model

| member | source | states |
|---|---|---|
| HoistingMeaning.KeysAreDistinct | src/features/jsonschema.rs:155-203 | a definition's key tells name and filling apart, given digests that tell apart the fillings a document is written at and names without a dot |
| HoistingMeaning.SixteenDigitsTellApart | src/features/jsonschema.rs:155-203 | that is asked of no impossible digest: whatever is declared, sixteen hexadecimal digits tell apart any fillings up to as many as they count |
| HoistingMeaning.DescribedIsResolved | src/features/jsonschema.rs:203-224 | whatever is written for a type refers only to definitions that are hoisted |
| HoistingMeaning.ADefinitionMayBeAReference | src/features/jsonschema.rs:203-224 | definitions that are themselves references may stand beside others in a document that is complete and resolved |
| HoistingMeaning.NamesAreHoistedAsReferences | src/features/jsonschema.rs:203-224 | where declarations only name one another, every complete document that describes one hoists a definition that is itself a reference, and a run describes it in no other way |
| HoistingMeaning.TypeToDoc | src/features/jsonschema.rs:203-224 | all that is seen at any place of the type, opened any number of steps, is seen there in the document through its references |
| HoistingMeaning.DocToType | src/features/jsonschema.rs:203-224 | all that is seen in the document through any number of references is seen there in the type |
| HoistingMeaning.HoistingKeepsMeaning | src/features/jsonschema.rs:203-224 | document and type graph say the same at every place, over definitions each a body of its name and filling, whichever of several was kept, given digests that tell those fillings apart |
| HoistingBuilder.ParameterlessRecursesInPlace | src/features/jsonschema.rs:229-244 | declarations without parameters never change filling in a cycle |
| HoistingBuilder.SoundWhenReserved | src/features/jsonschema.rs:211-219 | reserving a definition on re-entry keeps the invariant: an entry with no body belongs to a name in flight, one with a body is a body of its name and filling |
| HoistingRoutes.RouteGoesOn | src/features/jsonschema.rs:203-219 | the names in flight are a route from the type, each written by the body of the one before; what the last body writes prolongs it |
| HoistingBuilder.SoundWhenPopped | src/features/jsonschema.rs:219-224 | popping a name and filling its reserved entry keeps the invariant |
| HoistingBuilder.RunningWhenPopped | src/features/jsonschema.rs:219-224 | and keeps the route of names in flight, and one to every filling a definition is named by |
| HoistingRoutes.FewerNotInFlight | src/features/jsonschema.rs:211-219 | the names not in flight strictly decrease with each frame: the measure the builder terminates by |
| HoistingBuilder.Builder.Within | src/features/jsonschema.rs:203-224 | leaves the names in flight as it found them and the definitions sound, loses none and adds only those of names and fillings some route comes back to; answers a reference to the name's definition exactly where it has one, as it has on re-entry, and its body otherwise; refuses only where the route of names in flight leads on to one of them at another filling, which are the two reported |
| HoistingBuilder.Builder.Write | src/features/jsonschema.rs:203-224 | the same of a body with its parameters bound, whatever it nests; where arguments write no names, whatever comes back below it does so at its own filling and has a definition |
| HoistingRefusals.RouteComesBack | src/features/jsonschema.rs:203-219 | where arguments write no names, what a route through names apart comes back to, it comes back to below the type, whatever the definitions |
| HoistingRefusals.ReturnedIsSettled | src/features/jsonschema.rs:203-219 | so once nothing below a type comes back unsettled, each name and filling a route returns to has its key among the definitions |
| HoistingRefusals.ComingBackIsNoClash | src/features/jsonschema.rs:203-219 | a route that comes back to a name at another filling by way of a name it went through already is none |
| HoistingBuilder.RootedDocument | src/features/jsonschema.rs:250-283 | every definition is of a name and filling some route from the type through names apart comes back to, and where no route does there is no definition and no reference; where arguments write no names, whatever a route comes back to has a definition; all definitions have bodies and every reference resolves; the document means the type at every place where digests tell apart the fillings its routes reach; a refusal is a route that comes back to a name at another filling: there is none where cycles keep their filling, and where arguments write no names there is one exactly where the document is refused |
| FlattenModel.DedupedInFirstMetOrder | src/features/jsonschema.rs:357-385 | the required keys of a merge stand each once, in the order they are first met, and none twice |
| FlattenMerge.MergeObjectSchemas | src/features/jsonschema.rs:357-385 | the two loops over properties and required keys make the merged object of both |
| FlattenMerge.MergedObjectsSplit | src/features/jsonschema.rs:357-385 | an object satisfies the merge of two closed objects over disjoint names exactly when its parts satisfy each and it holds no other key |
| FlattenMerge.MultipliedLeaves | src/features/jsonschema.rs:528-594 | the leaves of a merge are the ordered product of the base's and the source's, single-branch unions collapsed or not |
| FlattenMerge.ProductAt | src/features/jsonschema.rs:583-594 | which pair stands at which place of the product |
| FlattenMerge.ProductSize | src/features/jsonschema.rs:583-594 | the product's length is the product of the lengths |
| FlattenMeaning.MergedOffersSize | src/features/jsonschema.rs:926-946 | over any number of sources, as many leaves as the base's times each source's |
| FlattenMeaning.MergedOffersAt | src/features/jsonschema.rs:926-946 | and at each place the base leaf and the leaf of each source it is numbered by, merged in turn, the last source's running fastest |
| FlattenMerge.MergedIntoMeans | src/features/jsonschema.rs:528-580 | a source's choices merged into a base hold of exactly the objects that split between base and source, `oneOf` still exactly one |
| FlattenMerge.MultipliedMeans | src/features/jsonschema.rs:583-594 | the same where the base is a tree already |
| FlattenMerge.MergeIsAProduct | src/features/jsonschema.rs:926-946 | merged over any number of sources with names of their own: an object satisfies the tree iff it splits into a part of the base and one of each source, an absent source taking no key |
| FlattenMerge.MapAloneMeans | src/features/jsonschema.rs:421-460 | a map flattened into an object with no key of its own hands it its values and key names: the tree takes what the source takes |
| FlattenMerge.WrittenMeansHeld | src/features/jsonschema.rs:596-618 | the schema a merged tree is written as takes exactly the objects that satisfy the tree |
| FlattenExpansion.Walk.Expand | src/features/jsonschema.rs:799-875 | one step of the expansion answers the specified tree or refusal and restores the path of names and the position |
| FlattenRefusals.RefusesExactlyThePlaces | src/features/jsonschema.rs:799-875 | whatever the schema: it is refused exactly where, one reference and any union branches on, there stands a name with no body or on the way already, a `null` of the choice of the edge itself beside a tag or as a unit member, a `null` that is the schema or stands below that choice, a plain enum's name, a unit variant below that choice or another type than an object; and as one of those places is |
| FlattenRefusals.RefusesExactlyTheSources | src/features/jsonschema.rs:880-946 | a document is refused exactly where some place of some source is |
| FlattenRefusals.NullIsAbsent | src/features/jsonschema.rs:830-837 | a `null` of the choice of the edge itself is otherwise the absence |
| FlattenExpansion.Walk.ExpandBranches | src/features/jsonschema.rs:847-869 | the loop over a union's branches answers each branch's tree in order, or the first refusal |
| FlattenExpansion.FewerUnexpanded | src/features/jsonschema.rs:799-875 | the names not on the path strictly decrease: the measure the expansion terminates by |
| FlattenReferences.ExpansionMeans | src/features/jsonschema.rs:799-875 | the tree a schema is expanded into takes exactly the objects the schema takes, each definition that is itself a reference saying nothing |
| FlattenMeaning.ExpandedIsAfresh | src/features/jsonschema.rs:815-824 | where the expansion succeeds, no route through union branches comes back to a name |
| FlattenMeaning.RefusalClosesARoute | src/features/jsonschema.rs:815-824 | where it refuses, some route does |
| FlattenMeaning.RefusesExactlyTheCycles | src/features/jsonschema.rs:799-875 | with a body for every name and an object at every leaf, it refuses iff some name reaches itself through union branches alone |
| FlattenReferences.BehindAReference | src/features/jsonschema.rs:809-828 | over any base and any sources, one of them behind two references: the document takes the objects that split between the rest with no key left, and is right of an object iff, where it splits between the rest, what is behind takes the keys left exactly where there are none |
| FlattenMeaning.MergedObjectValue | src/features/jsonschema.rs:880-946 | the loop over the sources merges each in order, or answers the first refusal |
| FlattenReferences.DocumentMeans | src/features/jsonschema.rs:880-946 | end to end, over any definitions: an object satisfies the written document iff it splits between the base and every source's own schema, each definition that is itself a reference an object without members |
| FlattenMeaning.OptionalMapTakesEverything | src/features/jsonschema.rs:464-498 | a map flattened alone under an `Option` takes every object |
| Patterns.EveryPositionMatches | src/utils.rs:2366-2380 | what asks for nothing matches the empty text at every position |
| Patterns.VerdictIsSound | src/utils.rs:2338-2365 | a pattern judged to match every haystack is found in every haystack, one text anchor in a concatenation included |
| Patterns.FoundEverywhereIsNullable | src/utils.rs:2338-2386 | where one end of the text at most is asserted, every haystack matches iff the empty one does, iff the pattern can match nothing |
| Patterns.VerdictIsExact | src/utils.rs:2338-2386 | where one end of the text at most is asserted, the verdict is right iff the pattern is not one that can match nothing and does not show it: by a repetition asked for, an empty run, an anchor grouped or beside another, in every part or branch it could show in |
| Patterns.VerdictIsSeen | src/utils.rs:2338-2386 | of every pattern: the verdict is that it matches every haystack iff it can match nothing and shows it |
| Patterns.VerdictIsComplete | src/utils.rs:2338-2386 | of a pattern whose repetitions are asked for nothing or for what matches something, and whose anchor stands alone or once in a concatenation, the verdict is that a search succeeds everywhere exactly where it does |
| Patterns.VerdictMissesNestedRepetition | src/utils.rs:2366-2380 | a repetition required of what can match nothing is found everywhere and judged not to be |
| Patterns.VerdictMissesCapturedAnchor | src/utils.rs:2352-2365 | an anchor in a group ahead of what can match nothing is found everywhere and judged not to be |
| Patterns.ContainsIsExact | src/utils.rs:2391-2455 | a literal run is found iff the text contains it |
| Patterns.StartsWithIsExact | src/utils.rs:2414-2433 | a run behind a start anchor is found iff the text starts with it |
| Patterns.EndsWithIsExact | src/utils.rs:2414-2433 | a run ahead of an end anchor is found iff the text ends with it |
| Patterns.EqualsIsExact | src/utils.rs:2414-2433 | a run between the anchors is found iff it is the text |
| Patterns.TrivialIsExact | src/utils.rs:2391-2455 | whenever a check is answered, search succeeds in exactly the texts the check accepts |
| Patterns.LiteralsAreAnswered | src/utils.rs:2391-2455 | every run of literals that spells some text is answered, behind a start anchor or not and ahead of an end anchor or not, with the check of that text at that place |
| Patterns.AnsweredAreLiterals | src/utils.rs:2391-2455 | and nothing else is, but the two anchors alone |
| Patterns.TrivialConstrains | src/utils.rs:2328-2335 | no pattern answered with a check is one that admits every value |
| Spelling.JsSpelling.Walk | src/utils.rs:396-425 | the walk collects the tree's edits in order and keeps the first refusal |
| Spelling.JsSpelling.WalkItem | src/utils.rs:441-470 | the same of a class member, a nested class and a union of members |
| Spelling.JsSpelling.WalkGroup | src/utils.rs:492-552 | the `P` of `(?P<` is dropped, and the first flag is the refusal |
| Spelling.JsSpelling.Rewritten | src/utils.rs:637-651 | splices every collected edit into the pattern, in the order of their spans |
| SpellingMeaning.EditsRewriteTheTree | src/utils.rs:396-425 | for every portable tree the edits lie in its text, each wholly ahead of the next, and make of it the text of the rewritten tree |
| SpellingMeaning.ItemSplices | src/utils.rs:600-615 | a perl class in a class is written bare |
| SpellingMeaning.SortedAlready | src/utils.rs:637-651 | edits collected in walk order are sorted already |
| SpellingMeaning.JsSpelled | src/utils.rs:637-651 | the whole pass answers the rewritten tree's text, or the first construct with no reading |
| SpellingRefusals.RefusesTheFirst | src/utils.rs:358-552 | a pattern is refused exactly where its tree holds a construct with no JavaScript reading, as the first of them in the order of its text, in the way that one has |
| SpellingMeaning.MembersAreOf | src/utils.rs:1536-1542 | what a perl class is written out as takes the ASCII digits, word characters or white space, and no other |
| SpellingMeaning.SecondPassFindsNothing | src/utils.rs:396-425 | a second pass edits nothing and refuses nothing |
| RegexLiteral.EscapeJsRegexLiteral | src/utils.rs:2459-2484 | the loop writes the specified text |
| RegexLiteral.LiteralEndsWhereItIsClosed | src/utils.rs:2459-2484 | a pattern that closes its classes and ends on no backslash is the literal's whole body, whatever slashes and line ends it holds |
| RegexLiteral.SamePattern | src/utils.rs:2459-2484 | the pattern read in the literal is the pattern written |
| DartFlatten.ConstructorArguments | src/features/dart.rs:3687-3768 | for every object, each flattened member is read from exactly what a reader that takes the tag, its own keys and each member's takings in order would hand it, entry order included; one that does not read the whole object is handed entries of it, none under the tag or a key of the holder's own members |
| DartFlatten.RemainderIsTheRest | src/features/dart.rs:3687-3697 | what the reader has left is, of the object, what is neither under the tag or a member of the holder's own nor taken by a member before |
| DartFlatten.TakesIsTaken | src/features/dart.rs:3710-3734 | a member takes what is left to it under its keys, or the first of what is left that a name of a variant names |
| DartFlatten.WalkedPast | src/features/dart.rs:3698-3734 | one member keeps the invariant: the source without the keys still to be removed is what is left |
| DartFlatten.StandsWithMore | src/features/dart.rs:3710-3727 | pushing only the keys not taken ahead leaves the same as removing all of a type's keys |
| DartFlatten.StandsWithoutFirst | src/features/dart.rs:2503-2509 | taking the first entry under a variant's name leaves the rest, in order |
| DartFlatten.RemovedAllIsMinus | src/features/dart.rs:2338-2347 | the removes of `without` leave what is under none of the keys |
| DartFlatten.CollectedIsListed | src/features/dart.rs:2351-2357 | the literal of `only` holds the entries under the keys, in the keys' order |
| DartFlatten.OneIsCollected | src/features/dart.rs:2373-2389 | `first_of` answers the one entry under a variant's name |
| DartFlatten.SeveralAreHeld | src/features/dart.rs:2373-2389 | where several variants are named, the refusal names each of which some name is held, by its first |
| DartFlatten.EachEntryOnce | src/features/dart.rs:3687-3768 | each entry is the holder's own, a part of exactly one member, or left over |
| DartFlatten.TheWholeShowsMore | src/features/dart.rs:1346-1354 | a member that reads the whole object sees under its keys what it takes, iff nothing before it took one of them |
| DartCodec.IntReadsBack | src/features/dart.rs:1669-1681 | `int.parse` undoes `toString` on every Dart `int` |
| DartCodecMeaning.HeldToTheType | src/field_type.rs:205-222 | the emitted check lets a Dart `int` pass iff it is an integer of the Rust type, by its sign and width |
| DartCodecMeaning.LabelsAreTheBounds | src/features/dart.rs:2156-2180 | a range is told by the bounds it has, its start ahead of its end |
| DartCodecMeaning.KeyTextsDiffer | src/features/dart.rs:1780-1812 | two keys of a map are never written as one text |
| DartCodecMeaning.KeyWritten | src/features/dart.rs:1780-1840 | a bool, number, text or character key is written as its text |
| DartCodecMeaning.KeyRead | src/features/dart.rs:1715-1770 | and read back from it |
| DartCodecMeaning.CollectionWrite | src/features/dart.rs:2560-2568 | a set or another sequence is written as its elements' field is, at the levels that are its own |
| DartCodecMeaning.WritesItsJson | src/features/dart.rs:2527-2620 | what the write evaluates to, at every level and for every type, is the JSON of the type |
| DartCodecMeaning.FieldWritesItsJson | src/features/dart.rs:2514-2525 | the same of the whole field, its own `Option` and promotion included |
| DartCodecReads.ReadsItsJson | src/features/dart.rs:1964-2060 | what the read evaluates to on a value's JSON, at every level and for every type, is the value, `()` under an `Option` made `null` |
| DartCodecReads.FieldReadsItsJson | src/features/dart.rs:1951-1958 | the same of the whole field |
| DartCodecReads.RangeReadsItsJson | src/features/dart.rs:2156-2180 | each bound is read from the key it was written under |
| DartCodecReads.ResultReadsItsJson | src/features/dart.rs:2252-2271 | each arm is read from its own key, an arm of `()` from `null` |
| DartCodecReads.MapReadsItsJson | src/features/dart.rs:2064-2086 | every entry comes back under its key, in order |
| DartCodecExact.ReadUndoesWrite | src/features/dart.rs:1951-2110 | every value of a type is written, and reading what was written gives it back iff no `Option` in it holds a `()` |
| DartCodecExact.SomeUnitIsReadAsNone | src/features/dart.rs:2145-2151 | an `Option<()>` that holds `()` is read back as `null` |
| DartCodecExact.ReadIsOfItsType | src/features/dart.rs:1964-2060 | whatever a read gives, of any JSON, is a value of the type: ranges held, lengths kept, keys distinct |
| DartTagged.DispatchFinds | src/features/dart.rs:4555-4617 | with no name in common, a name dispatches to its variant |
| DartTagged.NamedReadsBack | src/features/dart.rs:4445-4474 | named members written beside a tag, or alone, read back from the whole object |
| DartTagged.ExternalReadsBack | src/features/dart.rs:4336-4377 | external tagging: the dispatch gives back variant and payload |
| DartTagged.InternalReadsBack | src/features/dart.rs:4475-4508 | internal tagging: the same, the payload's entries beside the tag and none under its key |
| DartTagged.AdjacentReadsBack | src/features/dart.rs:4336-4377 | adjacent tagging: the same, where tag and content keys differ |
| DartTagged.ReadsBackWhatItWrites | src/features/dart.rs:4397-4617 | all three, under the variant's own name and under each alias |
| DartTagged.WritesTheWireForm | src/features/dart.rs:4397-4508 | what a variant writes is what serde writes of it: a unit variant as its bare name or the tag alone, any other as one entry under its name, its members or its object beside the tag, or its payload under the content key |
| DartTagged.ReadsBackWhatItJoins | src/features/dart.rs:1250-1268 | an externally tagged enum is read back from the entries it joins another object with |
| DartTagged.AnswersOnlyTheNamed | src/features/dart.rs:4588-4617 | whatever the dispatch answers is a variant the JSON names, with a payload of its kind |
| DartTagged.UnitTakesNoContent | src/features/dart.rs:4421-4444 | a unit variant beside a content key is refused, and read without one |
| DartTagged.AbsentContent | src/features/dart.rs:4421-4444 | with no content key, only a value that reads from `null` and is no `()` is read |
| Levels.MarkedAt | src/field_type.rs:946-962 | a level is marked once, the first mark kept |
| Levels.LevelsStackedOver | src/field_type.rs:893-911 | the three loops make the stacked field |
| Levels.StackedMarks | src/field_type.rs:893-911 | which levels of the stacked field are optional, sets, and of which length |
| Levels.StackingIsPlugging | src/field_type.rs:893-911 | stacking is putting the one type in the other's context, an `Option` of an `Option` one, and keeps marks within the field |
| Levels.StackingIsPluggingWithinAByte | src/field_type.rs:893-911 | that holds iff the two depths together are at most 255 |
| Levels.StackingAssociates | src/field_type.rs:893-911 | stacking is associative in every field of the outcome, at any depth |
| Levels.CollectionElementIsTheCollection | src/field_type.rs:461-473 | the element field of a collection stands for the collection itself |
| Filling.FillingIsSubstitution | src/field_type.rs:668-681 | filling type parameters is substituting types, all at once |
| Filling.ReadMeansAsWritten | src/field_type.rs:3247-3306 | the field read from a written type, std ranges and `Result` among them, and with the item's own parameters erased in it, stands for that type, to the last array and `Option` |
| Filling.ReadsBytes | src/field_type.rs:778-782 | a field is a byte string iff a `Vec` over a bare byte stands under whatever it is written with |
| Expected.ExpectedMembers | src/field_type.rs:599-664 | the walk pushes the preorder, with arities, of the tree the nested type is told as |
| Expected.LevelTold | src/field_type.rs:601-608 | a level adds its `Optional` and its `Array` ahead of what it holds |
| Expected.ReadsBack | src/field_type.rs:599-664 | a tree's list, whatever follows it, reads back as the tree and what follows |
| Expected.NoListBeginsAnother | src/field_type.rs:599-664 | distinct trees share no list, and no list begins another |
| Expected.NumbersAreRusts | src/field_type.rs:609-661 | a number is told by the name Rust has for its sign and width, capitalised |
| Expected.RangesAreRusts | src/field_type.rs:322-329 | a range is told by the name that says which bounds it has |
| Typescript.TypescriptBase | src/field_type.rs:1535-1623 | the fold over levels, a collection re-entered through its element field, writes the spelling of the nested type |
| Typescript.TypescriptSlot | src/field_type.rs:1654-1665 | the same with `null` for the field's own `Option` |
| Typescript.CollectionIsSpelledAsItsElements | src/field_type.rs:1559-1566 | a collection is spelled as an array of its elements |
| Typescript.StackedIsSpelledAround | src/field_type.rs:893-911 | what fills a parameter is spelled where the parameter stood |
| TypescriptMeaning.FieldIsSpelled | src/field_type.rs:1535-1665 | a field's spelling is that of one TypeScript type |
| TypescriptMeaning.FieldTakesItsJson | src/field_type.rs:1535-1665 | and what serde writes of any value of the field inhabits that type, arrays, tuples, objects, unions with `null`, records and their keys alike |
| TypescriptMeaning.NumbersAreHeld | src/field_type.rs:1590-1601 | a fixed-width integer of 64 bits is a `bigint`, every other a `number`, which holds each of at most 32 bits exactly |
| Placeholders.PlaceholdersFilled | src/utils.rs:1882-1893 | the loop over the pieces fills each placeholder, or answers none where one is not filled |
| Placeholders.PlaceholderIsFilled | src/utils.rs:1874-1893 | a placeholder ahead of what is no part of a name becomes its filling |
| Placeholders.KeptPast | src/utils.rs:1882-1893 | text in which no placeholder begins is kept |
| TypescriptFilling.FreeIsKept | src/field_type.rs:1211-1221 | a type that holds none of the parameters is neither placed nor filled |
| TypescriptFilling.TextFillingIsTypeFilling | src/field_type.rs:1211-1221 | filling the placeholders of a spelling with the arguments' spellings spells the filled field |
| BigintMarkers.Rendered | src/features/js_literal.rs:51-67 | the scan replaces each marked string, one after another, and terminates |
| BigintMarkers.KeptPast | src/features/js_literal.rs:51-67 | text in which no marker begins is kept |
| BigintMarkers.EscapedIsRead | src/features/js_literal.rs:45-67 | a string's text is read back as the string, by section 7 of RFC 8259 |
| BigintMarkers.NoneOpens | src/features/js_literal.rs:35-67 | where none opens at a string's start or right after a quote in it, no marker begins in its text, at its quotes and escapes or across its end |
| BigintMarkers.StringIsKeptOrTaken | src/features/js_literal.rs:51-67 | a string is kept whole unless a marker opens in it and closes after; then what is made does not begin with it |
| BigintWriter.MarkedText | src/features/js_literal.rs:87-89 | a marked integer's JSON text is the opening, the digits and the closing |
| BigintWriter.MarkedIsReplaced | src/features/js_literal.rs:51-67 | a marked integer becomes its digits and `n` |
| BigintWriter.PiecesAreReplaced | src/features/js_literal.rs:51-67 | the rendered text of a marked tree is the tree printed with bigint literals, everything else as section 7 of RFC 8259 has it, where no string is mistaken, and does not begin with that where one is |
| BigintWriter.Literal | src/features/js_literal.rs:45-67 | the whole writer is right of a tree iff no marker opens in a string or a key of it and is closed after it |
| BigintWriter.MarkedTextIsTaken | src/features/js_literal.rs:51-67 | a string that is a marker's text is taken for an integer |
| BigintWriter.UnmarkedIsNotMistaken | src/features/js_literal.rs:35-37 | no string without U+0001 is |
| Sentences.EscapeJsDoubleQuoted | src/utils.rs:2489-2507 | the loop escapes each character |
| Sentences.DartEscaped | src/features/dart.rs:2627-2646 | the loop escapes each character, for either quote |
| Sentences.SwiftLiteralText | src/bound_message.rs:254-270 | the loop escapes each character |
| Sentences.ThreeReplacesEscapeOnce | src/bound_message.rs:206-210 | the three replaces in a row escape each character once |
| Sentences.CharReads | src/utils.rs:2489-2507 | each escaped character reads back as itself, whatever follows it |
| Sentences.EscapedIsRead | src/utils.rs:2489-2507 | JavaScript (sections 12.9.4 and 12.9.6 of ECMA-262), Dart and Swift each read their escaped text back exactly, a template's where it holds no carriage return |
| Sentences.TemplateIsExact | src/bound_message.rs:206-210 | a template gives its text back iff that holds no carriage return |
| Bounds.ObservedHoldsNoReturn | src/bound_message.rs:76-94 | no sentence that goes into a template holds a carriage return |
| Bounds.ZodReadsTheSentence | src/bound_message.rs:169-188 | the Zod literal reads as the sentence, up to the value it quotes back |
| Bounds.DartReadsTheSentence | src/bound_message.rs:243-250 | the Dart literal reads as the sentence |
| Bounds.SwiftReadsTheSentence | src/bound_message.rs:290-299 | the Swift literal reads as the sentence |
| Bounds.OneSentence | src/bound_message.rs:76-94 | all three read Rust's own sentence, whatever text the bound and the place were written with |
| Bounds.StemSaysHow | src/bound_message.rs:76-94 | a sentence says too long or too large of what is more than its bound and too short or too small of what is less, of a count by its length and of a number by itself |
| Bounds.LiteralIsTold | src/bound_message.rs:76-94 | a literal is told as it is written, a text between quotes that read as it |
| CaseRules.FieldToPascal | src/rename_rule.rs:70-84 | the loop capitalises each word |
| CaseRules.VariantToSnake | src/rename_rule.rs:117-126 | the loop opens a word at each capital past the first character, in ASCII or past it |
| CaseRules.ToSnakeCase | src/utils.rs:1976-1992 | the loop opens a word at each capital after a letter |
| CaseRules.PascalUndoesSnake | src/rename_rule.rs:70-126 | the field rule undoes the variant rule iff the name holds no underscore and opens with no small letter, whatever other characters it has |
| CaseRules.WordModesKeepVariantsApart | src/rename_rule.rs:48-60 | the snake, kebab and both screaming modes never write two variants alike |
| CaseRules.FieldRuleOfTheSnakeForm | src/rename_rule.rs:36-60 | a variant's name under a mode is its snake form's under the field rule of that mode |
| CaseRules.WordlessModes | src/rename_rule.rs:36-60 | the modes that part no words write a name in one case, with its first letter small, or as it is |
| CaseRules.SnakeLoopsAgree | src/utils.rs:1976-1992 | the two separately written loops agree iff every capital past the first character is an ASCII one after an ASCII letter |

## Left out

- HoistingMeaning.KeysAreDistinct: takes the digests of the fillings a document is written at as told apart; that the 64-bit fingerprint does so, or any fixed number of digits of all fillings at once, is not promised.
- The `examples` keyword, and the joining of `$defs` to the root as JSON members: the document is a root beside its definitions.
- Bodies that themselves flatten read definitions while they are hoisted: hoisting and merging are modelled one by one.
- Property order in a JSON Schema object: properties are maps; required keys keep their order.
- FlattenReferences.ExpansionMeans: asks that a union stands with no keyword beside it, and a definition that is a reference alone, as the describers write them.
- FlattenReferences.DocumentMeans: asks the same; a source read as a map or as the entries of one is `FlattenMerge.MapAloneMeans` and `FlattenMeaning.OptionalMapTakesEverything`.
- FlattenMerge.MergeIsAProduct: asks that each source writes names of its own; two sources sharing a name are outside what the merge promises.
- The wording of every refusal: a refusal is the place and the names it is raised with.
- Patterns.VerdictIsExact: is about patterns that assert no more than one end of the text, `VerdictIsSound` about all; word boundaries are a parameter.
- Placeholders.PlaceholdersFilled: a position is any natural number, where the source parses one of the width of `usize`; digits are ASCII, and a plus ahead of them is read.
- HoistingBuilder.RootedDocument: where arguments write names, those may be described in line or by reference as the run stands, and that every route is refused is not promised.
- Patterns.TrivialIsExact: which byte strings are UTF-8 is a parameter.
- Parsing: the pattern trees, the Rust types and the attributes start already parsed; a pattern's tree comes with its text and spans. A text is its bytes, one character each, so that spans are byte offsets.
- DartFlatten.ConstructorArguments: gives the object each member is read from; what a member makes of it, defaults, `preprocess` functions and the absence of an optional member are not part of it.
- DartCodecExact.ReadUndoesWrite: leaves out floats, `ObjectId`, dates, opaque and type-parameter values and named classes; the last are `DartTagged` and `DartFlatten`. Integers are those a Dart `int` holds.
- TypescriptMeaning.FieldTakesItsJson: about the same types; a pointer-sized integer is a `number`, which holds those below 2^53 exactly.
- DartCodec.IntReadsBack: `int.parse` is modelled on decimal digits with a sign; the white space and hexadecimal forms Dart reads too are not.
- Operator precedence in the emitted Dart text: expressions are trees.
- DartTagged.ReadsBackWhatItWrites: a named payload's members are all its own, `DartFlatten` being about flattened ones; untagged enums and `preprocess` functions are not part of it.
- Levels.LevelsStackedOver: fields are values, where the source updates them through a mutable reference; the docs, spans and serde keys of a field are not part of it.
- Filling.FillingIsSubstitution: leaves the `bytes` flag, which the nested type does not show, aside.
- Typescript.TypescriptBase: alias names, literal types and items written in place are not among the modelled types.
- Typescript.TypescriptSlot: the same.
- Filling.ReadMeansAsWritten: which path names the std range or `Result`, past a name the crate declares, is settled by the parsing; dates and the `ObjectId` are not among the written types.
- TypescriptFilling.TextFillingIsTypeFilling: asks that no argument is an `Option`, no map is keyed by a parameter and no name holds a placeholder's opening, as the substitution is promised; aliases, literals and prop metadata are not part of it.
- BigintWriter.Literal: which Rust types are wide, by their names, is left to the caller; numbers are written with digits, signs, points and exponents.
- Sentences.EscapedIsRead: the readers know the escapes the writers use and the plain ones; line continuations and legacy octal escapes are refused.
- CaseRules.VariantToSnake: which characters past ASCII are capitals is a parameter.
- RegexLiteral.LiteralEndsWhereItIsClosed: flags after the closing delimiter are not part of it.
- Zod text, doc comments, module names, service transports, MongoDB operations, the recovering decode itself, the Kotlin emitter and the Swift emitter past its literals: string building without an invariant of this depth.
