# nestjs-events-flow generators, modelled in Dafny

nestjs-events-flow documents the events of a NestJS application. Controller
methods carry an `@Events({ emit, listen })` declaration. Three generators turn
those declarations into artifacts:

- `generateEventsDocumentation` walks every controller prototype. It builds an
  OpenAPI-like object with two records:
  - `eventMappings`, keyed `Controller.method`, holding each method's `emit`
    and `listen` arrays;
  - `events`, keyed by emitted event name, holding a description and the
    emitting methods.
- `generateEventsHtml` draws an arrow `emitter -- event-->listener` for every
  emitted event and every listener with a matching pattern. A pattern with a
  `*` matches every event that starts with the text before the first `*`. It
  wraps the Mermaid diagram in an HTML page.
- `generateListenTypesDefinition` collects every documented event name plus
  one `prefix.*` wildcard per `.` in the name, in insertion order without
  repeats. It writes them as the TypeScript union `listenTypes`.

The project has seven modules:

- `Collections` models `Set.add`, `Array.from(new Set(...))` and plain
  objects as insertion-ordered dictionaries.
- `Strings` models `split`, `join` and `trim`.
- `DocumentationGenerator`, `EventsFlowHtml` and `ListenTypesDefinition` model
  the three generators.
- `SampleEvents` states what the listener-type generator gives for the
  sample application's two events.
- `SampleController` states what the documentation generator and the
  diagram give for the sample application's `EventsController`: a
  `constructor` and five decorated methods, three of them listen-only.

Each generator is written twice:

- a `method` with the source's loops, split at the source's `forEach`
  callbacks;
- a specification function it is proved equal to.

The properties are lemmas about the specification functions.

Where the code's behaviour is surprising, the model follows the code:

- There is no separate rule for the pattern `**`. It matches everything
  because the text before its first `*` is empty, and so does every pattern
  that starts with `*`.
- A method that lists the same name twice in `emit` appears twice in that
  event's description but once in its emitters, after the final
  de-duplication pass. See `RepeatedEmitter`.
- Two controllers with the same class name write to the same
  `eventMappings` key, and the last write wins there. The names only the
  earlier declaration emitted still name that key as their emitter under
  `events`. See `SupersededMapping`.
- No `emit` or `listen` value is rejected. An array is taken as it is, a
  truthy value is wrapped in an array, and a falsy one gives the empty
  array.
- The identifier set does not start out holding `**`. The union is the
  literal `'**' | ` followed by the quoted identifiers, or by `''` when
  there are none. So the documentation of no events, and of the single
  event named `""`, both give `'**' | ''`.

## Model

| member | source | states |
|---|---|---|
| `DocumentationGenerator.Normalize` | src/lib/utils/documentation-generator.ts:37-54 | an array is kept as it is, a non-empty string becomes a one-element array, an absent value or the empty string the empty array |
| `DocumentationGenerator.MappingKeyParts` | src/lib/utils/documentation-generator.ts:36 | the key is the controller name, a `.`, and the method name, each found at its own position |
| `DocumentationGenerator.RecordEmittedEvents` | src/lib/utils/documentation-generator.ts:62-75 | the loop over a method's `emit` array leaves `events` equal to the fold of that method's emissions into it |
| `DocumentationGenerator.RemoveDuplicateEmitters` | src/lib/utils/documentation-generator.ts:82-86 | the final pass keeps every event and its description, and replaces each emitters list by its de-duplicated copy |
| `DocumentationGenerator.RecordMember` | src/lib/utils/documentation-generator.ts:29-77 | one prototype property: `constructor` and undecorated methods change nothing; a decorated method writes its mapping and then records its emitted names |
| `DocumentationGenerator.RecordController` | src/lib/utils/documentation-generator.ts:24-78 | the loop over one controller's properties applies the registrations of its members in property order |
| `DocumentationGenerator.GenerateEventsDocumentation` | src/lib/utils/documentation-generator.ts:16-100 | the generator returns `DocumentationOf(controllers)`: openapi `3.0.0`, title `Events Documentation`, version `1.0.0`, the mapping writes and the de-duplicated events record |
| `DocumentationGenerator.RegisterAllFromNothing` | src/lib/utils/documentation-generator.ts:56-75 | interleaving the mapping writes with the events updates gives the same records as performing each kind on its own |
| `DocumentationGenerator.RecordAllKeys` | src/lib/utils/documentation-generator.ts:64-69 | `events` is keyed by the emitted names in the order of their first emission, each once |
| `DocumentationGenerator.RecordAllEntries` | src/lib/utils/documentation-generator.ts:64-74 | a name has a record exactly when it was emitted; the record's description names the first emitter and every later emission, and its emitters list every emission |
| `DocumentationGenerator.RecordEmissionEffect` | src/lib/utils/documentation-generator.ts:64-74 | one emission leaves its name recorded with the emitter appended to the existing emitters and `, key` appended to the description, or, for a new name, the emitter alone and the opening sentence `Event "name" emitted by key`; every other record is kept, and the key order gains the name at the end only when it is new |
| `DocumentationGenerator.RecordFromAppend` | src/lib/utils/documentation-generator.ts:62-75 | folding two runs of emissions one after the other is folding their concatenation |
| `DocumentationGenerator.RegisterAllAppend` | src/lib/utils/documentation-generator.ts:24-79 | applying two runs of writes one after the other is applying their concatenation |
| `DocumentationGenerator.EmissionsMembers` | src/lib/utils/documentation-generator.ts:56-75 | the innermost loop visits the pair (key, name) exactly when a write under that key lists the name in its `emit` array |
| `DocumentationGenerator.DedupedRecords` | src/lib/utils/documentation-generator.ts:61-86 | after the final pass, `events` is keyed by the emitted names in first-emission order; each record holds the full description and the de-duplicated emitters of that name |
| `DocumentationGenerator.EmittedName` | src/lib/utils/documentation-generator.ts:56-75 | a name has an emission exactly when some write lists it in its `emit` array |
| `DocumentationGenerator.RecordedNames` | src/lib/utils/documentation-generator.ts:61-86 | a name has a record after the final pass exactly when some write lists it in its `emit` array |
| `DocumentationGenerator.RecordedEmitters` | src/lib/utils/documentation-generator.ts:61-86 | a key is among a recorded name's emitters exactly when a write under that key lists the name |
| `DocumentationGenerator.EventsSection` | src/lib/utils/documentation-generator.ts:61-86 | a name is documented exactly when some registered method emits it; its emitters are exactly those methods, each once, in the order of first emission; its description lists them all, repeats included |
| `DocumentationGenerator.EmittersAreMappingKeys` | src/lib/utils/documentation-generator.ts:56-73 | every emitter listed under `events` is a key of `eventMappings` |
| `DocumentationGenerator.MappingsOfKeys` | src/lib/utils/documentation-generator.ts:56-59 | `eventMappings` holds its keys in the order they were first written, each once |
| `DocumentationGenerator.MappingsOfLastWrite` | src/lib/utils/documentation-generator.ts:56-59 | every written key is present, and under each key is the mapping of the last write to it |
| `DocumentationGenerator.MappingKeysWritten` | src/lib/utils/documentation-generator.ts:56-59 | a key is in `eventMappings` exactly when some write used it |
| `DocumentationGenerator.MemberRegistrationsDeclared` | src/lib/utils/documentation-generator.ts:29-36 | the writes of one controller are exactly those of its decorated properties other than `constructor` |
| `DocumentationGenerator.RegistrationsSound` | src/lib/utils/documentation-generator.ts:24-36 | every write comes from a decorated property other than `constructor` of some controller |
| `DocumentationGenerator.RegistrationsComplete` | src/lib/utils/documentation-generator.ts:24-36 | every decorated property other than `constructor` of every controller makes its write |
| `DocumentationGenerator.RegistrationsDeclared` | src/lib/utils/documentation-generator.ts:24-36 | the writes are exactly those of the decorated properties other than `constructor`, with key `Controller.method` and both arrays normalized |
| `DocumentationGenerator.MappingKeysDeclared` | src/lib/utils/documentation-generator.ts:29-36 | a key is in `eventMappings` exactly when it is `Controller.method` for a decorated property other than `constructor` |
| `DocumentationGenerator.EmitsDeclared` | src/lib/utils/documentation-generator.ts:34-45 | a key emits a name exactly when a decorated method with that key lists the name in its normalized `emit` value |
| `DocumentationGenerator.SingleMethodRegistrations` | src/lib/utils/documentation-generator.ts:24-36 | one controller with one decorated method makes exactly that method's write |
| `DocumentationGenerator.TwoControllerRegistrations` | src/lib/utils/documentation-generator.ts:24-36 | controllers are visited in order: the first controller's write comes first |
| `DocumentationGenerator.MappingsOverwrite` | src/lib/utils/documentation-generator.ts:56-59 | a second write to a key keeps one key and holds the second mapping |
| `DocumentationGenerator.RecordTwice` | src/lib/utils/documentation-generator.ts:64-74 | two emissions of one name by one method give one record whose description and emitters name the method twice |
| `DocumentationGenerator.RecordTwoNames` | src/lib/utils/documentation-generator.ts:64-69 | two different names are recorded in emission order, the first with the opening description |
| `DocumentationGenerator.EmissionsOfSingles` | src/lib/utils/documentation-generator.ts:62-64 | the emissions of two writes with one emitted name each come in write order |
| `DocumentationGenerator.RepeatedEmissions` | src/lib/utils/documentation-generator.ts:62-64 | a method whose `emit` array lists a name twice visits that name twice under its key |
| `DocumentationGenerator.RepeatedEmitter` | src/lib/utils/documentation-generator.ts:64-86 | a method emitting a name twice is named twice in the description and listed once among the emitters |
| `DocumentationGenerator.SupersededMapping` | src/lib/utils/documentation-generator.ts:56-75 | two same-named controllers declaring the same method: the later mapping replaces the earlier one, while the name only the earlier one emitted stays documented with that key as emitter |
| `EventsFlowHtml.MatchesEvent` | src/lib/utils/generate-events-flow-html.ts:7-16 | a pattern without `*` matches exactly the identical event name |
| `EventsFlowHtml.MatchesEventWildcard` | src/lib/utils/generate-events-flow-html.ts:11-13 | a pattern with a `*` matches exactly the events starting with the text before its first `*` |
| `EventsFlowHtml.MatchesEventIgnoresSuffix` | src/lib/utils/generate-events-flow-html.ts:11-15 | for `q` without `*`, the pattern `q*r` matches an event exactly when the event starts with `q`; whatever follows the `*` is ignored |
| `EventsFlowHtml.MatchesEventLeadingStar` | src/lib/utils/generate-events-flow-html.ts:11-13 | a pattern starting with `*`, among them `**`, matches every event |
| `EventsFlowHtml.ListenerEdgesCount` | src/lib/utils/generate-events-flow-html.ts:24-35 | for one emitted event, the arrow to a listener is drawn once per occurrence of that listener among the keys when one of its patterns matches, and never otherwise |
| `EventsFlowHtml.EventEdgesCount` | src/lib/utils/generate-events-flow-html.ts:22-36 | for one emitter, the arrow for an event is drawn once per occurrence of the event in its `emit` array when the listener matches |
| `EventsFlowHtml.EmitterEdgesCount` | src/lib/utils/generate-events-flow-html.ts:19-38 | over distinct emitter keys, each arrow is drawn once per occurrence of its event in its emitter's `emit` array when the listener matches |
| `EventsFlowHtml.EdgeCount` | src/lib/utils/generate-events-flow-html.ts:19-38 | the arrow `x -- ev-->y` is drawn once per occurrence of `ev` in the `emit` array of `x` when a `listen` pattern of `y` matches `ev`, and never otherwise |
| `EventsFlowHtml.EdgesMembers` | src/lib/utils/generate-events-flow-html.ts:19-38 | an arrow is drawn exactly when its emitter emits its event and its listener has a matching pattern, self-arrows included |
| `EventsFlowHtml.EdgeLineShape` | src/lib/utils/generate-events-flow-html.ts:33 | an arrow's line starts with the emitter, ends with `;`, and holds no newline when none of the three names does |
| `EventsFlowHtml.DiagramEnds` | src/lib/utils/generate-events-flow-html.ts:3-40 | the diagram starts with `graph LR;`, ends with `;`, and is longer than the header when an arrow is drawn |
| `EventsFlowHtml.RawDiagram` | src/lib/utils/generate-events-flow-html.ts:3-33 | the text the loops build is the diagram followed by one newline |
| `EventsFlowHtml.TrimmedDiagram` | src/lib/utils/generate-events-flow-html.ts:40 | `trim` removes exactly that final newline |
| `EventsFlowHtml.DiagramEmpty` | src/lib/utils/generate-events-flow-html.ts:3-40 | the diagram is the bare header exactly when no arrow is drawn |
| `EventsFlowHtml.DiagramLines` | src/lib/utils/generate-events-flow-html.ts:33-40 | splitting the diagram at newlines gives the header and every arrow's line in drawing order, as long as no name holds a newline |
| `EventsFlowHtml.LinesAppend` | src/lib/utils/generate-events-flow-html.ts:33 | the lines of two runs of arrows are the lines of the first run followed by those of the second |
| `EventsFlowHtml.EventLinesStep` | src/lib/utils/generate-events-flow-html.ts:22-35 | one emitted event adds the lines of its listeners after the text built so far |
| `EventsFlowHtml.EmitterLinesStep` | src/lib/utils/generate-events-flow-html.ts:19-37 | one emitter key adds the lines of its emitted events after the text built so far |
| `EventsFlowHtml.AppendListenerLines` | src/lib/utils/generate-events-flow-html.ts:24-35 | the loop over listener keys appends the lines of the arrows for one emitted event |
| `EventsFlowHtml.AppendEventLines` | src/lib/utils/generate-events-flow-html.ts:21-37 | the loop over an emitter's `emit` array appends the lines of all its arrows |
| `EventsFlowHtml.GenerateEventsHtml` | src/lib/utils/generate-events-flow-html.ts:1-66 | the page is the fixed template around the documentation title and the diagram of all arrows |
| `EventsFlowHtml.PageLayout` | src/lib/utils/generate-events-flow-html.ts:43-65 | the page opens with the fixed head, has the title right after it, and closes with the diagram followed by the fixed tail |
| `ListenTypesDefinition.Wildcards` | src/lib/utils/generate-listen-types-definition.ts:20-28 | a name gets one wildcard per `.`; the one at position `i` joins the first `i + 1` pieces of the split name and appends `.*`, whichever guard applies |
| `ListenTypesDefinition.WildcardsAreDotPrefixes` | src/lib/utils/generate-listen-types-definition.ts:20-28 | the wildcards added for a name are its prefixes up to each `.` with `*` appended, left to right; the two guards never change the result |
| `ListenTypesDefinition.DotPrefixesMembers` | src/lib/utils/generate-listen-types-definition.ts:20-28 | a wildcard of `s` is exactly `s[..j] + ".*"` for a `.` at position `j`, and the wildcards grow strictly in length |
| `ListenTypesDefinition.WildcardsOfSplit` | src/lib/utils/generate-listen-types-definition.ts:21-27 | joining the first `i` pieces of the split name for each `i` from 1 gives the prefixes of the name up to each `.`, left to right |
| `ListenTypesDefinition.DotPrefixMatches` | src/lib/utils/generate-listen-types-definition.ts:25 | the prefix of a name up to one of its `.`, followed by `.*`, matches the name as a listener pattern |
| `ListenTypesDefinition.WildcardsDistinct` | src/lib/utils/generate-listen-types-definition.ts:24-27 | the wildcards of a name hold no repeat and never the name followed by `.*` |
| `ListenTypesDefinition.WildcardsMatchTheirEvent` | src/lib/utils/generate-listen-types-definition.ts:25 | every wildcard generated from a name, used as a listener pattern, matches that name |
| `ListenTypesDefinition.ExpansionsMembers` | src/lib/utils/generate-listen-types-definition.ts:14-30 | the loop visits exactly the documented names and their wildcards |
| `ListenTypesDefinition.IdentifierSetMembers` | src/lib/utils/generate-listen-types-definition.ts:12-32 | the identifier set has no repeats and holds exactly the documented names and their wildcards |
| `ListenTypesDefinition.QuotedAll` | src/lib/utils/generate-listen-types-definition.ts:32 | each identifier is quoted, in order |
| `ListenTypesDefinition.UnionTypeStart` | src/lib/utils/generate-listen-types-definition.ts:38 | the union starts with `'**'` and a bar between spaces, is never just that, and continues with the first quoted identifier when there is one |
| `ListenTypesDefinition.UnionTypeShape` | src/lib/utils/generate-listen-types-definition.ts:38 | the union is `'**'` and the quoted identifiers joined by a bar between spaces; it is `'**'` followed by the empty quote `''` exactly when there is no identifier or only the empty one |
| `ListenTypesDefinition.AddWildcards` | src/lib/utils/generate-listen-types-definition.ts:24-27 | the `for` loop adds the wildcards of one name to the set, in order, without repeats |
| `ListenTypesDefinition.AddEvent` | src/lib/utils/generate-listen-types-definition.ts:14-30 | one `forEach` callback turns the set of the names visited so far into the set of those names followed by the new name and its wildcards |
| `ListenTypesDefinition.GenerateListenTypesDefinition` | src/lib/utils/generate-listen-types-definition.ts:10-50 | the file is the fixed header, the union of the identifier set of the documented names, and the fixed module augmentation |
| `SampleEvents.QualifiedWildcards` | src/lib/utils/generate-listen-types-definition.ts:20-28 | a name `a.b` with dot-free parts has the single wildcard `a.*` |
| `SampleEvents.TwoQualifiedNames` | src/lib/utils/generate-listen-types-definition.ts:14-30 | the names `a.b` and `c.d` with different first parts give the set `a.b, a.*, c.d, c.*` |
| `SampleEvents.SampleIdentifiers` | listen-types.d.ts:5 | `user.created` and `email.sent` give `user.created, user.*, email.sent, email.*` |
| `SampleEvents.UnionOfFour` | src/lib/utils/generate-listen-types-definition.ts:32-38 | four identifiers give `'**'` and the four quoted identifiers, separated by a bar between spaces |
| `SampleEvents.SampleListenTypes` | listen-types.d.ts:5 | the sample's events give the union of the checked-in declaration file |
| `SampleController.SampleRegistrations` | sample/src/events/events.controller.ts:7-58 | the `constructor`, whatever it carries, writes nothing; the five decorated methods write their `Controller.method` keys in declaration order with their arrays, a missing `emit` giving the empty array |
| `SampleController.MappingsOfDistinctKeys` | src/lib/utils/documentation-generator.ts:56-59 | writes to pairwise different keys list each key once, in write order, each holding its own mapping |
| `SampleController.RecordTwoEmissions` | src/lib/utils/documentation-generator.ts:64-69 | two emissions of different names open one record each, in emission order, each with the opening description and its one emitter |
| `SampleController.SampleDocumentation` | sample/src/events/events.controller.ts:7-58 | `eventMappings` holds the five methods in declaration order with their arrays; `events` holds exactly the two emitted names, each described as emitted by its one emitter, which is its only listed emitter |
| `SampleController.SampleEdges` | src/lib/utils/generate-events-flow-html.ts:19-38 | for the sample's declarations, the diagram has exactly five arrows, in order: the first event to its listener and to the catch-all listener, the second event to its listener, the catch-all listener and the listener whose `q*r` pattern covers it; no arrow starts at a listen-only method |
| `SampleController.SampleArrows` | sample/src/events/events.controller.ts:14-56 | with the sample's literals, `createUser -- user.created-->` reaches `onUserCreated` and `onAllEvents` (and not `onAllEmailEvents`), and `onUserCreated -- email.sent-->` reaches `onEmailSent`, `onAllEvents` and `onAllEmailEvents` |
| `Collections.Add` | src/lib/utils/generate-listen-types-definition.ts:16 | `Set.add` keeps the elements present, adds the new one last, and creates no repeat |
| `Collections.Dedup` | src/lib/utils/documentation-generator.ts:83-85 | `Array.from(new Set(xs))` holds exactly the elements of `xs`, without repeats |
| `Collections.DedupFirstOccurrenceOrder` | src/lib/utils/documentation-generator.ts:83-85 | the de-duplicated elements come in the order of their first occurrence |
| `Collections.DedupOfDistinct` | src/lib/utils/documentation-generator.ts:83-85 | de-duplicating a list without repeats changes nothing |
| `Collections.PutEntries` | src/lib/utils/documentation-generator.ts:56-59 | assigning to a key of a plain object: the key holds the new value, every other key keeps its value, and the existing keys keep their order with at most one key added |
| `Collections.PutPresent` | src/lib/utils/documentation-generator.ts:56-59 | writing to a present key keeps the key order and every other entry |
| `Strings.Split` | src/lib/utils/generate-listen-types-definition.ts:21 | `split` gives at least one piece, no piece holds the separator, one piece exactly when there is no separator, and joining gives the text back |
| `Strings.SplitJoin` | src/lib/utils/generate-listen-types-definition.ts:21-25 | splitting joined pieces that hold no separator gives the pieces back |
| `Strings.JoinEnds` | src/lib/utils/generate-listen-types-definition.ts:25 | `join` starts with the first part and ends with the last |
| `Strings.SplitAtLastSeparator` | src/lib/utils/generate-listen-types-definition.ts:21 | splitting `a`, the separator, and a separator-free `b` gives the pieces of `a` followed by `b` |
| `Strings.SplitHead` | src/lib/utils/generate-events-flow-html.ts:12 | the first piece is the text before the first separator, or the whole text |
| `Strings.TrimPadded` | src/lib/utils/generate-events-flow-html.ts:40 | `trim` removes exactly the white space around a text that neither starts nor ends with white space |
| `Strings.TrimShape` | src/lib/utils/generate-events-flow-html.ts:40 | `trim` never lengthens a text, gives the empty text exactly when the text is all white space, and otherwise neither starts nor ends with white space |

## Left out

- Reflection is not modelled. `Object.getOwnPropertyNames(prototype)` and
  `Reflect.getMetadata` are replaced by an explicit list of each prototype's
  own properties, in property order, each with its metadata or none.
- The decorators, the Nest module and service, and the file writes of the
  documentation helper are not part of this model. Nor is the sample
  application's runtime.
- `Normalize`: only strings and arrays of strings are modelled as `emit` and
  `listen` values. Other truthy values (numbers, objects) and non-string array
  elements are not.
- `GenerateEventsHtml` and `GenerateListenTypesDefinition` take the
  `Documentation` value the first generator produces. A hand-written document
  with missing fields is not modelled.
- Every record keeps its keys in insertion order. JavaScript lists
  integer-like keys such as `"12"` first, in numeric order. That ordering is
  not modelled.
- An event named after an `Object.prototype` member (such as `toString` or
  `constructor`) finds an inherited value where the code tests for a record,
  and the code then fails. The model treats every name as absent until
  recorded.
- Strings are sequences of Unicode characters, not UTF-16 code units.
  Surrogate pairs are not modelled.
- `EventsFlowHtml.DiagramLines` assumes that no controller, method or event
  name holds a newline. Without that, the lines of the diagram cannot be
  told apart.
- The output is not escaped: a quote in an event name or HTML in a title goes
  through unchanged, as in the code. Whether the result is valid TypeScript,
  HTML or Mermaid is not modelled.
- `SampleEvents.SampleListenTypes` states the union with `Quoted` applied to
  each identifier, rather than as one string literal. Comparing long string
  literals character by character is too costly for the solver.
- `SampleController` keeps the controller and method names abstract: any
  five different names other than `constructor`. It states the sample's
  `eventMappings`, `events` and arrows, not the text of its HTML page.
