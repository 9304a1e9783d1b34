/** Model of `generateEventsDocumentation`: the per-method `@Events`
    declarations of every controller are gathered into `eventMappings`, keyed
    `Controller.method`, and into the `events` registry, keyed by emitted
    event name. Reflection over controller prototypes is replaced by an
    explicit description of each prototype's own properties. */
module DocumentationGenerator {
  import opened Collections

  /** The value given for `emit` or `listen` in an `@Events` declaration. */
  datatype Declared = Absent | Str(text: string) | Arr(items: seq<string>)

  /** The metadata object the `@Events` decorator attaches to a method. */
  datatype EventsMetadata = EventsMetadata(emit: Declared, listen: Declared)

  /** One own property of a controller prototype, in property order, with the
      events metadata attached to it (None when the method is not decorated). */
  datatype PrototypeMember = PrototypeMember(name: string, metadata: Option<EventsMetadata>)

  datatype ControllerClass = ControllerClass(name: string, members: seq<PrototypeMember>)

  datatype Mapping = Mapping(emit: seq<string>, listen: seq<string>)

  datatype EventRecord = EventRecord(description: string, emitters: seq<string>)

  datatype Info = Info(title: string, version: string)

  datatype Documentation = Documentation(
    openapi: string,
    info: Info,
    eventMappings: OrderedDict<Mapping>,
    events: OrderedDict<EventRecord>)

  const OpenApiVersion := "3.0.0"
  const DocumentationTitle := "Events Documentation"
  const DocumentationVersion := "1.0.0"

  /** The array form of an `emit` or `listen` value: an array is kept as it
      is, a non-empty string becomes a one-element array, and an absent value
      or the (falsy) empty string becomes the empty array. */
  function Normalize(d: Declared): (r: seq<string>)
    ensures d.Arr? ==> r == d.items
    ensures d.Str? && d.text != "" ==> r == [d.text]
    ensures d.Absent? || d == Str("") ==> r == []
  {
    match d
    case Arr(items) => items
    case Str(text) => if text != "" then [text] else []
    case Absent => []
  }

  /** The `eventMappings` key of a method: `${controllerName}.${methodName}`. */
  function MappingKey(controllerName: string, methodName: string): string
  {
    controllerName + "." + methodName
  }

  /** The key splits back into the controller name, a `.` and the method
      name, each at its own position. */
  lemma MappingKeyParts(controllerName: string, methodName: string)
    ensures var key := MappingKey(controllerName, methodName);
      && |key| == |controllerName| + 1 + |methodName|
      && key[..|controllerName|] == controllerName && key[|controllerName|] == '.'
      && key[|controllerName| + 1..] == methodName
  {
  }

  /** One `eventMappings` write, in the order the loops perform them. */
  datatype Registration = Registration(key: string, mapping: Mapping)

  /** A decorated method other than `constructor` registers itself. */
  ghost predicate Declares(cs: seq<ControllerClass>, ci: int, mi: int)
  {
    && 0 <= ci < |cs|
    && 0 <= mi < |cs[ci].members|
    && cs[ci].members[mi].name != "constructor"
    && cs[ci].members[mi].metadata.Some?
  }

  /** The write a decorated method makes: its key and both arrays normalized. */
  function DeclaredRegistration(controllerName: string, m: PrototypeMember): Registration
    requires m.metadata.Some?
  {
    Registration(MappingKey(controllerName, m.name),
                 Mapping(Normalize(m.metadata.value.emit), Normalize(m.metadata.value.listen)))
  }

  function MemberRegistration(controllerName: string, m: PrototypeMember): seq<Registration>
  {
    if m.name == "constructor" || m.metadata.None? then [] else [DeclaredRegistration(controllerName, m)]
  }

  function MemberRegistrations(controllerName: string, ms: seq<PrototypeMember>): seq<Registration>
  {
    if ms == [] then []
    else MemberRegistrations(controllerName, ms[..|ms| - 1]) + MemberRegistration(controllerName, ms[|ms| - 1])
  }

  /** All registrations, controller by controller, member by member. */
  function Registrations(cs: seq<ControllerClass>): seq<Registration>
  {
    if cs == [] then []
    else Registrations(cs[..|cs| - 1]) + MemberRegistrations(cs[|cs| - 1].name, cs[|cs| - 1].members)
  }

  /** `eventMappings` after a sequence of writes. */
  function MappingsOf(regs: seq<Registration>): OrderedDict<Mapping>
  {
    if regs == [] then Dict([], map[])
    else
      var r := regs[|regs| - 1];
      Put(MappingsOf(regs[..|regs| - 1]), r.key, r.mapping)
  }

  function KeysOf(regs: seq<Registration>): seq<string>
  {
    if regs == [] then [] else KeysOf(regs[..|regs| - 1]) + [regs[|regs| - 1].key]
  }

  /** One emitted name of one registration, visited by the innermost loop. */
  datatype Emission = Emission(emitter: string, name: string)

  function EmissionsOf(key: string, names: seq<string>): seq<Emission>
  {
    if names == [] then [] else EmissionsOf(key, names[..|names| - 1]) + [Emission(key, names[|names| - 1])]
  }

  function Emissions(regs: seq<Registration>): seq<Emission>
  {
    if regs == [] then []
    else
      var r := regs[|regs| - 1];
      Emissions(regs[..|regs| - 1]) + EmissionsOf(r.key, r.mapping.emit)
  }

  function NamesOf(es: seq<Emission>): seq<string>
  {
    if es == [] then [] else NamesOf(es[..|es| - 1]) + [es[|es| - 1].name]
  }

  /** The keys that emitted `name`, once per emission, repeats included. */
  function EmittersOf(es: seq<Emission>, name: string): seq<string>
  {
    if es == [] then []
    else
      var e := es[|es| - 1];
      EmittersOf(es[..|es| - 1], name) + (if e.name == name then [e.emitter] else [])
  }

  function FirstDescription(name: string, key: string): string
  {
    "Event \"" + name + "\" emitted by " + key
  }

  /** The description after the given emissions of `name`: the first emitter
      in the opening sentence, then `, key` for every later emission. */
  function Description(name: string, emitters: seq<string>): string
    requires |emitters| > 0
  {
    if |emitters| == 1 then FirstDescription(name, emitters[0])
    else Description(name, emitters[..|emitters| - 1]) + ", " + emitters[|emitters| - 1]
  }

  /** One step of the `events` aggregation. */
  function RecordEmission(events: OrderedDict<EventRecord>, e: Emission): OrderedDict<EventRecord>
  {
    if e.name in events.entries then
      var rec := events.entries[e.name];
      Put(events, e.name, EventRecord(rec.description + ", " + e.emitter, rec.emitters + [e.emitter]))
    else
      Put(events, e.name, EventRecord(FirstDescription(e.name, e.emitter), [e.emitter]))
  }

  /** One emission leaves its name recorded with the emitter appended to the
      emitters so far (none for a new name) and to the description (the opening
      sentence for a new name), keeps every other record, and adds the name at
      the end of the key order only when it is new. */
  lemma RecordEmissionEffect(events: OrderedDict<EventRecord>, e: Emission)
    ensures var r := RecordEmission(events, e);
      && e.name in r.entries
      && r.entries[e.name].emitters
         == (if e.name in events.entries then events.entries[e.name].emitters else []) + [e.emitter]
      && r.entries[e.name].description
         == (if e.name in events.entries then events.entries[e.name].description + ", " + e.emitter
             else FirstDescription(e.name, e.emitter))
      && (forall n | n in events.entries && n != e.name :: n in r.entries && r.entries[n] == events.entries[n])
      && r.keys == (if e.name in events.entries then events.keys else events.keys + [e.name])
  {
  }

  /** The `events` record after the given emissions, starting from `events`. */
  function RecordFrom(events: OrderedDict<EventRecord>, es: seq<Emission>): OrderedDict<EventRecord>
  {
    if es == [] then events
    else RecordEmission(RecordFrom(events, es[..|es| - 1]), es[|es| - 1])
  }

  lemma {:induction false} RecordFromAppend(events: OrderedDict<EventRecord>, a: seq<Emission>, b: seq<Emission>)
    ensures RecordFrom(events, a + b) == RecordFrom(RecordFrom(events, a), b)
  {
    if b != [] {
      RecordFromAppend(events, a, b[..|b| - 1]);
      assert (a + b)[..|a + b| - 1] == a + b[..|b| - 1];
    } else {
      assert a + b == a;
    }
  }

  /** `events` before the de-duplication pass. */
  function RecordAll(es: seq<Emission>): OrderedDict<EventRecord>
  {
    RecordFrom(Dict([], map[]), es)
  }

  function DedupRecord(rec: EventRecord): EventRecord
  {
    EventRecord(rec.description, Dedup(rec.emitters))
  }

  /** The final pass: every `emitters` list loses its repeats. */
  function DedupEmitters(events: OrderedDict<EventRecord>): OrderedDict<EventRecord>
  {
    Dict(events.keys, map n | n in events.entries :: DedupRecord(events.entries[n]))
  }

  /** What `generateEventsDocumentation` returns for the given controllers. */
  function DocumentationOf(cs: seq<ControllerClass>): Documentation
  {
    var regs := Registrations(cs);
    Documentation(OpenApiVersion, Info(DocumentationTitle, DocumentationVersion),
                  MappingsOf(regs), DedupEmitters(RecordAll(Emissions(regs))))
  }

  /** The innermost loop: every name of one method's `emit` array is folded
      into `events`, opening a record or extending the existing one. */
  method RecordEmittedEvents(events: OrderedDict<EventRecord>, mappingKey: string, emitArray: seq<string>)
    returns (result: OrderedDict<EventRecord>)
    ensures result == RecordFrom(events, EmissionsOf(mappingKey, emitArray))
  {
    result := events;
    var k := 0;
    while k < |emitArray|
      invariant 0 <= k <= |emitArray|
      invariant result == RecordFrom(events, EmissionsOf(mappingKey, emitArray[..k]))
    {
      var emitEvent := emitArray[k];
      ghost var prefix := EmissionsOf(mappingKey, emitArray[..k]);
      assert emitArray[..k + 1][..k] == emitArray[..k];
      assert EmissionsOf(mappingKey, emitArray[..k + 1]) == prefix + [Emission(mappingKey, emitEvent)];
      assert (prefix + [Emission(mappingKey, emitEvent)])[..|prefix|] == prefix;
      if emitEvent !in result.entries {
        result := Put(result, emitEvent, EventRecord(FirstDescription(emitEvent, mappingKey), [mappingKey]));
      } else {
        var rec := result.entries[emitEvent];
        result := Put(result, emitEvent, EventRecord(rec.description + ", " + mappingKey, rec.emitters + [mappingKey]));
      }
      k := k + 1;
    }
    assert emitArray[..|emitArray|] == emitArray;
  }

  /** The final loop over the event names: each record's `emitters` list is
      replaced in place by its de-duplicated copy, so the key order is kept. */
  method RemoveDuplicateEmitters(events: OrderedDict<EventRecord>) returns (result: OrderedDict<EventRecord>)
    ensures result == DedupEmitters(events)
  {
    var eventNames := events.keys;
    var entries := events.entries;
    var i := 0;
    while i < |eventNames|
      invariant 0 <= i <= |eventNames|
      invariant entries.Keys == events.entries.Keys
      invariant forall j | 0 <= j < i :: entries[eventNames[j]] == DedupRecord(events.entries[eventNames[j]])
      invariant forall j | i <= j < |eventNames| :: entries[eventNames[j]] == events.entries[eventNames[j]]
    {
      var event := eventNames[i];
      var rec := entries[event];
      entries := entries[event := EventRecord(rec.description, Dedup(rec.emitters))];
      assert forall j | 0 <= j < |eventNames| && j != i :: eventNames[j] != event;
      i := i + 1;
    }
    assert entries == DedupEmitters(events).entries by {
      forall n | n in events.entries ensures entries[n] == DedupRecord(events.entries[n]) {
        var j :| 0 <= j < |eventNames| && eventNames[j] == n;
      }
    }
    result := Dict(eventNames, entries);
  }

  /** The two records the generator fills, `eventMappings` and `events`. */
  datatype Tables = Tables(eventMappings: OrderedDict<Mapping>, events: OrderedDict<EventRecord>)

  const NoTables := Tables(Dict([], map[]), Dict([], map[]))

  /** One registration: the mapping write, then its emitted names. */
  function Register(t: Tables, r: Registration): Tables
  {
    Tables(Put(t.eventMappings, r.key, r.mapping), RecordFrom(t.events, EmissionsOf(r.key, r.mapping.emit)))
  }

  function RegisterAll(t: Tables, regs: seq<Registration>): Tables
  {
    if regs == [] then t else Register(RegisterAll(t, regs[..|regs| - 1]), regs[|regs| - 1])
  }

  lemma RegisterAllSnoc(t: Tables, regs: seq<Registration>, r: Registration)
    ensures RegisterAll(t, regs + [r]) == Register(RegisterAll(t, regs), r)
  {
    assert (regs + [r])[..|regs|] == regs;
  }

  lemma {:induction false} RegisterAllAppend(t: Tables, a: seq<Registration>, b: seq<Registration>)
    ensures RegisterAll(t, a + b) == RegisterAll(RegisterAll(t, a), b)
  {
    if b != [] {
      var init, r := b[..|b| - 1], b[|b| - 1];
      assert b == init + [r];
      assert a + b == (a + init) + [r];
      RegisterAllAppend(t, a, init);
      RegisterAllSnoc(t, a + init, r);
      RegisterAllSnoc(RegisterAll(t, a), init, r);
    } else {
      assert a + b == a;
    }
  }

  /** Registering from empty tables gives the mapping writes and the
      emissions, each folded on its own. */
  lemma {:induction false} RegisterAllFromNothing(regs: seq<Registration>)
    ensures RegisterAll(NoTables, regs) == Tables(MappingsOf(regs), RecordAll(Emissions(regs)))
  {
    if regs != [] {
      var init, r := regs[..|regs| - 1], regs[|regs| - 1];
      RegisterAllFromNothing(init);
      RecordFromAppend(Dict([], map[]), Emissions(init), EmissionsOf(r.key, r.mapping.emit));
    }
  }

  /** The body of the loop over a prototype's own properties: `constructor`
      and undecorated methods are skipped; otherwise the mapping is written and
      the emitted names are recorded. */
  method RecordMember(controllerName: string, member: PrototypeMember,
                      eventMappings: OrderedDict<Mapping>, eventsDocumentation: OrderedDict<EventRecord>)
    returns (mappings': OrderedDict<Mapping>, events': OrderedDict<EventRecord>)
    ensures Tables(mappings', events')
         == RegisterAll(Tables(eventMappings, eventsDocumentation), MemberRegistration(controllerName, member))
  {
    mappings', events' := eventMappings, eventsDocumentation;
    if member.name == "constructor" {
      return;
    }
    if member.metadata.Some? {
      var metadata := member.metadata.value;
      var mappingKey := MappingKey(controllerName, member.name);
      var emitArray := Normalize(metadata.emit);
      var listenArray := Normalize(metadata.listen);
      ghost var reg := DeclaredRegistration(controllerName, member);
      assert MemberRegistration(controllerName, member) == [reg];
      assert [reg][..0] == [];
      mappings' := Put(mappings', mappingKey, Mapping(emitArray, listenArray));
      if |emitArray| > 0 {
        events' := RecordEmittedEvents(events', mappingKey, emitArray);
      } else {
        assert EmissionsOf(mappingKey, emitArray) == [];
      }
    }
  }

  /** The loop over one controller's prototype properties. */
  method RecordController(controller: ControllerClass,
                          eventMappings: OrderedDict<Mapping>, eventsDocumentation: OrderedDict<EventRecord>)
    returns (mappings': OrderedDict<Mapping>, events': OrderedDict<EventRecord>)
    ensures Tables(mappings', events')
         == RegisterAll(Tables(eventMappings, eventsDocumentation), MemberRegistrations(controller.name, controller.members))
  {
    mappings', events' := eventMappings, eventsDocumentation;
    ghost var start := Tables(eventMappings, eventsDocumentation);
    var members := controller.members;
    assert members[..0] == [];
    var mi := 0;
    while mi < |members|
      invariant 0 <= mi <= |members|
      invariant Tables(mappings', events') == RegisterAll(start, MemberRegistrations(controller.name, members[..mi]))
    {
      MemberStep(start, controller.name, members, mi);
      mappings', events' := RecordMember(controller.name, members[mi], mappings', events');
      mi := mi + 1;
    }
    assert members[..|members|] == members;
  }

  /** One step of the loop over a controller's properties: the property at
      position `mi` applies its own registrations after those before it. */
  lemma MemberStep(start: Tables, controllerName: string, members: seq<PrototypeMember>, mi: nat)
    requires mi < |members|
    ensures RegisterAll(start, MemberRegistrations(controllerName, members[..mi + 1]))
         == RegisterAll(RegisterAll(start, MemberRegistrations(controllerName, members[..mi])),
                        MemberRegistration(controllerName, members[mi]))
  {
    var done := MemberRegistrations(controllerName, members[..mi]);
    assert members[..mi + 1][..mi] == members[..mi] && members[..mi + 1][mi] == members[mi];
    assert MemberRegistrations(controllerName, members[..mi + 1])
        == done + MemberRegistration(controllerName, members[mi]);
    RegisterAllAppend(start, done, MemberRegistration(controllerName, members[mi]));
  }

  /** The nested loops of the generator over controllers, prototype members
      and emitted names, followed by the de-duplication loop. */
  method GenerateEventsDocumentation(controllers: seq<ControllerClass>) returns (doc: Documentation)
    ensures doc == DocumentationOf(controllers)
  {
    var eventsDocumentation: OrderedDict<EventRecord> := Dict([], map[]);
    var eventMappings: OrderedDict<Mapping> := Dict([], map[]);
    assert controllers[..0] == [];
    var ci := 0;
    while ci < |controllers|
      invariant 0 <= ci <= |controllers|
      invariant Tables(eventMappings, eventsDocumentation) == RegisterAll(NoTables, Registrations(controllers[..ci]))
    {
      ghost var done := Registrations(controllers[..ci]);
      assert controllers[..ci + 1][..ci] == controllers[..ci];
      assert Registrations(controllers[..ci + 1])
          == done + MemberRegistrations(controllers[ci].name, controllers[ci].members);
      RegisterAllAppend(NoTables, done, MemberRegistrations(controllers[ci].name, controllers[ci].members));
      eventMappings, eventsDocumentation := RecordController(controllers[ci], eventMappings, eventsDocumentation);
      ci := ci + 1;
    }
    assert controllers[..|controllers|] == controllers;
    RegisterAllFromNothing(Registrations(controllers));

    eventsDocumentation := RemoveDuplicateEmitters(eventsDocumentation);
    doc := Documentation(OpenApiVersion, Info(DocumentationTitle, DocumentationVersion),
                         eventMappings, eventsDocumentation);
  }

  // Properties of the documentation, stated on the specification functions.

  /** `events` before de-duplication is keyed by the emitted names, in the
      order they are first emitted. */
  lemma {:induction false} RecordAllKeys(es: seq<Emission>)
    ensures RecordAll(es).keys == Dedup(NamesOf(es))
  {
    if es != [] {
      var init := es[..|es| - 1];
      RecordAllKeys(init);
      assert NamesOf(es)[..|NamesOf(es)| - 1] == NamesOf(init);
    }
  }

  /** `events` before de-duplication: a record for every emitted name, holding
      every emission of that name in order and the description grown one
      emitter at a time. */
  lemma {:induction false} RecordAllEntries(es: seq<Emission>)
    ensures forall name :: name in RecordAll(es).entries <==> EmittersOf(es, name) != []
    ensures forall name | name in RecordAll(es).entries ::
      RecordAll(es).entries[name] == EventRecord(Description(name, EmittersOf(es, name)), EmittersOf(es, name))
  {
    if es != [] {
      var init, e := es[..|es| - 1], es[|es| - 1];
      RecordAllEntries(init);
      var before := RecordAll(init);
      assert RecordAll(es) == RecordEmission(before, e);
      forall name
        ensures name in RecordAll(es).entries <==> EmittersOf(es, name) != []
        ensures name in RecordAll(es).entries ==>
          RecordAll(es).entries[name] == EventRecord(Description(name, EmittersOf(es, name)), EmittersOf(es, name))
      {
        var emitters := EmittersOf(init, name);
        if name == e.name {
          assert EmittersOf(es, name) == emitters + [e.emitter];
          if emitters != [] {
            assert (emitters + [e.emitter])[..|emitters|] == emitters;
          }
        } else {
          assert EmittersOf(es, name) == emitters;
          assert RecordAll(es).entries == before.entries[e.name := RecordAll(es).entries[e.name]];
        }
      }
    }
  }

  /** The emitters of a name are exactly the keys of its emissions. */
  lemma {:induction false} EmittersOfMembers(es: seq<Emission>, name: string)
    ensures forall key :: key in EmittersOf(es, name) <==> Emission(key, name) in es
  {
    if es != [] {
      var init := es[..|es| - 1];
      EmittersOfMembers(init, name);
      assert es == init + [es[|es| - 1]];
    }
  }

  lemma {:induction false} EmissionsOfMembers(key: string, names: seq<string>)
    ensures forall e :: e in EmissionsOf(key, names) <==> e.emitter == key && e.name in names
  {
    if names != [] {
      var init := names[..|names| - 1];
      EmissionsOfMembers(key, init);
      assert names == init + [names[|names| - 1]];
    }
  }

  /** The registration under `key` lists `name` in its `emit` array. */
  ghost predicate Emits(regs: seq<Registration>, key: string, name: string)
  {
    exists i | 0 <= i < |regs| :: regs[i].key == key && name in regs[i].mapping.emit
  }

  /** The innermost loop visits the pair (key, name) exactly when some
      registration under `key` emits `name`. */
  lemma {:induction false} EmissionsMembers(regs: seq<Registration>)
    ensures forall key, name :: Emission(key, name) in Emissions(regs) <==> Emits(regs, key, name)
  {
    if regs != [] {
      var init, r := regs[..|regs| - 1], regs[|regs| - 1];
      EmissionsMembers(init);
      EmissionsOfMembers(r.key, r.mapping.emit);
      forall key, name
        ensures Emission(key, name) in Emissions(regs) <==> Emits(regs, key, name)
      {
        if Emits(init, key, name) {
          var i :| 0 <= i < |init| && init[i].key == key && name in init[i].mapping.emit;
          assert regs[i] == init[i];
        }
        if Emits(regs, key, name) {
          var i :| 0 <= i < |regs| && regs[i].key == key && name in regs[i].mapping.emit;
          if i < |init| {
            assert init[i] == regs[i];
          }
        }
      }
    }
  }

  /** `events` after de-duplication, in terms of the emissions alone. */
  lemma DedupedRecords(es: seq<Emission>)
    ensures DedupEmitters(RecordAll(es)).keys == Dedup(NamesOf(es))
    ensures forall name :: name in DedupEmitters(RecordAll(es)).entries <==> EmittersOf(es, name) != []
    ensures forall name | name in DedupEmitters(RecordAll(es)).entries ::
      DedupEmitters(RecordAll(es)).entries[name]
      == EventRecord(Description(name, EmittersOf(es, name)), Dedup(EmittersOf(es, name)))
  {
    RecordAllKeys(es);
    RecordAllEntries(es);
  }

  /** A name has an emission exactly when some registration emits it. */
  lemma EmittedName(regs: seq<Registration>, name: string)
    ensures EmittersOf(Emissions(regs), name) != [] <==> exists key :: Emits(regs, key, name)
  {
    var es := Emissions(regs);
    EmissionsMembers(regs);
    EmittersOfMembers(es, name);
    if EmittersOf(es, name) != [] {
      var key := EmittersOf(es, name)[0];
      assert Emission(key, name) in es;
    }
    if exists key :: Emits(regs, key, name) {
      var key :| Emits(regs, key, name);
      assert key in EmittersOf(es, name);
    }
  }

  /** A name is recorded exactly when some registration emits it. */
  lemma RecordedNames(regs: seq<Registration>)
    ensures forall name :: name in DedupEmitters(RecordAll(Emissions(regs))).entries <==>
      exists key :: Emits(regs, key, name)
  {
    DedupedRecords(Emissions(regs));
    forall name
      ensures EmittersOf(Emissions(regs), name) != [] <==> exists key :: Emits(regs, key, name)
    {
      EmittedName(regs, name);
    }
  }

  /** The emitters of a recorded name are exactly the keys that emit it. */
  lemma RecordedEmitters(regs: seq<Registration>)
    ensures forall name, key | name in DedupEmitters(RecordAll(Emissions(regs))).entries ::
      key in DedupEmitters(RecordAll(Emissions(regs))).entries[name].emitters <==> Emits(regs, key, name)
  {
    var es := Emissions(regs);
    var events := DedupEmitters(RecordAll(es));
    DedupedRecords(es);
    EmissionsMembers(regs);
    forall name, key | name in events.entries
      ensures key in events.entries[name].emitters <==> Emission(key, name) in es
    {
      EmittersOfMembers(es, name);
    }
  }

  /** The `events` section of the documentation: a name is documented exactly
      when some registered method emits it; its emitters are exactly the keys
      of the methods that emit it, each once, in the order of their first
      emission; its description names the first emitter and then one more
      emitter per further emission, repeats included. */
  lemma EventsSection(cs: seq<ControllerClass>)
    ensures DocumentationOf(cs).events.keys == Dedup(NamesOf(Emissions(Registrations(cs))))
    ensures forall name :: name in DocumentationOf(cs).events.entries <==>
      exists key :: Emits(Registrations(cs), key, name)
    ensures forall name, key | name in DocumentationOf(cs).events.entries ::
      key in DocumentationOf(cs).events.entries[name].emitters <==> Emits(Registrations(cs), key, name)
    ensures forall name | name in DocumentationOf(cs).events.entries ::
      && DocumentationOf(cs).events.entries[name].emitters == Dedup(EmittersOf(Emissions(Registrations(cs)), name))
      && DocumentationOf(cs).events.entries[name].description
         == Description(name, EmittersOf(Emissions(Registrations(cs)), name))
  {
    var regs := Registrations(cs);
    var es := Emissions(regs);
    assert DocumentationOf(cs).events == DedupEmitters(RecordAll(es));
    DedupedRecords(es);
    RecordedNames(regs);
    RecordedEmitters(regs);
  }

  /** Every emitter listed under `events` is a key of `eventMappings`. */
  lemma EmittersAreMappingKeys(cs: seq<ControllerClass>)
    ensures forall name, key | name in DocumentationOf(cs).events.entries &&
      key in DocumentationOf(cs).events.entries[name].emitters :: key in DocumentationOf(cs).eventMappings.entries
  {
    EventsSection(cs);
    KeysOfIndex(Registrations(cs));
    MappingsOfKeys(Registrations(cs));
    forall name, key | name in DocumentationOf(cs).events.entries &&
      key in DocumentationOf(cs).events.entries[name].emitters
      ensures key in DocumentationOf(cs).eventMappings.entries
    {
      var regs := Registrations(cs);
      var i :| 0 <= i < |regs| && regs[i].key == key && name in regs[i].mapping.emit;
      assert KeysOf(regs)[i] == key;
    }
  }

  lemma {:induction false} KeysOfIndex(regs: seq<Registration>)
    ensures |KeysOf(regs)| == |regs| && forall i | 0 <= i < |regs| :: KeysOf(regs)[i] == regs[i].key
  {
    if regs != [] {
      KeysOfIndex(regs[..|regs| - 1]);
    }
  }

  /** `eventMappings` holds its keys in the order they were first written. */
  lemma {:induction false} MappingsOfKeys(regs: seq<Registration>)
    ensures MappingsOf(regs).keys == Dedup(KeysOf(regs))
  {
    if regs != [] {
      var init := regs[..|regs| - 1];
      MappingsOfKeys(init);
      assert KeysOf(regs)[..|KeysOf(regs)| - 1] == KeysOf(init);
    }
  }

  /** Under each key, `eventMappings` holds the mapping of the last write. */
  lemma {:induction false} MappingsOfLastWrite(regs: seq<Registration>)
    ensures forall i | 0 <= i < |regs| :: regs[i].key in MappingsOf(regs).entries
    ensures forall i | 0 <= i < |regs| && (forall j | i < j < |regs| :: regs[j].key != regs[i].key) ::
      MappingsOf(regs).entries[regs[i].key] == regs[i].mapping
  {
    if regs != [] {
      var init, r := regs[..|regs| - 1], regs[|regs| - 1];
      assert regs == init + [r];
      var before := MappingsOf(init).entries;
      var after := MappingsOf(regs).entries;
      assert after == before[r.key := r.mapping];
      MappingsOfLastWrite(init);
      forall i | 0 <= i < |regs| ensures regs[i].key in after {
        if i < |init| {
          assert regs[i] == init[i] && init[i].key in before;
        }
      }
      forall i | 0 <= i < |regs| && (forall j | i < j < |regs| :: regs[j].key != regs[i].key)
        ensures after[regs[i].key] == regs[i].mapping
      {
        if i < |init| {
          assert regs[i] == init[i];
          assert regs[|regs| - 1].key != regs[i].key;
          forall j | i < j < |init| ensures init[j].key != init[i].key {
            assert init[j] == regs[j];
          }
          assert before[init[i].key] == init[i].mapping;
        }
      }
    }
  }

  lemma {:induction false} MemberRegistrationsDeclared(controllerName: string, ms: seq<PrototypeMember>)
    ensures forall r :: r in MemberRegistrations(controllerName, ms) <==>
      exists mi | 0 <= mi < |ms| && ms[mi].name != "constructor" && ms[mi].metadata.Some? ::
        r == DeclaredRegistration(controllerName, ms[mi])
  {
    if ms != [] {
      var init, m := ms[..|ms| - 1], ms[|ms| - 1];
      MemberRegistrationsDeclared(controllerName, init);
      forall r | r in MemberRegistrations(controllerName, ms)
        ensures exists mi | 0 <= mi < |ms| && ms[mi].name != "constructor" && ms[mi].metadata.Some? ::
          r == DeclaredRegistration(controllerName, ms[mi])
      {
        if r in MemberRegistrations(controllerName, init) {
          var mi :| 0 <= mi < |init| && init[mi].name != "constructor" && init[mi].metadata.Some?
                 && r == DeclaredRegistration(controllerName, init[mi]);
          assert ms[mi] == init[mi];
        } else {
          assert ms[|ms| - 1] == m;
        }
      }
      forall mi | 0 <= mi < |ms| && ms[mi].name != "constructor" && ms[mi].metadata.Some?
        ensures DeclaredRegistration(controllerName, ms[mi]) in MemberRegistrations(controllerName, ms)
      {
        if mi < |init| {
          assert init[mi] == ms[mi];
        }
      }
    }
  }

  /** Every write to `eventMappings` comes from a declaring method. */
  lemma {:induction false} RegistrationsSound(cs: seq<ControllerClass>)
    ensures forall r | r in Registrations(cs) ::
      exists ci, mi | Declares(cs, ci, mi) :: r == DeclaredRegistration(cs[ci].name, cs[ci].members[mi])
  {
    if cs != [] {
      var init, c := cs[..|cs| - 1], cs[|cs| - 1];
      assert cs == init + [c];
      assert Registrations(cs) == Registrations(init) + MemberRegistrations(c.name, c.members);
      RegistrationsSound(init);
      MemberRegistrationsDeclared(c.name, c.members);
      forall r | r in Registrations(cs)
        ensures exists ci, mi | Declares(cs, ci, mi) :: r == DeclaredRegistration(cs[ci].name, cs[ci].members[mi])
      {
        if r in Registrations(init) {
          var ci, mi :| Declares(init, ci, mi) && r == DeclaredRegistration(init[ci].name, init[ci].members[mi]);
          assert cs[ci] == init[ci];
          assert Declares(cs, ci, mi);
        } else {
          var mi :| 0 <= mi < |c.members| && c.members[mi].name != "constructor" && c.members[mi].metadata.Some?
                 && r == DeclaredRegistration(c.name, c.members[mi]);
          assert Declares(cs, |cs| - 1, mi);
        }
      }
    }
  }

  /** Every declaring method writes to `eventMappings`. */
  lemma {:induction false} RegistrationsComplete(cs: seq<ControllerClass>)
    ensures forall ci, mi | Declares(cs, ci, mi) ::
      DeclaredRegistration(cs[ci].name, cs[ci].members[mi]) in Registrations(cs)
  {
    if cs != [] {
      var init, c := cs[..|cs| - 1], cs[|cs| - 1];
      assert cs == init + [c];
      assert Registrations(cs) == Registrations(init) + MemberRegistrations(c.name, c.members);
      RegistrationsComplete(init);
      MemberRegistrationsDeclared(c.name, c.members);
      forall ci, mi | Declares(cs, ci, mi)
        ensures DeclaredRegistration(cs[ci].name, cs[ci].members[mi]) in Registrations(cs)
      {
        if ci < |init| {
          assert init[ci] == cs[ci];
          assert Declares(init, ci, mi);
        }
      }
    }
  }

  /** The writes to `eventMappings` are exactly those of the methods, other
      than `constructor`, that carry events metadata. */
  lemma RegistrationsDeclared(cs: seq<ControllerClass>)
    ensures forall r :: r in Registrations(cs) <==>
      exists ci, mi | Declares(cs, ci, mi) :: r == DeclaredRegistration(cs[ci].name, cs[ci].members[mi])
  {
    RegistrationsSound(cs);
    RegistrationsComplete(cs);
  }

  /** A key is in `eventMappings` exactly when some write used it. */
  lemma {:induction false} MappingKeysWritten(regs: seq<Registration>)
    ensures forall key :: key in MappingsOf(regs).entries <==> exists r | r in regs :: r.key == key
  {
    if regs != [] {
      var init, last := regs[..|regs| - 1], regs[|regs| - 1];
      assert regs == init + [last];
      assert forall r :: r in regs <==> r in init || r == last;
      MappingKeysWritten(init);
    }
  }

  /** The keys of `eventMappings` are the `Controller.method` names of the
      declaring methods. */
  lemma MappingKeysDeclared(cs: seq<ControllerClass>)
    ensures forall key :: key in DocumentationOf(cs).eventMappings.entries <==>
      exists ci, mi | Declares(cs, ci, mi) :: key == MappingKey(cs[ci].name, cs[ci].members[mi].name)
  {
    var regs := Registrations(cs);
    assert MappingsOf(regs) == DocumentationOf(cs).eventMappings;
    MappingKeysWritten(regs);
    RegistrationsDeclared(cs);
    forall key | key in MappingsOf(regs).entries
      ensures exists ci, mi | Declares(cs, ci, mi) :: key == MappingKey(cs[ci].name, cs[ci].members[mi].name)
    {
      var r :| r in regs && r.key == key;
      var ci, mi :| Declares(cs, ci, mi) && r == DeclaredRegistration(cs[ci].name, cs[ci].members[mi]);
    }
    forall ci, mi | Declares(cs, ci, mi)
      ensures MappingKey(cs[ci].name, cs[ci].members[mi].name) in MappingsOf(regs).entries
    {
      assert DeclaredRegistration(cs[ci].name, cs[ci].members[mi]) in regs;
    }
  }

  /** A name is emitted under `key` exactly when a declaring method with that
      key lists it in its normalized `emit` value. */
  lemma EmitsDeclared(cs: seq<ControllerClass>, key: string, name: string)
    ensures Emits(Registrations(cs), key, name) <==>
      exists ci, mi | Declares(cs, ci, mi) ::
        key == MappingKey(cs[ci].name, cs[ci].members[mi].name)
        && name in Normalize(cs[ci].members[mi].metadata.value.emit)
  {
    var regs := Registrations(cs);
    RegistrationsDeclared(cs);
    if Emits(regs, key, name) {
      var i :| 0 <= i < |regs| && regs[i].key == key && name in regs[i].mapping.emit;
      assert regs[i] in regs;
    }
    if exists ci, mi | Declares(cs, ci, mi) ::
        key == MappingKey(cs[ci].name, cs[ci].members[mi].name)
        && name in Normalize(cs[ci].members[mi].metadata.value.emit) {
      var ci, mi :| Declares(cs, ci, mi) && key == MappingKey(cs[ci].name, cs[ci].members[mi].name)
        && name in Normalize(cs[ci].members[mi].metadata.value.emit);
      var r := DeclaredRegistration(cs[ci].name, cs[ci].members[mi]);
      assert r in regs;
      var i :| 0 <= i < |regs| && regs[i] == r;
      assert regs[i].key == key && name in regs[i].mapping.emit;
    }
  }

  // Worked examples.

  /** A single controller with a single declaring method registers once. */
  lemma {:induction false} SingleMethodRegistrations(controllerName: string, m: PrototypeMember)
    requires m.name != "constructor" && m.metadata.Some?
    ensures Registrations([ControllerClass(controllerName, [m])]) == [DeclaredRegistration(controllerName, m)]
  {
    var c := ControllerClass(controllerName, [m]);
    assert [m][..0] == [];
    assert MemberRegistrations(controllerName, []) == [];
    assert MemberRegistrations(controllerName, [m]) == MemberRegistration(controllerName, m);
    assert [c][..0] == [];
    assert Registrations([]) == [];
    assert Registrations([c]) == MemberRegistrations(controllerName, [m]);
  }

  /** Two emissions of one name by one key. */
  lemma {:induction false} RecordTwice(key: string, name: string)
    ensures RecordAll([Emission(key, name), Emission(key, name)])
         == Dict([name], map[name := EventRecord(FirstDescription(name, key) + ", " + key, [key, key])])
  {
    var e := Emission(key, name);
    assert [e, e][..1] == [e];
    assert [e][..0] == [];
    assert RecordFrom(Dict([], map[]), []) == Dict([], map[]);
    assert RecordAll([e]) == RecordEmission(Dict([], map[]), e);
    var once := Dict([name], map[name := EventRecord(FirstDescription(name, key), [key])]);
    assert RecordAll([e]) == once;
    assert RecordAll([e, e]) == RecordEmission(once, e);
    assert [key] + [key] == [key, key];
  }

  lemma {:induction false} DedupEmittersSingle(name: string, rec: EventRecord)
    ensures DedupEmitters(Dict([name], map[name := rec])) == Dict([name], map[name := DedupRecord(rec)])
  {
  }

  /** The innermost loop visits the name of a method whose `emit` array
      lists it twice two times. */
  lemma {:induction false} RepeatedEmissions(controllerName: string, methodName: string, name: string)
    requires methodName != "constructor"
    ensures Emissions(Registrations([ControllerClass(controllerName,
              [PrototypeMember(methodName, Some(EventsMetadata(Arr([name, name]), Absent)))])]))
         == [Emission(MappingKey(controllerName, methodName), name), Emission(MappingKey(controllerName, methodName), name)]
  {
    var m := PrototypeMember(methodName, Some(EventsMetadata(Arr([name, name]), Absent)));
    var key := MappingKey(controllerName, methodName);
    var r := DeclaredRegistration(controllerName, m);
    var e := Emission(key, name);
    assert [name, name][..1] == [name] && [name][..0] == [];
    assert [r][..0] == [];
    assert EmissionsOf(key, [name]) == [e];
    assert EmissionsOf(key, [name, name]) == [e, e];
    assert Emissions([r]) == [e, e];
    SingleMethodRegistrations(controllerName, m);
  }

  /** A method that emits the same name twice: the description names the
      method twice, the emitters list it once. */
  lemma {:induction false} RepeatedEmitter(controllerName: string, methodName: string, name: string)
    requires methodName != "constructor"
    ensures DocumentationOf([ControllerClass(controllerName,
              [PrototypeMember(methodName, Some(EventsMetadata(Arr([name, name]), Absent)))])]).events
         == Dict([name], map[name := EventRecord(
              FirstDescription(name, MappingKey(controllerName, methodName)) + ", " + MappingKey(controllerName, methodName),
              [MappingKey(controllerName, methodName)])])
  {
    var key := MappingKey(controllerName, methodName);
    assert [key, key][..1] == [key] && [key][..0] == [];
    assert Dedup([key, key]) == [key];
    RepeatedEmissions(controllerName, methodName, name);
    RecordTwice(key, name);
    DedupEmittersSingle(name, EventRecord(FirstDescription(name, key) + ", " + key, [key, key]));
  }

  lemma {:induction false} TwoControllerRegistrations(controllerName: string, m1: PrototypeMember, m2: PrototypeMember)
    requires m1.name != "constructor" && m1.metadata.Some?
    requires m2.name != "constructor" && m2.metadata.Some?
    ensures Registrations([ControllerClass(controllerName, [m1]), ControllerClass(controllerName, [m2])])
         == [DeclaredRegistration(controllerName, m1), DeclaredRegistration(controllerName, m2)]
  {
    var c1, c2 := ControllerClass(controllerName, [m1]), ControllerClass(controllerName, [m2]);
    SingleMethodRegistrations(controllerName, m1);
    assert [c1, c2][..1] == [c1];
    assert [m2][..0] == [];
  }

  /** A second write to the same key replaces the value in place. */
  lemma {:induction false} MappingsOverwrite(r1: Registration, r2: Registration)
    requires r1.key == r2.key
    ensures MappingsOf([r1, r2]) == Dict([r1.key], map[r1.key := r2.mapping])
  {
    assert [r1, r2][..1] == [r1];
    assert [r1][..0] == [];
    assert MappingsOf([]) == Dict([], map[]);
    assert MappingsOf([r1]) == Put(Dict([], map[]), r1.key, r1.mapping);
    assert MappingsOf([r1, r2]) == Put(MappingsOf([r1]), r2.key, r2.mapping);
  }

  lemma {:induction false} RecordTwoNames(key: string, a: string, b: string)
    requires a != b
    ensures RecordAll([Emission(key, a), Emission(key, b)]).keys == [a, b]
    ensures RecordAll([Emission(key, a), Emission(key, b)]).entries[a] == EventRecord(FirstDescription(a, key), [key])
  {
    var ea, eb := Emission(key, a), Emission(key, b);
    assert [ea, eb][..1] == [ea];
    assert [ea][..0] == [];
    assert RecordFrom(Dict([], map[]), []) == Dict([], map[]);
    assert RecordAll([ea]) == RecordEmission(Dict([], map[]), ea);
    assert RecordAll([ea, eb]) == RecordEmission(RecordAll([ea]), eb);
  }

  lemma {:induction false} EmissionsOfSingles(r1: Registration, r2: Registration)
    requires |r1.mapping.emit| == 1 && |r2.mapping.emit| == 1
    ensures Emissions([r1, r2]) == [Emission(r1.key, r1.mapping.emit[0]), Emission(r2.key, r2.mapping.emit[0])]
  {
    assert [r1, r2][..1] == [r1];
    assert [r1][..0] == [];
    assert r1.mapping.emit[..0] == [] && r2.mapping.emit[..0] == [];
    assert Emissions([]) == [];
    assert EmissionsOf(r1.key, r1.mapping.emit) == [Emission(r1.key, r1.mapping.emit[0])];
    assert EmissionsOf(r2.key, r2.mapping.emit) == [Emission(r2.key, r2.mapping.emit[0])];
  }

  /** Two controllers with the same class name declare the same method: the
      later mapping replaces the earlier one under the shared key, while the
      name only the earlier one emitted stays documented with that key as its
      emitter. */
  lemma {:induction false} SupersededMapping(controllerName: string, methodName: string, a: string, b: string)
    requires methodName != "constructor" && a != "" && b != "" && a != b
    ensures var key := MappingKey(controllerName, methodName);
      var doc := DocumentationOf([
        ControllerClass(controllerName, [PrototypeMember(methodName, Some(EventsMetadata(Str(a), Absent)))]),
        ControllerClass(controllerName, [PrototypeMember(methodName, Some(EventsMetadata(Str(b), Absent)))])]);
      && doc.eventMappings == Dict([key], map[key := Mapping([b], [])])
      && doc.events.keys == [a, b]
      && doc.events.entries[a] == EventRecord(FirstDescription(a, key), [key])
  {
    var key := MappingKey(controllerName, methodName);
    var m1 := PrototypeMember(methodName, Some(EventsMetadata(Str(a), Absent)));
    var m2 := PrototypeMember(methodName, Some(EventsMetadata(Str(b), Absent)));
    var r1, r2 := DeclaredRegistration(controllerName, m1), DeclaredRegistration(controllerName, m2);
    TwoControllerRegistrations(controllerName, m1, m2);
    MappingsOverwrite(r1, r2);
    EmissionsOfSingles(r1, r2);
    RecordTwoNames(key, a, b);
    assert [key][..0] == [];
    assert Dedup([key]) == [key];
  }
}
