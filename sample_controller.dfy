/** What the documentation generator and the diagram give for the sample
    application's `EventsController`: a `constructor` and five decorated methods, the
    first emitting `user.created`, the second listening to it and emitting
    `email.sent`, the last three listening only (to `email.sent`, to `**` and
    to `email.*`). The controller and method names stay abstract; only their
    distinctness matters. */
module SampleController {
  import opened Collections
  import opened DocumentationGenerator
  import opened EventsFlowHtml

  /** The class name and the five method names of the controller. */
  datatype Names = Names(
    controller: string,
    createUser: string,
    onUserCreated: string,
    onEmailSent: string,
    onAllEvents: string,
    onAllEmailEvents: string)

  /** Five different method names, none of them `constructor`. */
  predicate Separate(n: Names)
  {
    var ms := [n.createUser, n.onUserCreated, n.onEmailSent, n.onAllEvents, n.onAllEmailEvents];
    && (forall i | 0 <= i < 5 :: ms[i] != "constructor")
    && (forall i, j | 0 <= i < j < 5 :: ms[i] != ms[j])
  }

  /** The prototype's own properties in declaration order, with the events
      `userCreated` and `emailSent` and the patterns `allPattern` and
      `emailPattern` in the places of the sample's four literals. Whatever the
      `constructor` property carries is skipped. */
  function Members(n: Names, ctor: Option<EventsMetadata>, userCreated: string, emailSent: string,
                   allPattern: string, emailPattern: string): seq<PrototypeMember>
  {
    [PrototypeMember("constructor", ctor),
     PrototypeMember(n.createUser, Some(EventsMetadata(Arr([userCreated]), Arr([])))),
     PrototypeMember(n.onUserCreated, Some(EventsMetadata(Arr([emailSent]), Arr([userCreated])))),
     PrototypeMember(n.onEmailSent, Some(EventsMetadata(Absent, Arr([emailSent])))),
     PrototypeMember(n.onAllEvents, Some(EventsMetadata(Absent, Arr([allPattern])))),
     PrototypeMember(n.onAllEmailEvents, Some(EventsMetadata(Absent, Arr([emailPattern]))))]
  }

  /** The five `eventMappings` writes, in property order, to the keys `ks`. */
  function Writes(ks: seq<string>, userCreated: string, emailSent: string,
                  allPattern: string, emailPattern: string): seq<Registration>
    requires |ks| == 5
  {
    [Registration(ks[0], Mapping([userCreated], [])),
     Registration(ks[1], Mapping([emailSent], [userCreated])),
     Registration(ks[2], Mapping([], [emailSent])),
     Registration(ks[3], Mapping([], [allPattern])),
     Registration(ks[4], Mapping([], [emailPattern]))]
  }

  /** The `Controller.method` keys of the five methods. */
  function Keys(n: Names): seq<string>
  {
    var c := n.controller;
    [MappingKey(c, n.createUser), MappingKey(c, n.onUserCreated), MappingKey(c, n.onEmailSent),
     MappingKey(c, n.onAllEvents), MappingKey(c, n.onAllEmailEvents)]
  }

  /** Keys of one controller differ when the method names differ. */
  lemma MappingKeyInjective(c: string, a: string, b: string)
    requires a != b
    ensures MappingKey(c, a) != MappingKey(c, b)
  {
    MappingKeyParts(c, a);
    MappingKeyParts(c, b);
  }

  lemma KeysDistinct(n: Names)
    requires Separate(n)
    ensures Distinct(Keys(n))
  {
    var ms := [n.createUser, n.onUserCreated, n.onEmailSent, n.onAllEvents, n.onAllEmailEvents];
    forall i, j | 0 <= i < j < 5
      ensures Keys(n)[i] != Keys(n)[j]
    {
      assert Keys(n)[i] == MappingKey(n.controller, ms[i]) && Keys(n)[j] == MappingKey(n.controller, ms[j]);
      MappingKeyInjective(n.controller, ms[i], ms[j]);
    }
  }

  /** `Separate`, spelled out name by name. */
  lemma SeparateNames(n: Names)
    requires Separate(n)
    ensures n.createUser != "constructor" && n.onUserCreated != "constructor" && n.onEmailSent != "constructor"
    ensures n.onAllEvents != "constructor" && n.onAllEmailEvents != "constructor"
  {
    var ms := [n.createUser, n.onUserCreated, n.onEmailSent, n.onAllEvents, n.onAllEmailEvents];
    assert ms[0] != "constructor" && ms[1] != "constructor" && ms[2] != "constructor";
    assert ms[3] != "constructor" && ms[4] != "constructor";
  }

  /** Extending the members by one whose write is the next expected one
      extends the writes by that one. */
  lemma MemberRegistrationsExtend(c: string, ms: seq<PrototypeMember>, ws: seq<Registration>, k: nat)
    requires 1 <= k < |ms| && k <= |ws|
    requires MemberRegistrations(c, ms[..k]) == ws[..k - 1]
    requires MemberRegistration(c, ms[k]) == [ws[k - 1]]
    ensures MemberRegistrations(c, ms[..k + 1]) == ws[..k]
  {
    assert ms[..k + 1][..k] == ms[..k];
    assert ws[..k] == ws[..k - 1] + [ws[k - 1]];
  }

  /** Member `k` writes the `k`th expected registration. */
  lemma MemberWrites(n: Names, ctor: Option<EventsMetadata>, userCreated: string, emailSent: string,
                     allPattern: string, emailPattern: string, k: nat)
    requires Separate(n) && 1 <= k <= 5
    ensures MemberRegistration(n.controller, Members(n, ctor, userCreated, emailSent, allPattern, emailPattern)[k])
         == [Writes(Keys(n), userCreated, emailSent, allPattern, emailPattern)[k - 1]]
  {
    SeparateNames(n);
  }

  /** The constructor writes nothing and every decorated method writes its
      key with its arrays, a missing `emit` becoming `[]`. */
  lemma SampleRegistrations(n: Names, ctor: Option<EventsMetadata>, userCreated: string, emailSent: string,
                            allPattern: string, emailPattern: string)
    requires Separate(n)
    ensures Registrations([ControllerClass(n.controller, Members(n, ctor, userCreated, emailSent, allPattern, emailPattern))])
         == Writes(Keys(n), userCreated, emailSent, allPattern, emailPattern)
  {
    var c := n.controller;
    var ms := Members(n, ctor, userCreated, emailSent, allPattern, emailPattern);
    var ws := Writes(Keys(n), userCreated, emailSent, allPattern, emailPattern);
    assert ms[..1] == [ms[0]] && ms[..1][..0] == [];
    assert MemberRegistrations(c, ms[..1]) == ws[..0];
    for k := 1 to 6
      invariant MemberRegistrations(c, ms[..k]) == ws[..k - 1]
    {
      MemberWrites(n, ctor, userCreated, emailSent, allPattern, emailPattern, k);
      MemberRegistrationsExtend(c, ms, ws, k);
    }
    assert ms[..6] == ms && ws[..5] == ws;
    var cs := [ControllerClass(c, ms)];
    assert cs[..0] == [];
  }

  /** Writes to pairwise different keys: each key is listed once, in write
      order, and holds its own mapping. */
  lemma MappingsOfDistinctKeys(regs: seq<Registration>, ks: seq<string>)
    requires |regs| == |ks| && Distinct(ks) && forall i | 0 <= i < |regs| :: regs[i].key == ks[i]
    ensures MappingsOf(regs).keys == ks
    ensures forall i | 0 <= i < |regs| :: ks[i] in MappingsOf(regs).entries && MappingsOf(regs).entries[ks[i]] == regs[i].mapping
  {
    KeysOfIndex(regs);
    assert KeysOf(regs) == ks;
    DedupOfDistinct(ks);
    MappingsOfKeys(regs);
    MappingsOfLastWrite(regs);
  }

  /** The writes go to five different keys, so `eventMappings` lists every
      method once, in property order, each with its own arrays. */
  lemma SampleMappings(ks: seq<string>, userCreated: string, emailSent: string,
                       allPattern: string, emailPattern: string)
    requires |ks| == 5 && Distinct(ks)
    ensures var m := MappingsOf(Writes(ks, userCreated, emailSent, allPattern, emailPattern));
      && m.keys == ks
      && forall i | 0 <= i < 5 :: ks[i] in m.entries && m.entries[ks[i]] == Writes(ks, userCreated, emailSent, allPattern, emailPattern)[i].mapping
  {
    var ws := Writes(ks, userCreated, emailSent, allPattern, emailPattern);
    assert forall i | 0 <= i < 5 :: ws[i].key == ks[i];
    MappingsOfDistinctKeys(ws, ks);
  }

  lemma EmissionsStep(regs: seq<Registration>, i: nat)
    requires i < |regs|
    ensures Emissions(regs[..i + 1]) == Emissions(regs[..i]) + EmissionsOf(regs[i].key, regs[i].mapping.emit)
  {
    assert regs[..i + 1][..i] == regs[..i];
  }

  /** Five writes of which only the first two emit, one name each. */
  lemma TwoEmittersOfFive(ws: seq<Registration>, a: string, b: string)
    requires |ws| == 5 && ws[0].mapping.emit == [a] && ws[1].mapping.emit == [b]
    requires ws[2].mapping.emit == [] && ws[3].mapping.emit == [] && ws[4].mapping.emit == []
    ensures Emissions(ws) == [Emission(ws[0].key, a), Emission(ws[1].key, b)]
  {
    assert [a][..0] == [] && [b][..0] == [];
    assert EmissionsOf(ws[0].key, [a]) == [Emission(ws[0].key, a)];
    assert EmissionsOf(ws[1].key, [b]) == [Emission(ws[1].key, b)];
    assert ws[..0] == [];
    EmissionsStep(ws, 0);
    EmissionsStep(ws, 1);
    EmissionsStep(ws, 2);
    EmissionsStep(ws, 3);
    EmissionsStep(ws, 4);
    assert ws[..5] == ws;
  }

  /** Two emissions of different names, by any keys, open one record each. */
  lemma RecordTwoEmissions(e1: Emission, e2: Emission)
    requires e1.name != e2.name
    ensures RecordAll([e1, e2])
         == Dict([e1.name, e2.name], map[e1.name := EventRecord(FirstDescription(e1.name, e1.emitter), [e1.emitter]),
                                         e2.name := EventRecord(FirstDescription(e2.name, e2.emitter), [e2.emitter])])
  {
    assert [e1, e2][..1] == [e1];
    assert [e1][..0] == [];
    assert RecordFrom(Dict([], map[]), []) == Dict([], map[]);
    assert RecordAll([e1]) == RecordEmission(Dict([], map[]), e1);
    assert RecordAll([e1, e2]) == RecordEmission(RecordAll([e1]), e2);
  }

  /** The final pass leaves two single-emitter records as they are. */
  lemma DedupTwoRecords(n1: string, r1: EventRecord, n2: string, r2: EventRecord)
    requires n1 != n2 && |r1.emitters| == 1 && |r2.emitters| == 1
    ensures DedupEmitters(Dict([n1, n2], map[n1 := r1, n2 := r2])) == Dict([n1, n2], map[n1 := r1, n2 := r2])
  {
    assert r1.emitters[..0] == [] && r2.emitters[..0] == [];
    assert r1.emitters == [r1.emitters[0]] && r2.emitters == [r2.emitters[0]];
    assert DedupRecord(r1) == r1 && DedupRecord(r2) == r2;
  }

  /** What `generateEventsDocumentation` gives for the sample controller:
      `eventMappings` holds the five methods in property order, the three
      listen-only ones with an empty `emit`; `events` documents the two
      emitted names, each with its one emitter. */
  lemma SampleDocumentation(n: Names, ctor: Option<EventsMetadata>, userCreated: string, emailSent: string,
                            allPattern: string, emailPattern: string)
    requires Separate(n) && userCreated != emailSent
    ensures var doc := DocumentationOf([ControllerClass(n.controller, Members(n, ctor, userCreated, emailSent, allPattern, emailPattern))]);
      var ks := Keys(n);
      && doc.eventMappings.keys == ks
      && (forall i | 0 <= i < 5 :: ks[i] in doc.eventMappings.entries
            && doc.eventMappings.entries[ks[i]] == Writes(Keys(n), userCreated, emailSent, allPattern, emailPattern)[i].mapping)
      && doc.events == Dict([userCreated, emailSent],
                            map[userCreated := EventRecord(FirstDescription(userCreated, ks[0]), [ks[0]]),
                                emailSent := EventRecord(FirstDescription(emailSent, ks[1]), [ks[1]])])
  {
    var ws := Writes(Keys(n), userCreated, emailSent, allPattern, emailPattern);
    var ks := Keys(n);
    SampleRegistrations(n, ctor, userCreated, emailSent, allPattern, emailPattern);
    KeysDistinct(n);
    SampleMappings(ks, userCreated, emailSent, allPattern, emailPattern);
    TwoEmittersOfFive(ws, userCreated, emailSent);
    var e1, e2 := Emission(ks[0], userCreated), Emission(ks[1], emailSent);
    RecordTwoEmissions(e1, e2);
    DedupTwoRecords(userCreated, EventRecord(FirstDescription(userCreated, ks[0]), [ks[0]]),
                    emailSent, EventRecord(FirstDescription(emailSent, ks[1]), [ks[1]]));
  }

  lemma ListensSingle(pattern: string, event: string)
    ensures Listens([pattern], event) <==> MatchesEvent(event, pattern)
  {
    assert pattern in [pattern];
  }

  lemma ListenerStep(m: OrderedDict<Mapping>, emitter: string, event: string, ls: seq<string>, i: nat, drawn: bool)
    requires i < |ls| && drawn == (ls[i] in m.entries && Listens(m.entries[ls[i]].listen, event))
    ensures ListenerEdges(m, emitter, event, ls[..i + 1])
         == ListenerEdges(m, emitter, event, ls[..i]) + Arrow(drawn, emitter, event, ls[i])
  {
    assert ls[..i + 1][..i] == ls[..i];
  }

  /** The arrow to `listener` when it is drawn, nothing otherwise. */
  function Arrow(drawn: bool, emitter: string, event: string, listener: string): seq<Edge>
  {
    if drawn then [Edge(emitter, event, listener)] else []
  }

  /** For one emitted event, the five listener keys are tried in order. */
  lemma FiveListeners(m: OrderedDict<Mapping>, emitter: string, event: string, ls: seq<string>,
                      d0: bool, d1: bool, d2: bool, d3: bool, d4: bool)
    requires |ls| == 5 && forall i | 0 <= i < 5 :: ls[i] in m.entries
    requires Listens(m.entries[ls[0]].listen, event) == d0 && Listens(m.entries[ls[1]].listen, event) == d1
    requires Listens(m.entries[ls[2]].listen, event) == d2 && Listens(m.entries[ls[3]].listen, event) == d3
    requires Listens(m.entries[ls[4]].listen, event) == d4
    ensures ListenerEdges(m, emitter, event, ls)
         == Arrow(d0, emitter, event, ls[0]) + Arrow(d1, emitter, event, ls[1]) + Arrow(d2, emitter, event, ls[2])
            + Arrow(d3, emitter, event, ls[3]) + Arrow(d4, emitter, event, ls[4])
  {
    var a0, a1, a2 := Arrow(d0, emitter, event, ls[0]), Arrow(d1, emitter, event, ls[1]), Arrow(d2, emitter, event, ls[2]);
    var a3, a4 := Arrow(d3, emitter, event, ls[3]), Arrow(d4, emitter, event, ls[4]);
    assert ls[..0] == [];
    ListenerStep(m, emitter, event, ls, 0, d0);
    assert [] + a0 == a0;
    assert ListenerEdges(m, emitter, event, ls[..1]) == a0;
    ListenerStep(m, emitter, event, ls, 1, d1);
    assert ListenerEdges(m, emitter, event, ls[..2]) == a0 + a1;
    ListenerStep(m, emitter, event, ls, 2, d2);
    assert ListenerEdges(m, emitter, event, ls[..3]) == a0 + a1 + a2;
    ListenerStep(m, emitter, event, ls, 3, d3);
    assert ListenerEdges(m, emitter, event, ls[..4]) == a0 + a1 + a2 + a3;
    ListenerStep(m, emitter, event, ls, 4, d4);
    assert ls[..5] == ls;
  }

  lemma EmitterStep(m: OrderedDict<Mapping>, ks: seq<string>, i: nat)
    requires i < |ks| && ks[i] in m.entries
    ensures EmitterEdges(m, ks[..i + 1]) == EmitterEdges(m, ks[..i]) + EventEdges(m, ks[i], m.entries[ks[i]].emit)
  {
    assert ks[..i + 1][..i] == ks[..i];
  }

  lemma SingleEventEdges(m: OrderedDict<Mapping>, emitter: string, event: string)
    ensures EventEdges(m, emitter, [event]) == ListenerEdges(m, emitter, event, m.keys)
  {
    assert [event][..0] == [];
  }

  /** Five keys of which only the first two emit, one name each. */
  lemma TwoEmittingKeys(m: OrderedDict<Mapping>, a: string, b: string)
    requires |m.keys| == 5
    requires m.entries[m.keys[0]].emit == [a] && m.entries[m.keys[1]].emit == [b]
    requires m.entries[m.keys[2]].emit == [] && m.entries[m.keys[3]].emit == [] && m.entries[m.keys[4]].emit == []
    ensures Edges(m) == ListenerEdges(m, m.keys[0], a, m.keys) + ListenerEdges(m, m.keys[1], b, m.keys)
  {
    var ks := m.keys;
    var first, second := ListenerEdges(m, ks[0], a, ks), ListenerEdges(m, ks[1], b, ks);
    assert ks[..0] == [] && EmitterEdges(m, []) == [];
    SingleEventEdges(m, ks[0], a);
    EmitterStep(m, ks, 0);
    assert EmitterEdges(m, ks[..1]) == first;
    SingleEventEdges(m, ks[1], b);
    EmitterStep(m, ks, 1);
    assert EmitterEdges(m, ks[..2]) == first + second;
    assert EventEdges(m, ks[2], []) == [];
    EmitterStep(m, ks, 2);
    EmitterStep(m, ks, 3);
    EmitterStep(m, ks, 4);
    assert ks[..5] == ks;
  }

  /** The table of the sample's shape: `createUser` emits `u`,
      `onUserCreated` listens to `u` and emits `e`, `onEmailSent` listens to
      `e`, `onAllEvents` has a pattern starting with `*`, and
      `onAllEmailEvents` has the pattern `q*r` with `q` a prefix of `e` and
      not of `u`. */
  ghost predicate SampleShaped(m: OrderedDict<Mapping>, u: string, e: string, pa: string, q: string, r: string)
  {
    && |m.keys| == 5
    && m.entries[m.keys[0]] == Mapping([u], []) && m.entries[m.keys[1]] == Mapping([e], [u])
    && m.entries[m.keys[2]] == Mapping([], [e]) && m.entries[m.keys[3]] == Mapping([], [pa])
    && m.entries[m.keys[4]] == Mapping([], [q + "*" + r])
    && u != e && '*' !in u && '*' !in e
    && |pa| > 0 && pa[0] == '*'
    && '*' !in q && q <= e && !(q <= u)
  }

  /** `u` reaches the method listening to it and the one listening to everything. */
  lemma FirstEventListeners(m: OrderedDict<Mapping>, u: string, e: string, pa: string, q: string, r: string)
    requires SampleShaped(m, u, e, pa, q, r)
    ensures var ks := m.keys;
      ListenerEdges(m, ks[0], u, ks) == [Edge(ks[0], u, ks[1]), Edge(ks[0], u, ks[3])]
  {
    var ks := m.keys;
    ListensSingle(u, u);
    ListensSingle(e, u);
    ListensSingle(pa, u);
    MatchesEventLeadingStar(u, pa);
    ListensSingle(q + "*" + r, u);
    MatchesEventIgnoresSuffix(u, q, r);
    assert !Listens([], u);
    FiveListeners(m, ks[0], u, ks, false, true, false, true, false);
  }

  /** `e` reaches the method listening to it, the one listening to
      everything and the one whose pattern covers it. */
  lemma SecondEventListeners(m: OrderedDict<Mapping>, u: string, e: string, pa: string, q: string, r: string)
    requires SampleShaped(m, u, e, pa, q, r)
    ensures var ks := m.keys;
      ListenerEdges(m, ks[1], e, ks) == [Edge(ks[1], e, ks[2]), Edge(ks[1], e, ks[3]), Edge(ks[1], e, ks[4])]
  {
    var ks := m.keys;
    ListensSingle(u, e);
    ListensSingle(e, e);
    ListensSingle(pa, e);
    MatchesEventLeadingStar(e, pa);
    ListensSingle(q + "*" + r, e);
    MatchesEventIgnoresSuffix(e, q, r);
    assert !Listens([], e);
    FiveListeners(m, ks[1], e, ks, false, false, true, true, true);
  }

  lemma TableEdges(m: OrderedDict<Mapping>, u: string, e: string, pa: string, q: string, r: string)
    requires SampleShaped(m, u, e, pa, q, r)
    ensures var ks := m.keys;
      Edges(m) == [Edge(ks[0], u, ks[1]), Edge(ks[0], u, ks[3]),
                   Edge(ks[1], e, ks[2]), Edge(ks[1], e, ks[3]), Edge(ks[1], e, ks[4])]
  {
    TwoEmittingKeys(m, u, e);
    FirstEventListeners(m, u, e, pa, q, r);
    SecondEventListeners(m, u, e, pa, q, r);
  }

  /** The writes give a table of the sample's shape. */
  lemma WritesShaped(ks: seq<string>, u: string, e: string, pa: string, q: string, r: string)
    requires |ks| == 5 && Distinct(ks) && u != e && '*' !in u && '*' !in e
    requires |pa| > 0 && pa[0] == '*'
    requires '*' !in q && q <= e && !(q <= u)
    ensures SampleShaped(MappingsOf(Writes(ks, u, e, pa, q + "*" + r)), u, e, pa, q, r)
    ensures MappingsOf(Writes(ks, u, e, pa, q + "*" + r)).keys == ks
  {
    var ws := Writes(ks, u, e, pa, q + "*" + r);
    SampleMappings(ks, u, e, pa, q + "*" + r);
    var m := MappingsOf(ws);
    assert m.entries[ks[0]] == ws[0].mapping && m.entries[ks[1]] == ws[1].mapping;
    assert m.entries[ks[2]] == ws[2].mapping && m.entries[ks[3]] == ws[3].mapping;
    assert m.entries[ks[4]] == ws[4].mapping;
  }

  /** The diagram drawn for the sample controller: the first event reaches
      its listener and the catch-all listener, the second reaches its
      listener, the catch-all listener and the listener whose pattern covers
      it; the listen-only methods emit nothing and start no arrow. */
  lemma SampleEdges(n: Names, ctor: Option<EventsMetadata>, u: string, e: string, pa: string, q: string, r: string)
    requires Separate(n) && u != e && '*' !in u && '*' !in e
    requires |pa| > 0 && pa[0] == '*'
    requires '*' !in q && q <= e && !(q <= u)
    ensures var ks := Keys(n);
      Edges(DocumentationOf([ControllerClass(n.controller, Members(n, ctor, u, e, pa, q + "*" + r))]).eventMappings)
      == [Edge(ks[0], u, ks[1]), Edge(ks[0], u, ks[3]),
          Edge(ks[1], e, ks[2]), Edge(ks[1], e, ks[3]), Edge(ks[1], e, ks[4])]
  {
    var pe := q + "*" + r;
    var ws := Writes(Keys(n), u, e, pa, pe);
    SampleRegistrations(n, ctor, u, e, pa, pe);
    assert DocumentationOf([ControllerClass(n.controller, Members(n, ctor, u, e, pa, pe))]).eventMappings == MappingsOf(ws);
    KeysDistinct(n);
    WritesShaped(Keys(n), u, e, pa, q, r);
    TableEdges(MappingsOf(ws), u, e, pa, q, r);
  }

  /** The sample's own literals: `createUser -- user.created-->` reaches
      `onUserCreated` and `onAllEvents`; `onUserCreated -- email.sent-->`
      reaches `onEmailSent`, `onAllEvents` and `onAllEmailEvents`. */
  lemma SampleArrows(n: Names, ctor: Option<EventsMetadata>)
    requires Separate(n)
    ensures var ks := Keys(n);
      Edges(DocumentationOf([ControllerClass(n.controller, Members(n, ctor, "user.created", "email.sent", "**", "email.*"))]).eventMappings)
      == [Edge(ks[0], "user.created", ks[1]), Edge(ks[0], "user.created", ks[3]),
          Edge(ks[1], "email.sent", ks[2]), Edge(ks[1], "email.sent", ks[3]), Edge(ks[1], "email.sent", ks[4])]
  {
    var u, e := "user.created", "email.sent";
    assert "email." + "*" + "" == "email.*";
    assert |u| != |e| && u[0] != 'e' && "email." <= e;
    SampleEdges(n, ctor, u, e, "**", "email.", "");
  }
}
