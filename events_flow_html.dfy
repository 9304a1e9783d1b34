/** Model of `generateEventsHtml`: every emitting method of `eventMappings`
    is connected to every method whose `listen` patterns match one of its
    emitted events, the connections are written as a Mermaid `graph LR`
    description, and the description is embedded in a fixed HTML page. */
module EventsFlowHtml {
  import opened Collections
  import opened Strings
  import opened DocumentationGenerator

  /** `matchesEvent`: a pattern holding a `*` is a prefix test on the text
      before its first `*`; any other pattern matches only itself. */
  function MatchesEvent(emittedEvent: string, listenerPattern: string): (r: bool)
    ensures '*' !in listenerPattern ==> (r <==> emittedEvent == listenerPattern)
  {
    if '*' in listenerPattern then Split(listenerPattern, '*')[0] <= emittedEvent
    else emittedEvent == listenerPattern
  }

  /** The first piece of a split is what precedes the first separator. */
  lemma {:induction false} FirstPiece(s: string, c: char)
    requires c in s
    ensures Split(s, c)[0] == s[..FirstIndex(s, c)]
  {
    var head := Split(s, c)[0];
    SplitHead(s, c);
    assert s[|head|] == c;
    assert s[..|head|] == head;
    FirstIndexUnique(s, c, |head|);
  }

  /** A pattern with a `*` matches exactly the events that start with the
      text before its first `*`. */
  lemma MatchesEventWildcard(emittedEvent: string, listenerPattern: string)
    requires '*' in listenerPattern
    ensures MatchesEvent(emittedEvent, listenerPattern)
        <==> listenerPattern[..FirstIndex(listenerPattern, '*')] <= emittedEvent
  {
    FirstPiece(listenerPattern, '*');
  }

  /** Whatever follows the first `*` is ignored: `q*r` matches exactly the
      events that start with `q`, so `a.*.c` matches every event starting
      with `a.`. */
  lemma MatchesEventIgnoresSuffix(emittedEvent: string, q: string, r: string)
    requires '*' !in q
    ensures MatchesEvent(emittedEvent, q + "*" + r) <==> q <= emittedEvent
  {
    var p := q + "*" + r;
    assert p[|q|] == '*' && p[..|q|] == q;
    FirstIndexUnique(p, '*', |q|);
    MatchesEventWildcard(emittedEvent, p);
  }

  /** A pattern that starts with `*`, among them `*` and `**`, matches every event. */
  lemma MatchesEventLeadingStar(emittedEvent: string, listenerPattern: string)
    requires |listenerPattern| > 0 && listenerPattern[0] == '*'
    ensures MatchesEvent(emittedEvent, listenerPattern)
  {
    assert listenerPattern == "" + "*" + listenerPattern[1..];
    MatchesEventIgnoresSuffix(emittedEvent, "", listenerPattern[1..]);
  }

  /** `listen.some(pattern => matchesEvent(event, pattern))`. */
  predicate Listens(listen: seq<string>, event: string)
  {
    exists pattern | pattern in listen :: MatchesEvent(event, pattern)
  }

  /** One arrow of the diagram. */
  datatype Edge = Edge(emitter: string, event: string, listener: string)

  /** The arrows drawn for one emitted event: one per listener key, in key
      order, whose `listen` patterns match the event. */
  function ListenerEdges(mappings: OrderedDict<Mapping>, emitter: string, event: string,
                         listeners: seq<string>): seq<Edge>
  {
    if listeners == [] then []
    else
      var l := listeners[|listeners| - 1];
      ListenerEdges(mappings, emitter, event, listeners[..|listeners| - 1])
        + (if l in mappings.entries && Listens(mappings.entries[l].listen, event) then [Edge(emitter, event, l)] else [])
  }

  /** The arrows drawn for the emitted events of one emitter, in `emit` order. */
  function EventEdges(mappings: OrderedDict<Mapping>, emitter: string, events: seq<string>): seq<Edge>
  {
    if events == [] then []
    else
      EventEdges(mappings, emitter, events[..|events| - 1])
        + ListenerEdges(mappings, emitter, events[|events| - 1], mappings.keys)
  }

  function EmitterEdges(mappings: OrderedDict<Mapping>, emitters: seq<string>): seq<Edge>
  {
    if emitters == [] then []
    else
      var k := emitters[|emitters| - 1];
      EmitterEdges(mappings, emitters[..|emitters| - 1])
        + (if k in mappings.entries then EventEdges(mappings, k, mappings.entries[k].emit) else [])
  }

  /** Every arrow of the diagram, in drawing order. */
  function Edges(mappings: OrderedDict<Mapping>): seq<Edge>
  {
    EmitterEdges(mappings, mappings.keys)
  }

  /** `${emitterMethod} -- ${event}-->${listenerMethod};` */
  function EdgeLine(e: Edge): string
  {
    e.emitter + " -- " + e.event + "-->" + e.listener + ";"
  }

  /** An arrow's line starts with the emitter, ends with `;`, and holds no
      newline when none of the three names does. */
  lemma EdgeLineShape(e: Edge)
    ensures var line := EdgeLine(e);
      && e.emitter <= line && |line| > 0 && line[|line| - 1] == ';'
      && ('\n' !in e.emitter && '\n' !in e.event && '\n' !in e.listener ==> '\n' !in line)
  {
  }

  /** The text the loops append: each arrow's line followed by a newline. */
  function Lines(edges: seq<Edge>): string
  {
    if edges == [] then "" else Lines(edges[..|edges| - 1]) + (EdgeLine(edges[|edges| - 1]) + "\n")
  }

  function EdgeLines(edges: seq<Edge>): (lines: seq<string>)
    ensures |lines| == |edges|
    ensures forall i | 0 <= i < |edges| :: lines[i] == EdgeLine(edges[i])
  {
    if edges == [] then [] else EdgeLines(edges[..|edges| - 1]) + [EdgeLine(edges[|edges| - 1])]
  }

  const DiagramHeader := "graph LR;"

  /** The trimmed diagram: the header and the arrows' lines, one per line. */
  function Diagram(edges: seq<Edge>): string
  {
    Join([DiagramHeader] + EdgeLines(edges), "\n")
  }

  // The fixed parts of the page, around the title and around the diagram.
  const PageStart := "\n<!DOCTYPE html>\n<html>\n<head>\n  <meta charset=\"UTF-8\">\n  <title>"
  const PageAfterTitle :=
    "</title>\n  <script type=\"module\">\n"
    + "    import mermaid from 'https://cdn.jsdelivr.net/npm/mermaid@10/dist/mermaid.esm.min.mjs';\n"
    + "    mermaid.initialize({ startOnLoad: true });\n  </script>\n"
    + "  <script nomodule src=\"https://cdn.jsdelivr.net/npm/mermaid@10/dist/mermaid.min.js\"></script>\n"
    + "  <style>\n    body { font-family: Arial, sans-serif; }\n    .mermaid { margin: 20px; }\n  </style>\n"
    + "</head>\n<body>\n  <div class=\"mermaid\">\n"
  const PageEnd := "\n  </div>\n</body>\n</html>\n"

  function Page(title: string, diagram: string): string
  {
    PageStart + title + PageAfterTitle + diagram + PageEnd
  }

  /** The page opens with the fixed head, holds the title right after it,
      and closes with the diagram followed by the fixed tail. */
  lemma PageLayout(title: string, diagram: string)
    ensures var page := Page(title, diagram);
      && PageStart <= page
      && |PageStart| + |title| <= |page| && page[|PageStart|..|PageStart| + |title|] == title
      && |diagram| + |PageEnd| <= |page| && page[|page| - |PageEnd| - |diagram|..] == diagram + PageEnd
  {
    FiveParts(PageStart, title, PageAfterTitle, diagram, PageEnd);
  }

  lemma FiveParts(a: string, b: string, c: string, d: string, e: string)
    ensures var x := a + b + c + d + e;
      && a <= x && |a| + |b| <= |x| && x[|a|..|a| + |b|] == b
      && |d| + |e| <= |x| && x[|x| - |e| - |d|..] == d + e
  {
    var x := a + b + c + d + e;
    assert x == (a + b) + c + (d + e);
    assert (a + b)[|a|..] == b;
  }

  lemma {:induction false} LinesAppend(a: seq<Edge>, b: seq<Edge>)
    ensures Lines(a + b) == Lines(a) + Lines(b)
  {
    if b == [] {
      assert a + b == a;
    } else {
      var b', x := b[..|b| - 1], b[|b| - 1];
      assert (a + b)[..|a + b| - 1] == a + b' && (a + b)[|a + b| - 1] == x;
      assert Lines(a + b) == Lines(a + b') + (EdgeLine(x) + "\n");
      LinesAppend(a, b');
      AppendAssociative(Lines(a), Lines(b'), EdgeLine(x) + "\n");
    }
  }

  /** The diagram starts with its header and ends with a `;`. */
  lemma {:induction false} DiagramEnds(edges: seq<Edge>)
    ensures DiagramHeader <= Diagram(edges)
    ensures Diagram(edges)[|Diagram(edges)| - 1] == ';'
    ensures edges != [] ==> |Diagram(edges)| > |DiagramHeader|
  {
    if edges != [] {
      var init := edges[..|edges| - 1];
      DiagramEnds(init);
      var parts := [DiagramHeader] + EdgeLines(edges);
      assert parts[..|parts| - 1] == [DiagramHeader] + EdgeLines(init);
      assert Diagram(edges) == Diagram(init) + "\n" + EdgeLine(edges[|edges| - 1]);
    }
  }

  /** What the loops build, before `trim`, is the diagram and one newline. */
  lemma {:induction false} RawDiagram(edges: seq<Edge>)
    ensures DiagramHeader + "\n" + Lines(edges) == Diagram(edges) + "\n"
  {
    if edges != [] {
      var init, x := edges[..|edges| - 1], edges[|edges| - 1];
      RawDiagram(init);
      var parts := [DiagramHeader] + EdgeLines(edges);
      assert parts[..|parts| - 1] == [DiagramHeader] + EdgeLines(init);
      assert Diagram(edges) == Diagram(init) + "\n" + EdgeLine(x);
    }
  }

  /** `diagram.trim()` removes exactly the final newline. */
  lemma TrimmedDiagram(edges: seq<Edge>)
    ensures Trim(DiagramHeader + "\n" + Lines(edges)) == Diagram(edges)
  {
    RawDiagram(edges);
    DiagramEnds(edges);
    var d := Diagram(edges);
    assert d[0] == 'g';
    assert "" + d + "\n" == DiagramHeader + "\n" + Lines(edges);
    TrimPadded("", d, "\n");
  }

  /** The diagram is the bare header exactly when no arrow is drawn. */
  lemma DiagramEmpty(edges: seq<Edge>)
    ensures Diagram(edges) == DiagramHeader <==> edges == []
  {
    DiagramEnds(edges);
  }

  lemma {:induction false} DiagramPartsWithoutNewline(edges: seq<Edge>)
    requires forall i | 0 <= i < |edges| :: '\n' !in EdgeLine(edges[i])
    ensures forall i | 0 <= i < |[DiagramHeader] + EdgeLines(edges)| :: '\n' !in ([DiagramHeader] + EdgeLines(edges))[i]
  {
    var lines := EdgeLines(edges);
    forall i | 0 <= i < |[DiagramHeader] + lines| ensures '\n' !in ([DiagramHeader] + lines)[i] {
      if i > 0 {
        assert ([DiagramHeader] + lines)[i] == lines[i - 1] == EdgeLine(edges[i - 1]);
      }
    }
  }

  /** The diagram's lines give back the header and every arrow, in order,
      as long as no arrow's text holds a newline. */
  lemma DiagramLines(edges: seq<Edge>)
    requires forall i | 0 <= i < |edges| :: '\n' !in EdgeLine(edges[i])
    ensures Split(Diagram(edges), '\n') == [DiagramHeader] + EdgeLines(edges)
  {
    DiagramPartsWithoutNewline(edges);
    SplitJoin([DiagramHeader] + EdgeLines(edges), '\n');
  }

  /** One step of the innermost loop: the listener at position `j` adds its
      line, after the text built so far, when one of its patterns matches. */
  lemma ListenerLinesStep(mappings: OrderedDict<Mapping>, emitter: string, event: string,
                          listeners: seq<string>, j: nat, diagram: string)
    requires j < |listeners| && listeners[j] in mappings.entries
    ensures diagram + Lines(ListenerEdges(mappings, emitter, event, listeners[..j + 1]))
         == diagram + Lines(ListenerEdges(mappings, emitter, event, listeners[..j]))
            + (if Listens(mappings.entries[listeners[j]].listen, event)
               then EdgeLine(Edge(emitter, event, listeners[j])) + "\n" else "")
  {
    assert listeners[..j + 1][..j] == listeners[..j];
    var done := ListenerEdges(mappings, emitter, event, listeners[..j]);
    var edge := Edge(emitter, event, listeners[j]);
    if Listens(mappings.entries[listeners[j]].listen, event) {
      assert (done + [edge])[..|done|] == done;
      AppendAssociative(diagram, Lines(done), EdgeLine(edge) + "\n");
    } else {
      assert done + [] == done;
    }
  }

  /** One step of the loop over emitted events: the event at position `k`
      adds the lines of its listeners after the text built so far. */
  lemma EventLinesStep(mappings: OrderedDict<Mapping>, emitter: string, emit: seq<string>, k: nat, diagram: string)
    requires k < |emit|
    ensures diagram + Lines(EventEdges(mappings, emitter, emit[..k + 1]))
         == diagram + Lines(EventEdges(mappings, emitter, emit[..k])) + Lines(ListenerEdges(mappings, emitter, emit[k], mappings.keys))
  {
    assert emit[..k + 1][..k] == emit[..k] && emit[..k + 1][k] == emit[k];
    var done, added := EventEdges(mappings, emitter, emit[..k]), ListenerEdges(mappings, emitter, emit[k], mappings.keys);
    LinesAppend(done, added);
    AppendAssociative(diagram, Lines(done), Lines(added));
  }

  /** One step of the loop over emitters: the key at position `i` adds the
      lines of its emitted events after the text built so far. */
  lemma EmitterLinesStep(mappings: OrderedDict<Mapping>, emitters: seq<string>, i: nat, diagram: string)
    requires i < |emitters| && emitters[i] in mappings.entries
    ensures diagram + Lines(EmitterEdges(mappings, emitters[..i + 1]))
         == diagram + Lines(EmitterEdges(mappings, emitters[..i])) + Lines(EventEdges(mappings, emitters[i], mappings.entries[emitters[i]].emit))
  {
    assert emitters[..i + 1][..i] == emitters[..i] && emitters[..i + 1][i] == emitters[i];
    var done, added := EmitterEdges(mappings, emitters[..i]), EventEdges(mappings, emitters[i], mappings.entries[emitters[i]].emit);
    LinesAppend(done, added);
    AppendAssociative(diagram, Lines(done), Lines(added));
  }

  /** Listener `e.listener` matches `e.event` under `mappings`. */
  predicate Draws(mappings: OrderedDict<Mapping>, e: Edge)
  {
    e.listener in mappings.entries && Listens(mappings.entries[e.listener].listen, e.event)
  }

  lemma {:induction false} ListenerEdgesCount(mappings: OrderedDict<Mapping>, emitter: string, event: string,
                                              listeners: seq<string>, e: Edge)
    ensures multiset(ListenerEdges(mappings, emitter, event, listeners))[e]
         == if e.emitter == emitter && e.event == event && Draws(mappings, e) then multiset(listeners)[e.listener] else 0
  {
    if listeners != [] {
      var init := listeners[..|listeners| - 1];
      assert listeners == init + [listeners[|listeners| - 1]];
      ListenerEdgesCount(mappings, emitter, event, init, e);
    }
  }

  lemma {:induction false} EventEdgesCount(mappings: OrderedDict<Mapping>, emitter: string, events: seq<string>, e: Edge)
    ensures multiset(EventEdges(mappings, emitter, events))[e]
         == if e.emitter == emitter && Draws(mappings, e) then multiset(events)[e.event] else 0
  {
    if events != [] {
      var init, event := events[..|events| - 1], events[|events| - 1];
      assert events == init + [event];
      assert multiset(events)[e.event] == multiset(init)[e.event] + (if event == e.event then 1 else 0);
      EventEdgesCount(mappings, emitter, init, e);
      ListenerEdgesCount(mappings, emitter, event, mappings.keys, e);
      DistinctMultiplicity(mappings.keys, e.listener);
    }
  }

  lemma {:induction false} EmitterEdgesCount(mappings: OrderedDict<Mapping>, emitters: seq<string>, e: Edge)
    requires Distinct(emitters)
    ensures multiset(EmitterEdges(mappings, emitters))[e]
         == if e.emitter in emitters && e.emitter in mappings.entries && Draws(mappings, e)
            then multiset(mappings.entries[e.emitter].emit)[e.event] else 0
  {
    if emitters != [] {
      var init, k := emitters[..|emitters| - 1], emitters[|emitters| - 1];
      assert emitters == init + [k];
      assert k !in init;
      EmitterEdgesCount(mappings, init, e);
      if k in mappings.entries {
        EventEdgesCount(mappings, k, mappings.entries[k].emit, e);
      }
    }
  }

  /** The diagram draws the arrow `x -- ev --> y` once for every occurrence
      of `ev` in the `emit` array of `x` when some `listen` pattern of `y`
      matches `ev`, and never otherwise. */
  lemma EdgeCount(mappings: OrderedDict<Mapping>, e: Edge)
    ensures multiset(Edges(mappings))[e]
         == if e.emitter in mappings.entries && Draws(mappings, e)
            then multiset(mappings.entries[e.emitter].emit)[e.event] else 0
  {
    EmitterEdgesCount(mappings, mappings.keys, e);
  }

  /** An arrow is drawn exactly when its emitter emits its event and its
      listener has a pattern matching that event; a method that listens to
      what it emits gets an arrow to itself. */
  lemma EdgesMembers(mappings: OrderedDict<Mapping>, e: Edge)
    ensures e in Edges(mappings) <==>
      e.emitter in mappings.entries && e.event in mappings.entries[e.emitter].emit && Draws(mappings, e)
  {
    EdgeCount(mappings, e);
  }

  /** The innermost loop, over the listener keys, for one emitted event. */
  method AppendListenerLines(mappings: OrderedDict<Mapping>, emitterMethod: string, event: string, diagram: string)
    returns (diagram': string)
    ensures diagram' == diagram + Lines(ListenerEdges(mappings, emitterMethod, event, mappings.keys))
  {
    diagram' := diagram;
    var listeners := mappings.keys;
    var j := 0;
    while j < |listeners|
      invariant 0 <= j <= |listeners|
      invariant diagram' == diagram + Lines(ListenerEdges(mappings, emitterMethod, event, listeners[..j]))
    {
      var listenerMethod := listeners[j];
      var listenerMapping := mappings.entries[listenerMethod];
      ListenerLinesStep(mappings, emitterMethod, event, listeners, j, diagram);
      if Listens(listenerMapping.listen, event) {
        diagram' := diagram' + (EdgeLine(Edge(emitterMethod, event, listenerMethod)) + "\n");
      }
      j := j + 1;
    }
    assert listeners[..|listeners|] == listeners;
  }

  /** The loop over the emitted events of one emitter. */
  method AppendEventLines(mappings: OrderedDict<Mapping>, emitterMethod: string, emit: seq<string>, diagram: string)
    returns (diagram': string)
    ensures diagram' == diagram + Lines(EventEdges(mappings, emitterMethod, emit))
  {
    diagram' := diagram;
    var k := 0;
    while k < |emit|
      invariant 0 <= k <= |emit|
      invariant diagram' == diagram + Lines(EventEdges(mappings, emitterMethod, emit[..k]))
    {
      EventLinesStep(mappings, emitterMethod, emit, k, diagram);
      diagram' := AppendListenerLines(mappings, emitterMethod, emit[k], diagram');
      k := k + 1;
    }
    assert emit[..|emit|] == emit;
  }

  /** `generateEventsHtml`: the loops over emitters, their emitted events and
      the listener keys, then `trim`, then the page around the diagram. */
  method GenerateEventsHtml(documentation: Documentation) returns (html: string)
    ensures html == Page(documentation.info.title, Diagram(Edges(documentation.eventMappings)))
  {
    var mappings := documentation.eventMappings;
    var diagram := DiagramHeader + "\n";
    var emitters := mappings.keys;
    var i := 0;
    while i < |emitters|
      invariant 0 <= i <= |emitters|
      invariant diagram == DiagramHeader + "\n" + Lines(EmitterEdges(mappings, emitters[..i]))
    {
      var emitterMethod := emitters[i];
      var emitterMapping := mappings.entries[emitterMethod];
      EmitterLinesStep(mappings, emitters, i, DiagramHeader + "\n");
      if |emitterMapping.emit| > 0 {
        diagram := AppendEventLines(mappings, emitterMethod, emitterMapping.emit, diagram);
      } else {
        assert EventEdges(mappings, emitterMethod, emitterMapping.emit) == [];
      }
      i := i + 1;
    }
    assert emitters[..|emitters|] == emitters;
    TrimmedDiagram(Edges(mappings));
    diagram := Trim(diagram);
    html := PageStart + documentation.info.title + PageAfterTitle + diagram + PageEnd;
  }
}
