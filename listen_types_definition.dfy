/** Model of `generateListenTypesDefinition`: every documented event name,
    followed by one `prefix.*` wildcard per `.` it contains, is added to an
    insertion-ordered set, and the set is written as the TypeScript union
    `listenTypes` of a declaration file. */
module ListenTypesDefinition {
  import opened Collections
  import opened Strings
  import opened DocumentationGenerator
  import opened EventsFlowHtml

  /** `segments.slice(0, i).join('.') + '.*'`. */
  function Wildcard(segments: seq<string>, i: nat): string
    requires i <= |segments|
  {
    Join(segments[..i], ".") + ".*"
  }

  /** The wildcards of the `for` loop run up to (not including) `n`, from 1. */
  function WildcardsBelow(segments: seq<string>, n: nat): (ws: seq<string>)
    requires n <= |segments|
    ensures |ws| == if n <= 1 then 0 else n - 1
    ensures forall i | 0 <= i < |ws| :: ws[i] == Wildcard(segments, i + 1)
  {
    if n <= 1 then [] else WildcardsBelow(segments, n - 1) + [Wildcard(segments, n - 1)]
  }

  /** The wildcards added for one event name, behind the same two guards as
      the source. */
  function Wildcards(event: string): (ws: seq<string>)
    ensures |ws| == |Split(event, '.')| - 1
    ensures forall i | 0 <= i < |ws| :: ws[i] == Join(Split(event, '.')[..i + 1], ".") + ".*"
  {
    if '.' in event then
      var segments := Split(event, '.');
      if |segments| > 1 then WildcardsBelow(segments, |segments|) else []
    else []
  }

  /** What one event name adds to the set, in order. */
  function Expansion(event: string): seq<string>
  {
    [event] + Wildcards(event)
  }

  function Expansions(events: seq<string>): seq<string>
  {
    if events == [] then [] else Expansions(events[..|events| - 1]) + Expansion(events[|events| - 1])
  }

  /** `Array.from(allEmits)` after the loop over the event names. */
  function IdentifierSet(events: seq<string>): seq<string>
  {
    Dedup(Expansions(events))
  }

  /** An independent description of the wildcards of a name: `s[..j] + ".*"`
      for every position `j` of a `.`, from left to right. */
  function DotPrefixes(s: string): seq<string>
  {
    if s == [] then []
    else
      var t := s[..|s| - 1];
      DotPrefixes(t) + (if s[|s| - 1] == '.' then [t + ".*"] else [])
  }

  lemma {:induction false} WildcardsBelowPrefix(a: seq<string>, b: seq<string>, n: nat)
    requires 1 <= n <= |a| && n <= |b| && a[..n - 1] == b[..n - 1]
    ensures WildcardsBelow(a, n) == WildcardsBelow(b, n)
  {
    if n > 1 {
      assert a[..n - 2] == a[..n - 1][..n - 2];
      assert b[..n - 2] == b[..n - 1][..n - 2];
      WildcardsBelowPrefix(a, b, n - 1);
    }
  }

  lemma {:induction false} WildcardsOfSplit(s: string)
    ensures WildcardsBelow(Split(s, '.'), |Split(s, '.')|) == DotPrefixes(s)
  {
    if s != [] {
      var t, x := s[..|s| - 1], s[|s| - 1];
      assert s == t + [x];
      SplitSnoc(t, x, '.');
      var before, after := Split(t, '.'), Split(s, '.');
      var n := |before|;
      if x == '.' {
        assert after == before + [""];
        assert after[..n] == before;
        assert WildcardsBelow(after, n + 1) == WildcardsBelow(after, n) + [Join(before, ".") + ".*"];
        WildcardsBelowPrefix(after, before, n);
      } else {
        assert |after| == n && after[..n - 1] == before[..n - 1];
        WildcardsBelowPrefix(after, before, n);
      }
      WildcardsOfSplit(t);
    }
  }

  /** The guards of the source never change the result: without a `.` there is
      a single segment and no wildcard. The wildcards of a name are its
      prefixes up to each `.`, with `*` after the `.`, from left to right. */
  lemma WildcardsAreDotPrefixes(event: string)
    ensures Wildcards(event) == DotPrefixes(event)
  {
    WildcardsOfSplit(event);
  }

  /** A wildcard of `s` is exactly `s[..j] + ".*"` for a `.` at position `j`;
      there is one per `.`, no two alike, each shorter than `s + ".*"`. */
  lemma {:induction false} DotPrefixesMembers(s: string)
    ensures forall w :: w in DotPrefixes(s) <==> exists j | 0 <= j < |s| && s[j] == '.' :: w == s[..j] + ".*"
    ensures forall i | 0 <= i < |DotPrefixes(s)| :: |DotPrefixes(s)[i]| <= |s| + 1
    ensures forall i, k | 0 <= i < k < |DotPrefixes(s)| :: |DotPrefixes(s)[i]| < |DotPrefixes(s)[k]|
  {
    if s != [] {
      var t := s[..|s| - 1];
      DotPrefixesMembers(t);
      forall w ensures w in DotPrefixes(s) <==> exists j | 0 <= j < |s| && s[j] == '.' :: w == s[..j] + ".*" {
        if w in DotPrefixes(t) {
          var j :| 0 <= j < |t| && t[j] == '.' && w == t[..j] + ".*";
          assert s[j] == '.' && s[..j] == t[..j];
        }
        if exists j | 0 <= j < |s| && s[j] == '.' :: w == s[..j] + ".*" {
          var j :| 0 <= j < |s| && s[j] == '.' && w == s[..j] + ".*";
          if j < |t| {
            assert t[j] == '.' && t[..j] == s[..j];
          }
        }
      }
    }
  }

  /** The wildcards of a name hold no duplicate and never the name itself
      followed by `.*`. */
  lemma WildcardsDistinct(event: string)
    ensures Distinct(Wildcards(event))
    ensures event + ".*" !in Wildcards(event)
  {
    WildcardsAreDotPrefixes(event);
    DotPrefixesMembers(event);
  }

  /** The pattern `e[..j] + ".*"` for a `.` at position `j` matches `e`. */
  lemma DotPrefixMatches(e: string, j: nat)
    requires j < |e| && e[j] == '.'
    ensures MatchesEvent(e, e[..j] + ".*")
  {
    var w := e[..j] + ".*";
    assert w[j + 1] == '*';
    MatchesEventWildcard(e, w);
    var f := FirstIndex(w, '*');
    assert w[..f] == e[..f];
  }

  /** Every wildcard generated from a name is a listener pattern that matches
      that name. */
  lemma WildcardsMatchTheirEvent(event: string, w: string)
    requires w in Wildcards(event)
    ensures MatchesEvent(event, w)
  {
    WildcardsAreDotPrefixes(event);
    DotPrefixesMembers(event);
    var j :| 0 <= j < |event| && event[j] == '.' && w == event[..j] + ".*";
    DotPrefixMatches(event, j);
  }

  lemma {:induction false} ExpansionsMembers(events: seq<string>)
    ensures forall x :: x in Expansions(events) <==> exists e | e in events :: x == e || x in Wildcards(e)
  {
    if events != [] {
      var init, last := events[..|events| - 1], events[|events| - 1];
      assert events == init + [last];
      assert Expansions(events) == Expansions(init) + Expansion(last);
      ExpansionsMembers(init);
      forall x ensures x in Expansions(events) <==> exists e | e in events :: x == e || x in Wildcards(e) {
        if x in Expansions(init) {
          var e :| e in init && (x == e || x in Wildcards(e));
          assert e in events;
        }
        if exists e | e in events :: x == e || x in Wildcards(e) {
          var e :| e in events && (x == e || x in Wildcards(e));
          if e != last {
            assert e in init;
          }
        }
      }
    }
  }

  /** The identifier set holds each documented name and each of its wildcards,
      nothing else, each once. */
  lemma IdentifierSetMembers(events: seq<string>)
    ensures Distinct(IdentifierSet(events))
    ensures forall x :: x in IdentifierSet(events) <==> exists e | e in events :: x == e || x in Wildcards(e)
  {
    ExpansionsMembers(events);
  }

  /** `'${e}'`. */
  function Quoted(e: string): string
  {
    "'" + e + "'"
  }

  function QuotedAll(ids: seq<string>): (quoted: seq<string>)
    ensures |quoted| == |ids|
    ensures forall i | 0 <= i < |ids| :: quoted[i] == Quoted(ids[i])
  {
    if ids == [] then [] else QuotedAll(ids[..|ids| - 1]) + [Quoted(ids[|ids| - 1])]
  }

  const UnionStart := "'**' | "

  /** `'**' | ${unionType.join(' | ') || "''"}`. */
  function UnionType(ids: seq<string>): string
  {
    var joined := Join(QuotedAll(ids), " | ");
    UnionStart + (if joined == "" then "''" else joined)
  }

  /** The union starts with `'**' | `, never stops there, and continues with
      the first quoted identifier when there is one. */
  lemma UnionTypeStart(ids: seq<string>)
    ensures UnionStart <= UnionType(ids) && |UnionType(ids)| > |UnionStart|
    ensures ids != [] ==> Quoted(ids[0]) <= UnionType(ids)[|UnionStart|..]
  {
    var quoted := QuotedAll(ids);
    var joined := Join(quoted, " | ");
    assert UnionType(ids)[|UnionStart|..] == if joined == "" then "''" else joined;
    if ids != [] {
      JoinEnds(quoted, " | ");
    }
  }

  lemma {:induction false} JoinCons(first: string, rest: seq<string>, sep: string)
    requires rest != []
    ensures Join([first] + rest, sep) == first + sep + Join(rest, sep)
  {
    var parts := [first] + rest;
    assert parts[..|parts| - 1] == [first] + rest[..|rest| - 1];
    if |rest| > 1 {
      JoinCons(first, rest[..|rest| - 1], sep);
    }
  }

  lemma {:induction false} JoinQuotedLength(ids: seq<string>)
    ensures |Join(QuotedAll(ids), " | ")| >= 2 * |ids|
  {
    if |ids| > 1 {
      JoinQuotedLength(ids[..|ids| - 1]);
      assert QuotedAll(ids)[..|ids| - 1] == QuotedAll(ids[..|ids| - 1]);
    }
  }

  /** The joined identifiers are empty exactly when there is none, and are
      the empty quote `''` exactly when the only identifier is empty. */
  lemma JoinedQuoted(ids: seq<string>)
    ensures Join(QuotedAll(ids), " | ") == "" <==> ids == []
    ensures Join(QuotedAll(ids), " | ") == "''" <==> ids == [""]
  {
    if |ids| == 1 {
      var q := Quoted(ids[0]);
      assert QuotedAll(ids) == [q];
      if q == "''" {
        assert ids[0] == q[1..|q| - 1];
      }
    } else if |ids| > 1 {
      JoinQuotedLength(ids);
    }
  }

  lemma ConcatCancel(p: string, a: string, b: string)
    ensures p + a == p + b <==> a == b
  {
    if p + a == p + b {
      assert a == (p + a)[|p|..];
      assert b == (p + b)[|p|..];
    }
  }

  /** The union lists `'**'` and then every identifier in quotes, separated by
      ` | `; it is `'**' | ''` exactly when there is no identifier or the only
      identifier is the empty name. */
  lemma UnionTypeShape(ids: seq<string>)
    ensures ids != [] ==> UnionType(ids) == Join(["'**'"] + QuotedAll(ids), " | ")
    ensures UnionType(ids) == "'**' | ''" <==> ids == [] || ids == [""]
  {
    var joined := Join(QuotedAll(ids), " | ");
    var tail := if joined == "" then "''" else joined;
    assert "'**' | ''" == "'**' | " + "''";
    ConcatCancel("'**' | ", tail, "''");
    JoinedQuoted(ids);
    if ids != [] {
      JoinCons("'**'", QuotedAll(ids), " | ");
    }
  }

  const FileStart := "/**\n * Archivo generado autom\U{00E1}ticamente. No modificar.\n */\n\nexport type listenTypes = "
  const FileEnd :=
    ";\n\ndeclare module '@nestjs/event-emitter' {\n"
    + "  // Sobrescribimos la interfaz de EventEmitter2 para modificar el tipo del primer par\U{00E1}metro de emit\n"
    + "  export interface EventEmitter2 {\n"
    + "    emit<T = any>(event: listenTypes, value?: T): Promise<any>;\n"
    + "    emitAsync<T = any>(event: listenTypes, value?: T): Promise<any>;\n"
    + "  }\n}\n"

  lemma DedupSnoc(xs: seq<string>, x: string)
    ensures Dedup(xs + [x]) == Add(Dedup(xs), x)
  {
    assert (xs + [x])[..|xs|] == xs;
  }

  /** The `for` loop over the segments of one name. */
  method AddWildcards(allEmits: seq<string>, ghost added: seq<string>, segments: seq<string>)
    returns (allEmits': seq<string>)
    requires allEmits == Dedup(added)
    ensures allEmits' == Dedup(added + WildcardsBelow(segments, |segments|))
  {
    allEmits' := allEmits;
    assert added + WildcardsBelow(segments, 0) == added;
    if |segments| == 0 {
      return;
    }
    var i := 1;
    while i < |segments|
      invariant 1 <= i <= |segments|
      invariant allEmits' == Dedup(added + WildcardsBelow(segments, i))
    {
      var wildcardEvent := Join(segments[..i], ".") + ".*";
      DedupSnoc(added + WildcardsBelow(segments, i), wildcardEvent);
      AppendAssociative(added, WildcardsBelow(segments, i), [wildcardEvent]);
      allEmits' := Add(allEmits', wildcardEvent);
      i := i + 1;
    }
  }

  /** The `forEach` callback for one documented name: the name, then its
      wildcards behind the source's two guards. */
  method AddEvent(allEmits: seq<string>, ghost added: seq<string>, event: string)
    returns (allEmits': seq<string>)
    requires allEmits == Dedup(added)
    ensures allEmits' == Dedup(added + Expansion(event))
  {
    AppendAssociative(added, [event], Wildcards(event));
    DedupSnoc(added, event);
    allEmits' := Add(allEmits, event);
    if '.' in event {
      var segments := Split(event, '.');
      if |segments| > 1 {
        allEmits' := AddWildcards(allEmits', added + [event], segments);
      } else {
        assert false;
      }
    } else {
      assert added + [event] + [] == added + [event];
    }
  }

  /** `generateListenTypesDefinition`: the loop over the documented names, then
      the declaration file around the union. */
  method GenerateListenTypesDefinition(documentation: Documentation) returns (content: string)
    ensures content == FileStart + UnionType(IdentifierSet(documentation.events.keys)) + FileEnd
  {
    var events := documentation.events.keys;
    var allEmits: seq<string> := [];
    var n := 0;
    while n < |events|
      invariant 0 <= n <= |events|
      invariant allEmits == IdentifierSet(events[..n])
    {
      assert events[..n + 1][..n] == events[..n];
      assert Expansions(events[..n + 1]) == Expansions(events[..n]) + Expansion(events[n]);
      allEmits := AddEvent(allEmits, Expansions(events[..n]), events[n]);
      n := n + 1;
    }
    assert events[..|events|] == events;
    var unionType := QuotedAll(allEmits);
    var joined := Join(unionType, " | ");
    var listenTypes := "'**' | " + (if joined == "" then "''" else joined);
    content := FileStart + listenTypes + FileEnd;
  }
}
