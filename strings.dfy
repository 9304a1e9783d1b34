/** The JavaScript string operations the generators rely on: `split` on a
    one-character separator, `join`, `startsWith` (Dafny's prefix `<=`) and
    `trim`. */
module Strings {

  /** `parts.join(sep)`: the parts with `sep` between neighbours. */
  function Join(parts: seq<string>, sep: string): string
  {
    if parts == [] then ""
    else if |parts| == 1 then parts[0]
    else Join(parts[..|parts| - 1], sep) + sep + parts[|parts| - 1]
  }

  /** The joined text starts with the first part and ends with the last. */
  lemma {:induction false} JoinEnds(parts: seq<string>, sep: string)
    requires parts != []
    ensures parts[0] <= Join(parts, sep)
    ensures var r, last := Join(parts, sep), parts[|parts| - 1]; |last| <= |r| && r[|r| - |last|..] == last
  {
    if |parts| > 1 {
      var init := parts[..|parts| - 1];
      JoinEnds(init, sep);
      assert init[0] == parts[0];
      assert Join(parts, sep) == Join(init, sep) + sep + parts[|parts| - 1];
    }
  }

  lemma JoinSnoc(parts: seq<string>, p: string, sep: string)
    requires parts != []
    ensures Join(parts + [p], sep) == Join(parts, sep) + sep + p
  {
    assert (parts + [p])[..|parts|] == parts;
  }

  /** Extending the last part extends the joined text. */
  lemma JoinExtendLast(parts: seq<string>, x: char, sep: string)
    requires parts != []
    ensures Join(parts[..|parts| - 1] + [parts[|parts| - 1] + [x]], sep) == Join(parts, sep) + [x]
  {
    var init, last := parts[..|parts| - 1], parts[|parts| - 1];
    if init != [] {
      assert parts == init + [last];
      JoinSnoc(init, last + [x], sep);
      JoinSnoc(init, last, sep);
    }
  }

  /** `s.split(c)`: the pieces of `s` between occurrences of `c`, empty pieces
      included, so that joining them with `c` gives `s` back. */
  function Split(s: string, c: char): (parts: seq<string>)
    ensures |parts| >= 1
    ensures forall i | 0 <= i < |parts| :: c !in parts[i]
    ensures |parts| == 1 <==> c !in s
    ensures Join(parts, [c]) == s
  {
    if s == [] then [""]
    else
      var t, last := s[..|s| - 1], s[|s| - 1];
      assert s == t + [last];
      var init := Split(t, c);
      if last == c then
        JoinSnoc(init, "", [c]);
        init + [""]
      else
        JoinExtendLast(init, last, [c]);
        init[..|init| - 1] + [init[|init| - 1] + [last]]
  }

  lemma SplitSnoc(t: string, x: char, c: char)
    ensures var parts := Split(t, c);
      Split(t + [x], c)
      == if x == c then parts + [""] else parts[..|parts| - 1] + [parts[|parts| - 1] + [x]]
  {
    assert (t + [x])[..|t|] == t;
  }

  /** Splitting after a last separator: the last piece is what follows it. */
  lemma {:induction false} SplitAtLastSeparator(a: string, c: char, b: string)
    requires c !in b
    ensures Split(a + [c] + b, c) == Split(a, c) + [b]
  {
    if b == [] {
      assert a + [c] + b == a + [c];
      SplitSnoc(a, c, c);
    } else {
      var b', x := b[..|b| - 1], b[|b| - 1];
      assert a + [c] + b == (a + [c] + b') + [x];
      assert b' + [x] == b;
      assert x != c;
      var p := Split(a, c) + [b'];
      assert p[..|p| - 1] == Split(a, c) && p[|p| - 1] == b';
      SplitAtLastSeparator(a, c, b');
      SplitSnoc(a + [c] + b', x, c);
    }
  }

  /** Splitting is the inverse of joining pieces that do not contain the separator. */
  lemma {:induction false} SplitJoin(parts: seq<string>, c: char)
    requires |parts| >= 1
    requires forall i | 0 <= i < |parts| :: c !in parts[i]
    ensures Split(Join(parts, [c]), c) == parts
  {
    if |parts| == 1 {
      var p := Split(parts[0], c);
      assert |p| == 1 && Join(p, [c]) == p[0];
    } else {
      var init, last := parts[..|parts| - 1], parts[|parts| - 1];
      assert parts == init + [last];
      assert Join(parts, [c]) == Join(init, [c]) + [c] + last;
      SplitJoin(init, c);
      SplitAtLastSeparator(Join(init, [c]), c, last);
    }
  }

  /** The first piece of `s.split(c)` is the text before the first `c`, or all
      of `s` when there is no `c`. */
  lemma {:induction false} SplitHead(s: string, c: char)
    ensures c !in Split(s, c)[0]
    ensures c !in s ==> Split(s, c)[0] == s
    ensures c in s ==> Split(s, c)[0] + [c] <= s
  {
    if s != [] {
      var t, x := s[..|s| - 1], s[|s| - 1];
      assert s == t + [x];
      SplitHead(t, c);
      if c in t {
        assert Split(t, c)[0] + [c] <= t;
      }
    }
  }

  /** The characters ECMAScript's `String.prototype.trim` removes: white space
      and line terminators. */
  predicate IsWhitespace(ch: char)
  {
    || ch == '\t' || ch == '\n' || ch == '\U{000B}' || ch == '\U{000C}' || ch == '\r' || ch == ' '
    || ch == '\U{00A0}' || ch == '\U{1680}' || ('\U{2000}' <= ch <= '\U{200A}')
    || ch == '\U{2028}' || ch == '\U{2029}' || ch == '\U{202F}' || ch == '\U{205F}'
    || ch == '\U{3000}' || ch == '\U{FEFF}'
  }

  predicate AllWhitespace(s: string)
  {
    forall i | 0 <= i < |s| :: IsWhitespace(s[i])
  }

  function TrimStart(s: string): string
  {
    if |s| > 0 && IsWhitespace(s[0]) then TrimStart(s[1..]) else s
  }

  function TrimEnd(s: string): string
  {
    if |s| > 0 && IsWhitespace(s[|s| - 1]) then TrimEnd(s[..|s| - 1]) else s
  }

  /** `s.trim()`. */
  function Trim(s: string): string
  {
    TrimEnd(TrimStart(s))
  }

  /** `TrimStart` removes a run of white space from the front, up to a
      character that is not white space. */
  lemma {:induction false} TrimStartSuffix(s: string)
    ensures var r := TrimStart(s);
      && |r| <= |s| && r == s[|s| - |r|..] && AllWhitespace(s[..|s| - |r|])
      && (r == [] || !IsWhitespace(r[0]))
  {
    if |s| > 0 && IsWhitespace(s[0]) {
      TrimStartSuffix(s[1..]);
      var r := TrimStart(s[1..]);
      assert s[1..][|s| - 1 - |r|..] == s[|s| - |r|..];
      assert s[..|s| - |r|] == [s[0]] + s[1..][..|s| - 1 - |r|];
    }
  }

  /** `TrimEnd` removes a run of white space from the back, down to a
      character that is not white space. */
  lemma {:induction false} TrimEndPrefix(s: string)
    ensures var r := TrimEnd(s);
      && |r| <= |s| && r == s[..|r|] && AllWhitespace(s[|r|..])
      && (r == [] || !IsWhitespace(r[|r| - 1]))
  {
    if |s| > 0 && IsWhitespace(s[|s| - 1]) {
      var t := s[..|s| - 1];
      TrimEndPrefix(t);
      var r := TrimEnd(t);
      assert t[..|r|] == s[..|r|];
      assert s[|r|..] == t[|r|..] + [s[|s| - 1]];
    }
  }

  /** `trim` never lengthens a text, gives the empty text exactly when the
      text is all white space, and otherwise leaves no white space at either
      end. */
  lemma TrimShape(s: string)
    ensures |Trim(s)| <= |s|
    ensures Trim(s) == [] <==> AllWhitespace(s)
    ensures Trim(s) != [] ==> !IsWhitespace(Trim(s)[0]) && !IsWhitespace(Trim(s)[|Trim(s)| - 1])
  {
    var t := TrimStart(s);
    TrimStartSuffix(s);
    TrimEndPrefix(t);
    var r := TrimEnd(t);
    if t != [] {
      assert s[|s| - |t|] == t[0];
      if r != [] {
        assert r[0] == t[0];
      }
    } else {
      assert s[..|s|] == s;
    }
  }

  lemma {:induction false} TrimStartPadded(lead: string, x: string)
    requires AllWhitespace(lead)
    requires |x| > 0 && !IsWhitespace(x[0])
    ensures TrimStart(lead + x) == x
  {
    if lead != [] {
      assert (lead + x)[1..] == lead[1..] + x;
      TrimStartPadded(lead[1..], x);
    }
  }

  lemma {:induction false} TrimEndPadded(x: string, trail: string)
    requires AllWhitespace(trail)
    requires |x| > 0 && !IsWhitespace(x[|x| - 1])
    ensures TrimEnd(x + trail) == x
  {
    if trail != [] {
      var t := trail[..|trail| - 1];
      assert (x + trail)[..|x + trail| - 1] == x + t;
      TrimEndPadded(x, t);
    }
  }

  /** Trimming removes exactly the white space around a text that neither
      starts nor ends with white space. */
  lemma TrimPadded(lead: string, x: string, trail: string)
    requires AllWhitespace(lead) && AllWhitespace(trail)
    requires |x| > 0 && !IsWhitespace(x[0]) && !IsWhitespace(x[|x| - 1])
    ensures Trim(lead + x + trail) == x
  {
    assert lead + x + trail == lead + (x + trail);
    TrimStartPadded(lead, x + trail);
    TrimEndPadded(x, trail);
  }
}
