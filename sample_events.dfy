/** What the listener-type generator gives for the sample application's two
    documented events, `user.created` and `email.sent`: the union of the
    checked-in `listenTypes` declaration. */
module SampleEvents {
  import opened Collections
  import opened Strings
  import opened ListenTypesDefinition

  /** Characters other than `.` add no wildcard. */
  lemma {:induction false} DotPrefixesDotFree(s: string, t: string)
    requires '.' !in t
    ensures DotPrefixes(s + t) == DotPrefixes(s)
  {
    if t != [] {
      var u := s + t;
      assert u[..|u| - 1] == s + t[..|t| - 1];
      assert u[|u| - 1] == t[|t| - 1];
      assert t[|t| - 1] in t;
      DotPrefixesDotFree(s, t[..|t| - 1]);
      assert DotPrefixes(u) == DotPrefixes(s + t[..|t| - 1]) + [];
    } else {
      assert s + t == s;
    }
  }

  /** A name with exactly one `.` between two dot-free parts has exactly one
      wildcard: its first part followed by `.*`. */
  lemma QualifiedWildcards(a: string, b: string)
    requires '.' !in a && '.' !in b
    ensures Wildcards(a + "." + b) == [a + ".*"]
  {
    WildcardsAreDotPrefixes(a + "." + b);
    DotPrefixesDotFree(a + ".", b);
    DotPrefixesDotFree([], a);
    assert [] + a == a;
    assert (a + ".")[..|a|] == a;
  }

  /** The last character of `a + "." + b` is not `*` when `b` holds no `*`. */
  lemma QualifiedLast(a: string, b: string)
    requires '*' !in b
    ensures var s := a + "." + b; s[|s| - 1] != '*'
  {
    var s := a + "." + b;
    if b != [] {
      assert s[|s| - 1] == b[|b| - 1];
    }
  }

  lemma FourDistinct(x1: string, x2: string, x3: string, x4: string)
    requires x1 != x2 && x1 != x3 && x1 != x4 && x2 != x3 && x2 != x4 && x3 != x4
    ensures Distinct([x1, x2, x3, x4])
  {
  }

  /** Two documented names `a.b` and `c.d` with different first parts give
      the set `a.b, a.*, c.d, c.*`, in that order. */
  lemma TwoQualifiedNames(a: string, b: string, c: string, d: string)
    requires '.' !in a && '.' !in b && '.' !in c && '.' !in d
    requires '*' !in b && '*' !in d && a != c
    ensures IdentifierSet([a + "." + b, c + "." + d]) == [a + "." + b, a + ".*", c + "." + d, c + ".*"]
  {
    var e1, e2 := a + "." + b, c + "." + d;
    QualifiedWildcards(a, b);
    QualifiedWildcards(c, d);
    QualifiedLast(a, b);
    QualifiedLast(c, d);
    assert [e1, e2][..1] == [e1] && [e1][..0] == [];
    assert Expansions([e1]) == [e1, a + ".*"];
    var xs := [e1, a + ".*", e2, c + ".*"];
    assert Expansions([e1, e2]) == xs;
    assert (a + ".*")[|a|] == '.' && (c + ".*")[|c|] == '.';
    assert a + ".*" != c + ".*" by {
      if |a| == |c| {
        assert (a + ".*")[..|a|] == a && (c + ".*")[..|c|] == c;
      }
    }
    assert e1 != e2 by {
      if |a| == |c| {
        assert e1[|a|] == '.' == e2[|c|];
        assert e1[..|a|] == a && e2[..|c|] == c;
      } else if |a| < |c| {
        assert e1[|a|] == '.' && e2[|a|] == c[|a|];
      } else {
        assert e2[|c|] == '.' && e1[|c|] == a[|c|];
      }
    }
    var w1, w2 := a + ".*", c + ".*";
    assert w1[|w1| - 1] == '*' && w2[|w2| - 1] == '*';
    assert e1 != w1 && e1 != w2 && e2 != w1 && e2 != w2;
    FourDistinct(e1, w1, e2, w2);
    DedupOfDistinct(xs);
  }

  /** `'**' | ` followed by four quoted identifiers. */
  lemma UnionOfFour(x1: string, x2: string, x3: string, x4: string)
    ensures UnionType([x1, x2, x3, x4])
         == "'**' | " + (Quoted(x1) + " | " + Quoted(x2) + " | " + Quoted(x3) + " | " + Quoted(x4))
  {
    var q := QuotedAll([x1, x2, x3, x4]);
    assert q == [Quoted(x1), Quoted(x2), Quoted(x3), Quoted(x4)];
    assert q[..3][..2][..1] == [Quoted(x1)];
    assert Join(q[..3][..2], " | ") == Quoted(x1) + " | " + Quoted(x2);
    assert Join(q[..3], " | ") == Quoted(x1) + " | " + Quoted(x2) + " | " + Quoted(x3);
    assert Join(q, " | ") == Quoted(x1) + " | " + Quoted(x2) + " | " + Quoted(x3) + " | " + Quoted(x4);
    assert |Quoted(x1)| > 0;
  }

  /** The set built from the sample application's two documented events. */
  lemma SampleIdentifiers()
    ensures IdentifierSet(["user.created", "email.sent"]) == ["user.created", "user.*", "email.sent", "email.*"]
  {
    var user, created, email, sent := "user", "created", "email", "sent";
    assert user + "." + created == "user.created";
    assert email + "." + sent == "email.sent";
    assert user + ".*" == "user.*" && email + ".*" == "email.*";
    TwoQualifiedNames(user, created, email, sent);
  }

  /** The documented events of the sample application give the union of the
      checked-in declaration file, `'**' | 'user.created' | 'user.*' |
      'email.sent' | 'email.*'`. */
  lemma SampleListenTypes()
    ensures UnionType(IdentifierSet(["user.created", "email.sent"]))
         == "'**' | " + (Quoted("user.created") + " | " + Quoted("user.*") + " | "
                        + Quoted("email.sent") + " | " + Quoted("email.*"))
  {
    SampleIdentifiers();
    UnionOfFour("user.created", "user.*", "email.sent", "email.*");
  }
}
