/** Insertion-ordered collections standing in for JavaScript's `Set` and for
    plain objects used as string-keyed records. */
module Collections {

  datatype Option<+T> = None | Some(value: T)

  /** No element occurs twice. */
  ghost predicate Distinct<T>(s: seq<T>) {
    forall i, j | 0 <= i < j < |s| :: s[i] != s[j]
  }

  /** `set.add(x)` on an insertion-ordered set: a new element goes last,
      an element already present keeps its place. */
  function Add<T(==, !new)>(s: seq<T>, x: T): (r: seq<T>)
    ensures forall y :: y in r <==> y in s || y == x
    ensures Distinct(s) ==> Distinct(r)
    ensures s <= r && |r| <= |s| + 1
  {
    if x in s then s else s + [x]
  }

  /** `Array.from(new Set(xs))`: the elements of `xs`, each once. */
  function Dedup<T(==, !new)>(xs: seq<T>): (r: seq<T>)
    ensures Distinct(r)
    ensures forall y :: y in r <==> y in xs
    ensures |r| <= |xs|
  {
    if xs == [] then []
    else
      assert xs == xs[..|xs| - 1] + [xs[|xs| - 1]];
      Add(Dedup(xs[..|xs| - 1]), xs[|xs| - 1])
  }

  /** The position of the first occurrence of `y` in `xs`. */
  function FirstIndex<T(==)>(xs: seq<T>, y: T): (i: nat)
    requires y in xs
    ensures i < |xs| && xs[i] == y && y !in xs[..i]
  {
    if xs[0] == y then 0
    else
      assert xs == [xs[0]] + xs[1..];
      1 + FirstIndex(xs[1..], y)
  }

  lemma FirstIndexUnique<T>(xs: seq<T>, y: T, k: nat)
    requires k < |xs| && xs[k] == y && y !in xs[..k]
    ensures FirstIndex(xs, y) == k
  {
  }

  /** Appending never moves the first occurrence of an element already present. */
  lemma FirstIndexAppend<T>(xs: seq<T>, x: T, y: T)
    requires y in xs
    ensures FirstIndex(xs + [x], y) == FirstIndex(xs, y)
  {
    var i := FirstIndex(xs, y);
    assert (xs + [x])[..i] == xs[..i];
    FirstIndexUnique(xs + [x], y, i);
  }

  /** The elements of `Dedup(xs)` come in the order of their first occurrence in `xs`. */
  lemma {:induction false} DedupFirstOccurrenceOrder<T(!new)>(xs: seq<T>)
    ensures forall i, j | 0 <= i < j < |Dedup(xs)| :: FirstIndex(xs, Dedup(xs)[i]) < FirstIndex(xs, Dedup(xs)[j])
  {
    if xs != [] {
      var init, x := xs[..|xs| - 1], xs[|xs| - 1];
      assert xs == init + [x];
      DedupFirstOccurrenceOrder(init);
      var r0 := Dedup(init);
      var r := Dedup(xs);
      forall y | y in init ensures FirstIndex(xs, y) == FirstIndex(init, y) {
        FirstIndexAppend(init, x, y);
      }
      if x !in r0 {
        assert x !in init;
        FirstIndexUnique(xs, x, |init|);
      }
      forall i, j | 0 <= i < j < |r| ensures FirstIndex(xs, r[i]) < FirstIndex(xs, r[j]) {
        assert r[i] == r0[i] && r0[i] in init;
        if j < |r0| {
          assert r[j] == r0[j] && r0[j] in init;
          assert FirstIndex(init, r0[i]) < FirstIndex(init, r0[j]);
        } else {
          assert r[j] == x;
          assert FirstIndex(init, r0[i]) < |init|;
        }
      }
    }
  }

  /** De-duplicating a sequence that has no repeats changes nothing. */
  lemma {:induction false} DedupOfDistinct<T(!new)>(xs: seq<T>)
    requires Distinct(xs)
    ensures Dedup(xs) == xs
  {
    if xs != [] {
      var init, x := xs[..|xs| - 1], xs[|xs| - 1];
      assert xs == init + [x];
      assert Distinct(init) by {
        forall i, j | 0 <= i < j < |init| ensures init[i] != init[j] {
          assert init[i] == xs[i] && init[j] == xs[j];
        }
      }
      forall k | 0 <= k < |init| ensures init[k] != x {
        assert init[k] == xs[k];
      }
      DedupOfDistinct(init);
    }
  }

  /** An element of a sequence without repeats occurs exactly once. */
  lemma DistinctMultiplicity<T>(s: seq<T>, x: T)
    requires Distinct(s)
    ensures multiset(s)[x] == if x in s then 1 else 0
  {
    if s != [] {
      var init := s[..|s| - 1];
      assert s == init + [s[|s| - 1]];
      DistinctMultiplicity(init, x);
    }
  }

  lemma AppendAssociative<T>(a: seq<T>, b: seq<T>, c: seq<T>)
    ensures a + (b + c) == (a + b) + c
  {
  }

  /** A record held by a plain JavaScript object: its string keys in insertion
      order and the value under each key. */
  datatype Dict<V> = Dict(keys: seq<string>, entries: map<string, V>)

  /** The key order and the key/value pairs agree, and no key is listed twice. */
  type OrderedDict<V> = d: Dict<V> | Distinct(d.keys) && (forall k :: k in d.entries <==> k in d.keys)
    witness Dict([], map[])

  /** `obj[k] = v`: an existing key keeps its position and takes the new value;
      a new key goes last. */
  function Put<V>(d: OrderedDict<V>, k: string, v: V): OrderedDict<V>
  {
    Dict(Add(d.keys, k), d.entries[k := v])
  }

  /** After `d[k] = v`: the key holds the new value, every other key keeps its
      value, and the keys already present keep their order, with at most one
      key added after them. */
  lemma PutEntries<V>(d: OrderedDict<V>, k: string, v: V)
    ensures var r := Put(d, k, v);
      && k in r.entries && r.entries[k] == v
      && (forall k' | k' in d.entries && k' != k :: k' in r.entries && r.entries[k'] == d.entries[k'])
      && d.keys <= r.keys && |r.keys| <= |d.keys| + 1
  {
  }

  /** Writing to a key that is already present keeps the key order and every
      other entry. */
  lemma PutPresent<V>(d: OrderedDict<V>, k: string, v: V)
    requires k in d.entries
    ensures Put(d, k, v).keys == d.keys
    ensures Put(d, k, v).entries[k] == v
    ensures forall k' | k' in d.entries && k' != k :: Put(d, k, v).entries[k'] == d.entries[k']
  {
  }
}
