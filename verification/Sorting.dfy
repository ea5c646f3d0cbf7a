/** The library sorts the repository calls: `sort.Strings` and `sort.Slice` with a comparison of string keys. */
module Sorting {
  import opened Strings

  ghost predicate OrderedBy<T(!new)>(xs: seq<T>, key: T -> string)
  {
    forall i, j :: 0 <= i < j < |xs| ==> !Less(key(xs[j]), key(xs[i]))
  }

  /** Keys increase strictly, so no two elements share one. */
  ghost predicate StrictlyOrderedBy<T(!new)>(xs: seq<T>, key: T -> string)
  {
    forall i, j :: 0 <= i < j < |xs| ==> Less(key(xs[i]), key(xs[j]))
  }

  lemma OrderedIsStrict<T(!new)>(xs: seq<T>, key: T -> string)
    requires OrderedBy(xs, key)
    requires forall i, j :: 0 <= i < j < |xs| ==> key(xs[i]) != key(xs[j])
    ensures StrictlyOrderedBy(xs, key)
  {
    forall i, j | 0 <= i < j < |xs| ensures Less(key(xs[i]), key(xs[j])) {
      LessTotal(key(xs[i]), key(xs[j]));
    }
  }

  /** `x` put in front of the first element with a larger key. */
  method Insert<T(!new)>(xs: seq<T>, x: T, key: T -> string) returns (ys: seq<T>)
    requires OrderedBy(xs, key)
    ensures OrderedBy(ys, key) && multiset(ys) == multiset(xs) + multiset{x}
  {
    var i := 0;
    while i < |xs| && !Less(key(x), key(xs[i]))
      invariant 0 <= i <= |xs|
      invariant forall k :: 0 <= k < i ==> !Less(key(x), key(xs[k]))
    {
      i := i + 1;
    }
    ys := xs[..i] + [x] + xs[i..];
    assert xs == xs[..i] + xs[i..];
    InsertOrdered(xs, x, i, key);
  }

  lemma InsertOrdered<T(!new)>(xs: seq<T>, x: T, i: nat, key: T -> string)
    requires OrderedBy(xs, key) && i <= |xs|
    requires forall k :: 0 <= k < i ==> !Less(key(x), key(xs[k]))
    requires i < |xs| ==> Less(key(x), key(xs[i]))
    ensures OrderedBy(xs[..i] + [x] + xs[i..], key)
  {
    forall k | i <= k < |xs| ensures !Less(key(xs[k]), key(x)) {
      if Less(key(xs[k]), key(x)) {
        LessTransitive(key(xs[k]), key(x), key(xs[i]));
        LessTotal(key(xs[i]), key(xs[i]));
      }
    }
  }

  method SortBy<T(!new)>(xs: seq<T>, key: T -> string) returns (ys: seq<T>)
    ensures OrderedBy(ys, key) && multiset(ys) == multiset(xs)
  {
    ys := [];
    for n := 0 to |xs|
      invariant OrderedBy(ys, key) && multiset(ys) == multiset(xs[..n])
    {
      ys := Insert(ys, xs[n], key);
      assert xs[..n + 1] == xs[..n] + [xs[n]];
    }
    assert xs[..|xs|] == xs;
  }

  /** `sortedKeys` (transform/new_resource.go): the keys of a map, collected in any order and sorted. */
  method SortedKeys<V>(m: map<string, V>) returns (keys: seq<string>)
    ensures StrictlyOrderedBy(keys, (k: string) => k)
    ensures multiset(keys) == multiset(m.Keys)
  {
    keys := [];
    var rest := m.Keys;
    while rest != {}
      invariant rest <= m.Keys && multiset(keys) == multiset(m.Keys - rest)
    {
      var k :| k in rest;
      keys := keys + [k];
      assert m.Keys - (rest - {k}) == m.Keys - rest + {k};
      rest := rest - {k};
    }
    assert m.Keys - {} == m.Keys;
    keys := SortBy(keys, (k: string) => k);
    KeysDistinct(keys, m.Keys);
    OrderedIsStrict(keys, (k: string) => k);
  }

  lemma KeysDistinct<T>(keys: seq<T>, s: set<T>)
    requires multiset(keys) == multiset(s)
    ensures forall i, j :: 0 <= i < j < |keys| ==> keys[i] != keys[j]
    ensures forall k :: k in keys <==> k in s
  {
    forall i, j | 0 <= i < j < |keys| ensures keys[i] != keys[j] {
      assert keys == keys[..i] + [keys[i]] + keys[i + 1..j] + [keys[j]] + keys[j + 1..];
      assert multiset{keys[i], keys[j]} <= multiset(keys);
    }
    forall k ensures k in keys <==> k in s {
      assert k in keys <==> k in multiset(keys);
    }
  }
}
