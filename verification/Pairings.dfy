/** Sequences with equal contents are those whose positions can be paired off. */
module Pairings {

  type Pairing = seq<nat>

  /** `pairing` gives each position of `a` its own position of `b` with the same element. */
  predicate PairsOff<T(==)>(a: seq<T>, b: seq<T>, pairing: Pairing)
  {
    && |a| == |b| == |pairing|
    && (forall i :: 0 <= i < |a| ==> pairing[i] < |b| && a[i] == b[pairing[i]])
    && (forall i, k :: 0 <= i < k < |a| ==> pairing[i] != pairing[k])
  }

  function DropAt<T>(s: seq<T>, k: nat): seq<T>
    requires k < |s|
  {
    s[..k] + s[k + 1..]
  }

  lemma DropAtContents<T>(s: seq<T>, k: nat)
    requires k < |s|
    ensures multiset(s) == multiset(DropAt(s, k)) + multiset{s[k]}
  {
    assert s == s[..k] + [s[k]] + s[k + 1..];
  }

  /** The pairing that is left when the last position of `a` and its partner are dropped. */
  lemma Shorten<T>(a: seq<T>, b: seq<T>, pairing: Pairing) returns (shorter: Pairing)
    requires a != [] && PairsOff(a, b, pairing)
    ensures PairsOff(a[..|a| - 1], DropAt(b, pairing[|a| - 1]), shorter)
  {
    var n := |a| - 1;
    var k := pairing[n];
    assert forall i :: 0 <= i < n ==> pairing[i] != k;
    shorter := seq(n, i requires 0 <= i < n => if pairing[i] < k then pairing[i] else pairing[i] - 1);
  }

  /** The pairing that arises when `x` is appended to `a` and found at position `k` of `b`. */
  lemma Lengthen<T>(a: seq<T>, x: T, b: seq<T>, k: nat, shorter: Pairing) returns (pairing: Pairing)
    requires k < |b| && b[k] == x && PairsOff(a, DropAt(b, k), shorter)
    ensures PairsOff(a + [x], b, pairing)
  {
    pairing := seq(|a|, i requires 0 <= i < |a| => if shorter[i] < k then shorter[i] else shorter[i] + 1) + [k];
  }

  lemma {:induction false} PairingGivesContents<T>(a: seq<T>, b: seq<T>, pairing: Pairing)
    requires PairsOff(a, b, pairing)
    ensures multiset(a) == multiset(b)
    decreases |a|
  {
    if a != [] {
      var shorter := Shorten(a, b, pairing);
      var k := pairing[|a| - 1];
      PairingGivesContents(a[..|a| - 1], DropAt(b, k), shorter);
      DropAtContents(b, k);
      assert a == a[..|a| - 1] + [a[|a| - 1]];
    } else {
      assert b == [];
    }
  }

  lemma RestContents<T>(start: seq<T>, x: T, b: seq<T>, k: nat)
    requires k < |b| && b[k] == x && multiset(start + [x]) == multiset(b)
    ensures multiset(start) == multiset(DropAt(b, k))
  {
    DropAtContents(b, k);
    assert multiset(start) == multiset(start + [x]) - multiset{x};
  }

  lemma {:induction false} ContentsGivePairing<T>(a: seq<T>, b: seq<T>) returns (pairing: Pairing)
    requires multiset(a) == multiset(b)
    ensures PairsOff(a, b, pairing)
    decreases |a|
  {
    assert |a| == |multiset(a)| == |multiset(b)| == |b|;
    if a == [] {
      pairing := [];
    } else {
      var start, x := a[..|a| - 1], a[|a| - 1];
      assert a == start + [x];
      assert x in multiset(b);
      var k :| 0 <= k < |b| && b[k] == x;
      RestContents(start, x, b, k);
      var shorter := ContentsGivePairing(start, DropAt(b, k));
      pairing := Lengthen(start, x, b, k, shorter);
    }
  }

  /** `x` sits somewhere in `s`; taking it out leaves the two sides. */
  lemma TakeOut<T>(s: seq<T>, x: T) returns (before: seq<T>, after: seq<T>)
    requires x in multiset(s)
    ensures s == before + [x] + after && multiset(before + after) == multiset(s) - multiset{x}
  {
    var i :| 0 <= i < |s| && s[i] == x;
    before, after := s[..i], s[i + 1..];
    assert s == before + [x] + after;
  }

  /** Two elements that a sequence contains sit at two different positions. */
  lemma TwoPositions<T>(s: seq<T>, x: T, y: T) returns (i: nat, j: nat)
    requires multiset{x, y} <= multiset(s)
    ensures i < |s| && j < |s| && i != j && s[i] == x && s[j] == y
  {
    assert multiset{x, y}[x] >= 1;
    var before, after := TakeOut(s, x);
    assert y in multiset(before + after);
    var n :| 0 <= n < |before + after| && (before + after)[n] == y;
    i := |before|;
    j := if n < |before| then n else n + 1;
  }

  lemma SnocContents<T>(s: seq<T>)
    requires s != []
    ensures multiset(s) == multiset(s[..|s| - 1]) + multiset{s[|s| - 1]}
  {
    assert s == s[..|s| - 1] + [s[|s| - 1]];
  }

  lemma PositionsContained<T>(s: seq<T>, i: nat, j: nat)
    requires i < j < |s|
    ensures multiset{s[i], s[j]} <= multiset(s)
  {
    assert s == s[..i] + [s[i]] + s[i + 1..j] + [s[j]] + s[j + 1..];
  }
}
