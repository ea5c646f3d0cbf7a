/** Equality of operations and of patches (transform/internal/jsonpatch/compare.go). */
module Compare {
  import opened Json
  import opened Patch
  import opened Pairings

  predicate HasSource(kind: string)
  {
    kind == "move" || kind == "copy"
  }

  /** `ValueInterface` reports a missing value, for a nil pointer too. */
  predicate Lacks(value: Field<Json>)
  {
    value.Missing? || value.Nil?
  }

  /** The value Go compares: bytes that do not decode leave it nil. */
  function ComparedValue(value: Field<Json>): Json
    requires !Lacks(value)
  {
    if value.Present? then value.v else Null
  }

  predicate EqualOperation(x: Operation, y: Operation)
  {
    && x.kind == y.kind
    && x.path.Present? && y.path.Present?
    && x.path.v == y.path.v
    && (HasSource(x.kind) ==> x.from.Present? && y.from.Present? && x.from.v == y.from.v)
    && (Lacks(x.value) <==> Lacks(y.value))
    && (!Lacks(x.value) ==> ComparedValue(x.value) == ComparedValue(y.value))
  }

  /** The operation names its path, and its source when it has one. */
  predicate WellFormed(x: Operation)
  {
    x.path.Present? && (HasSource(x.kind) ==> x.from.Present?)
  }

  /** What is left of an operation once everything the comparison ignores is erased. */
  function Canon(x: Operation): Operation
  {
    Operation(x.kind, x.path,
              if HasSource(x.kind) then x.from else Missing,
              if Lacks(x.value) then Missing else Present(ComparedValue(x.value)))
  }

  lemma EqualIsCanon(x: Operation, y: Operation)
    ensures EqualOperation(x, y) <==> WellFormed(x) && WellFormed(y) && Canon(x) == Canon(y)
  {
  }

  /** An equivalence exactly on the well-formed operations. */
  lemma EqualOperationEquivalence(x: Operation, y: Operation, z: Operation)
    ensures EqualOperation(x, x) <==> WellFormed(x)
    ensures EqualOperation(x, y) ==> EqualOperation(y, x)
    ensures EqualOperation(x, y) && EqualOperation(y, z) ==> EqualOperation(x, z)
  {
    EqualIsCanon(x, x);
    EqualIsCanon(x, y);
    EqualIsCanon(y, x);
    EqualIsCanon(y, z);
    EqualIsCanon(x, z);
  }

  // ----- equal operations have the same target and the same value -----

  /** Same kind, path and, for a move or copy, source. */
  predicate SameTarget(x: Operation, y: Operation)
  {
    && x.kind == y.kind && x.path.Present? && x.path == y.path
    && (x.kind == "move" || x.kind == "copy" ==> x.from.Present? && x.from == y.from)
  }

  /** The same value where both can be read; what cannot be read counts as null, and null pointers as absent. */
  predicate SameValue(v: Field<Json>, w: Field<Json>)
  {
    match (v, w)
    case (Present(a), Present(b)) => a == b
    case (Present(a), Malformed(_)) => a == Null
    case (Malformed(_), Present(b)) => b == Null
    case (Malformed(_), Malformed(_)) => true
    case (Missing, Missing) => true
    case (Missing, Nil) => true
    case (Nil, Missing) => true
    case (Nil, Nil) => true
    case (_, _) => false
  }

  /** Exactly when two operations are equal. */
  lemma EqualOperationIff(x: Operation, y: Operation)
    ensures EqualOperation(x, y) <==> SameTarget(x, y) && SameValue(x.value, y.value)
  {
    EqualIsCanon(x, y);
  }

  // ----- values that do not decode -----

  /**
   * The comment beside the last return promises that an operation whose value does not decode equals
   * nothing.  In fact it equals exactly those operations with the same target whose value does not
   * decode either, or is raw null bytes.
   */
  lemma UnreadableEqualIff(x: Operation, y: Operation)
    requires x.value.Malformed?
    ensures EqualOperation(x, y) <==> SameTarget(x, y) && (y.value.Malformed? || y.value == Present(Null))
  {
    EqualIsCanon(x, y);
    if y.value.Malformed? || y.value == Present(Null) {
      assert ComparedValue(x.value) == ComparedValue(y.value);
    }
  }

  /** Two numbers that are too large to decode are different values, and the operations are equal. */
  lemma UnreadableCollide(path: string)
    ensures var x := Operation("add", Present(path), Missing, Malformed("1e400"));
            var y := Operation("add", Present(path), Missing, Malformed("2e400"));
            x != y && EqualOperation(x, y)
  {
    var a, b := "1e400", "2e400";
    assert a[0] != b[0];
  }

  /** A null that was decoded equals no value at all, and only that. */
  lemma DecodedNullIff(x: Operation, y: Operation)
    requires x.value.Nil?
    ensures EqualOperation(x, y) <==> SameTarget(x, y) && (y.value.Nil? || y.value.Missing?)
  {
    EqualIsCanon(x, y);
  }

  /** So an add of null, once decoded, equals an add without a value. */
  lemma NullAddEqualsBare(path: string)
    ensures EqualOperation(AddOp(path, Null), Operation("add", Present(path), Missing, Missing))
    ensures !EqualOperation(AddOp(path, Null), Operation("add", Present(path), Missing, Present(Null)))
  {
    DecodedNullIff(AddOp(path, Null), Operation("add", Present(path), Missing, Missing));
    DecodedNullIff(AddOp(path, Null), Operation("add", Present(path), Missing, Present(Null)));
  }

  // ----- patches -----

  predicate Match(x: Operation, y: Operation)
  {
    SameTarget(x, y) && SameValue(x.value, y.value)
  }

  /** `pairing` matches every operation of `p` with its own operation of `q`, of the same target and value. */
  ghost predicate Pairs(p: seq<Operation>, q: seq<Operation>, pairing: Pairing)
  {
    && |p| == |q| == |pairing|
    && (forall i :: 0 <= i < |p| ==> pairing[i] < |q| && Match(p[i], q[pairing[i]]))
    && (forall i, k :: 0 <= i < k < |p| ==> pairing[i] != pairing[k])
  }

  function Canons(p: seq<Operation>): (r: seq<Operation>)
    ensures |r| == |p| && forall i :: 0 <= i < |p| ==> r[i] == Canon(p[i])
  {
    seq(|p|, i requires 0 <= i < |p| => Canon(p[i]))
  }

  predicate AllWellFormed(p: seq<Operation>)
  {
    forall x <- p :: WellFormed(x)
  }

  /** The two patches consist of the same operations, up to what the comparison ignores. */
  ghost predicate SameOperations(p: seq<Operation>, q: seq<Operation>)
  {
    AllWellFormed(p) && AllWellFormed(q) && multiset(Canons(p)) == multiset(Canons(q))
  }

  /** The canonical forms of the first `n` operations whose flag is `flag`. */
  ghost function Marked(q: seq<Operation>, used: seq<bool>, flag: bool, n: nat): multiset<Operation>
    requires n <= |q| == |used|
  {
    if n == 0 then multiset{}
    else Marked(q, used, flag, n - 1) + (if used[n - 1] == flag then multiset{Canon(q[n - 1])} else multiset{})
  }

  lemma {:induction false} MarkedSplits(q: seq<Operation>, used: seq<bool>, n: nat)
    requires n <= |q| == |used|
    ensures Marked(q, used, true, n) + Marked(q, used, false, n) == multiset(Canons(q[..n]))
  {
    if n == 0 {
      assert Canons(q[..0]) == [];
    } else {
      MarkedSplits(q, used, n - 1);
      assert Canons(q[..n]) == Canons(q[..n - 1]) + [Canon(q[n - 1])];
    }
  }

  lemma {:induction false} MarkOne(q: seq<Operation>, used: seq<bool>, i: nat, n: nat)
    requires n <= |q| == |used| && i < |q| && !used[i]
    ensures Marked(q, used[i := true], true, n) ==
            Marked(q, used, true, n) + (if i < n then multiset{Canon(q[i])} else multiset{})
  {
    if n > 0 {
      MarkOne(q, used, i, n - 1);
      var before := Marked(q, used, true, n - 1);
      var one, last := multiset{Canon(q[i])}, multiset{Canon(q[n - 1])};
      AddLast(before, if i < n - 1 then one else multiset{}, if used[n - 1] then last else multiset{});
    }
  }

  lemma AddLast<T>(before: multiset<T>, one: multiset<T>, last: multiset<T>)
    ensures before + one + last == before + last + one
  {
  }

  lemma {:induction false} MarkedIn(q: seq<Operation>, used: seq<bool>, flag: bool, n: nat, c: Operation)
    requires n <= |q| == |used|
    ensures c in Marked(q, used, flag, n) ==> exists i :: 0 <= i < n && used[i] == flag && Canon(q[i]) == c
  {
    if n > 0 {
      MarkedIn(q, used, flag, n - 1, c);
    }
  }

  lemma {:induction false} NothingMarked(q: seq<Operation>, used: seq<bool>, n: nat)
    requires n <= |q| == |used| && forall b <- used :: !b
    ensures Marked(q, used, true, n) == multiset{}
  {
    if n > 0 {
      assert used[n - 1] in used;
      NothingMarked(q, used, n - 1);
    }
  }

  /** The inner loop of `Equal`: claim the first free operation of `q` that equals `op`. */
  method Claim(op: Operation, q: seq<Operation>, used: array<bool>) returns (found: bool, ghost k: nat)
    requires used.Length == |q|
    modifies used
    ensures !found ==> used[..] == old(used[..]) && forall i :: 0 <= i < |q| ==> used[i] || !EqualOperation(op, q[i])
    ensures found ==> ClaimedFirst(op, q, old(used[..]), k) && used[..] == old(used[..])[k := true]
  {
    for i := 0 to |q|
      invariant used[..] == old(used[..])
      invariant forall j :: 0 <= j < i ==> used[j] || !EqualOperation(op, q[j])
    {
      if !used[i] && EqualOperation(op, q[i]) {
        assert ClaimedFirst(op, q, used[..], i);
        used[i] := true;
        return true, i;
      }
    }
    return false, 0;
  }

  predicate ClaimedFirst(op: Operation, q: seq<Operation>, used: seq<bool>, i: nat)
    requires |used| == |q|
  {
    && i < |q| && !used[i] && EqualOperation(op, q[i])
    && forall k :: 0 <= k < i ==> used[k] || !EqualOperation(op, q[k])
  }

  /** The operations claimed so far are those of `p`, and all of them are well formed. */
  ghost predicate ClaimedFor(p: seq<Operation>, q: seq<Operation>, used: seq<bool>)
    requires |used| == |q|
  {
    && Marked(q, used, true, |q|) == multiset(Canons(p))
    && AllWellFormed(p)
    && forall i :: 0 <= i < |q| && used[i] ==> WellFormed(q[i])
  }

  lemma NoneClaimed(p: seq<Operation>, q: seq<Operation>, used: seq<bool>)
    requires |used| == |q| && forall i :: 0 <= i < |used| ==> !used[i]
    ensures ClaimedFor(p[..0], q, used)
  {
    NothingMarked(q, used, |q|);
    assert Canons(p[..0]) == [];
  }

  lemma ClaimOne(p: seq<Operation>, op: Operation, q: seq<Operation>, used: seq<bool>, i: nat)
    requires |used| == |q| && ClaimedFor(p, q, used) && ClaimedFirst(op, q, used, i)
    ensures ClaimedFor(p + [op], q, used[i := true])
  {
    MarkOne(q, used, i, |q|);
    EqualIsCanon(op, q[i]);
    assert Canons(p + [op]) == Canons(p) + [Canon(op)];
  }

  lemma ClaimNext(p: seq<Operation>, n: nat, q: seq<Operation>, used: seq<bool>, i: nat)
    requires n < |p| && |used| == |q| && ClaimedFor(p[..n], q, used) && ClaimedFirst(p[n], q, used, i)
    ensures ClaimedFor(p[..n + 1], q, used[i := true])
  {
    ClaimOne(p[..n], p[n], q, used, i);
    assert p[..n + 1] == p[..n] + [p[n]];
  }

  lemma SameLength(p: seq<Operation>, q: seq<Operation>)
    ensures SameOperations(p, q) ==> |p| == |q|
  {
    assert |multiset(Canons(p))| == |p| && |multiset(Canons(q))| == |q|;
  }

  /** `Equal`: greedy matching finds a pairing whenever there is one. */
  method Equal(p: seq<Operation>, q: seq<Operation>) returns (equal: bool)
    ensures equal <==> exists pairing: Pairing :: Pairs(p, q, pairing)
    ensures equal <==> SameOperations(p, q)
  {
    EqualIsPairing(p, q);
    SameLength(p, q);
    if |p| != |q| {
      return false;
    }
    var used := new bool[|q|](_ => false);
    ghost var flags := used[..];
    NoneClaimed(p, q, flags);
    for n := 0 to |p|
      invariant used[..] == flags && ClaimedFor(p[..n], q, flags)
    {
      ghost var k;
      var found;
      found, k := Claim(p[n], q, used);
      if !found {
        NoPartner(p, q, flags, n);
        return false;
      }
      ClaimNext(p, n, q, flags, k);
      flags := used[..];
    }
    AllClaimed(p, q, flags);
    return true;
  }

  lemma NoPartner(p: seq<Operation>, q: seq<Operation>, used: seq<bool>, n: nat)
    requires n < |p| == |q| == |used|
    requires ClaimedFor(p[..n], q, used)
    requires forall k :: 0 <= k < |q| ==> used[k] || !EqualOperation(p[n], q[k])
    ensures !SameOperations(p, q)
  {
    if SameOperations(p, q) {
      var c := Canon(p[n]);
      MarkedSplits(q, used, |q|);
      assert q[..|q|] == q;
      LeftOver(p, n);
      assert c in Marked(q, used, false, |q|);
      MarkedIn(q, used, false, |q|, c);
      var k :| 0 <= k < |q| && used[k] == false && Canon(q[k]) == c;
      assert p[n] in p && q[k] in q;
      EqualIsCanon(p[n], q[k]);
    }
  }

  lemma LeftOver(p: seq<Operation>, n: nat)
    requires n < |p|
    ensures Canon(p[n]) in multiset(Canons(p)) - multiset(Canons(p[..n]))
  {
    assert Canons(p) == Canons(p[..n]) + ([Canon(p[n])] + Canons(p[n + 1..]));
  }

  lemma AllClaimed(p: seq<Operation>, q: seq<Operation>, used: seq<bool>)
    requires |p| == |q| == |used| && ClaimedFor(p[..|p|], q, used)
    ensures SameOperations(p, q)
  {
    assert p[..|p|] == p;
    MarkedSplits(q, used, |q|);
    assert q[..|q|] == q;
    assert |Marked(q, used, false, |q|)| == |multiset(Canons(q))| - |multiset(Canons(p))| == 0;
    forall y | y in q ensures WellFormed(y) {
      var i :| 0 <= i < |q| && q[i] == y;
      if !used[i] {
        UnmarkedIn(q, used, i, |q|);
      }
    }
  }

  lemma {:induction false} UnmarkedIn(q: seq<Operation>, used: seq<bool>, i: nat, n: nat)
    requires i < n <= |q| == |used| && !used[i]
    ensures Canon(q[i]) in Marked(q, used, false, n)
  {
    if i < n - 1 {
      UnmarkedIn(q, used, i, n - 1);
    }
  }

  // ----- having the same operations is having a pairing -----

  lemma PairsIsPairsOff(p: seq<Operation>, q: seq<Operation>, pairing: Pairing)
    requires AllWellFormed(p) && AllWellFormed(q)
    ensures Pairs(p, q, pairing) <==> PairsOff(Canons(p), Canons(q), pairing)
  {
    forall i, k | 0 <= i < |p| && 0 <= k < |q|
      ensures Match(p[i], q[k]) <==> Canons(p)[i] == Canons(q)[k]
    {
      assert p[i] in p && q[k] in q;
      EqualOperationIff(p[i], q[k]);
      EqualIsCanon(p[i], q[k]);
    }
  }

  lemma PairsWellFormed(p: seq<Operation>, q: seq<Operation>, pairing: Pairing)
    requires Pairs(p, q, pairing)
    ensures AllWellFormed(p) && AllWellFormed(q)
  {
    forall y | y in q ensures WellFormed(y) {
      var k :| 0 <= k < |q| && q[k] == y;
      var i := PartnerOf(p, q, pairing, k);
    }
  }

  /** A pairing leaves no position of the second patch out. */
  lemma PartnerOf(p: seq<Operation>, q: seq<Operation>, pairing: Pairing, k: nat) returns (i: nat)
    requires Pairs(p, q, pairing) && k < |q|
    ensures i < |p| && pairing[i] == k
  {
    var positions := seq(|q|, n => n);
    assert PairsOff(pairing, positions, pairing);
    PairingGivesContents(pairing, positions, pairing);
    assert positions[k] in multiset(positions);
    assert k in pairing;
    i :| 0 <= i < |p| && pairing[i] == k;
  }

  lemma EqualIsPairing(p: seq<Operation>, q: seq<Operation>)
    ensures SameOperations(p, q) <==> exists pairing: Pairing :: Pairs(p, q, pairing)
  {
    if SameOperations(p, q) {
      var pairing := ContentsGivePairing(Canons(p), Canons(q));
      PairsIsPairsOff(p, q, pairing);
    }
    if exists pairing: Pairing :: Pairs(p, q, pairing) {
      var pairing: Pairing :| Pairs(p, q, pairing);
      PairsWellFormed(p, q, pairing);
      PairsIsPairsOff(p, q, pairing);
      PairingGivesContents(Canons(p), Canons(q), pairing);
    }
  }

  /** Equality of patches is symmetric and transitive, and reflexive on well-formed patches. */
  lemma EqualEquivalence(p: seq<Operation>, q: seq<Operation>, r: seq<Operation>)
    ensures SameOperations(p, p) <==> AllWellFormed(p)
    ensures SameOperations(p, q) ==> SameOperations(q, p)
    ensures SameOperations(p, q) && SameOperations(q, r) ==> SameOperations(p, r)
  {
  }
}
