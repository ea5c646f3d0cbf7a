/** What conflict resolution guarantees. */
module RunnerLaws {
  import opened Patch
  import opened Compare
  import opened Runner
  import opened Pairings

  // ----- only one operation is kept on a path -----

  lemma FirstBestUnique(prio: Priorities, ops: seq<PluginOperation>, k: string, i: nat, j: nat)
    requires FirstBest(prio, ops, k, i) && FirstBest(prio, ops, k, j)
    ensures i == j
  {
  }

  // ----- nothing is lost -----

  ghost function Values(kept: map<string, PluginOperation>): multiset<PluginOperation>
  {
    multiset(kept.Values)
  }

  /** The values under the other keys. */
  ghost function Others(kept: map<string, PluginOperation>, k: string): set<PluginOperation>
  {
    (kept - {k}).Values
  }

  lemma PutValues(kept: map<string, PluginOperation>, k: string, o: PluginOperation)
    ensures kept[k := o].Values == Others(kept, k) + {o}
  {
    var after := kept[k := o];
    forall v | v in Others(kept, k) ensures v in after.Values {
      var j :| j in kept - {k} && (kept - {k})[j] == v;
      assert j in after && after[j] == v;
    }
    assert k in after && after[k] == o;
    forall v | v in after.Values ensures v in Others(kept, k) + {o} {
      var j :| j in after && after[j] == v;
      if j != k {
        assert j in kept - {k} && (kept - {k})[j] == v;
      }
    }
  }

  lemma AddOne<T>(s: set<T>, x: T)
    requires x !in s
    ensures multiset(s + {x}) == multiset(s) + multiset{x}
  {
  }

  lemma OtherPaths(kept: map<string, PluginOperation>, k: string)
    requires KeyedByPath(kept)
    ensures forall v <- Others(kept, k) :: v.op.path != Present(k)
  {
    forall v | v in Others(kept, k) ensures v.op.path != Present(k) {
      var j :| j in kept - {k} && (kept - {k})[j] == v;
    }
  }

  lemma ValuesPut(kept: map<string, PluginOperation>, k: string, o: PluginOperation)
    requires KeyedByPath(kept) && o.op.path == Present(k)
    ensures Values(kept[k := o]) == multiset(Others(kept, k)) + multiset{o}
  {
    PutValues(kept, k, o);
    OtherPaths(kept, k);
    AddOne(Others(kept, k), o);
  }

  lemma ValuesBefore(kept: map<string, PluginOperation>, k: string)
    requires KeyedByPath(kept)
    ensures k in kept ==> Values(kept) == multiset(Others(kept, k)) + multiset{kept[k]}
    ensures k !in kept ==> Values(kept) == multiset(Others(kept, k))
  {
    if k in kept {
      ValuesPut(kept, k, kept[k]);
      assert kept[k := kept[k]] == kept;
    } else {
      assert kept - {k} == kept;
    }
  }

  /** Every input operation is kept, ignored or a repeat, as often as it came in. */
  lemma {:induction false} Conservation(prio: Priorities, ops: seq<PluginOperation>)
    requires Settled(prio, ops).Ok?
    ensures var t := Settled(prio, ops).value;
            multiset(ops) == Total(t)
    decreases |ops|
  {
    if ops != [] {
      var n := |ops| - 1;
      var init, o := ops[..n], ops[n];
      Conservation(prio, init);
      SettledKeyed(prio, init);
      SettleConserves(prio, Settled(prio, init).value, o);
      SnocContents(ops);
    }
  }

  ghost function Total(t: Tally): multiset<PluginOperation>
  {
    Values(t.kept) + multiset(t.ignored) + multiset(t.repeats)
  }

  lemma SettleConserves(prio: Priorities, t: Tally, o: PluginOperation)
    requires KeyedByPath(t.kept) && Settle(prio, t, o).Ok?
    ensures Total(Settle(prio, t, o).value) == Total(t) + multiset{o}
  {
    var k := o.op.path.v;
    var rest := multiset(Others(t.kept, k));
    ValuesBefore(t.kept, k);
    ValuesPut(t.kept, k, o);
    if k in t.kept {
      LoserMoves(prio, t, o, rest);
    } else {
      var before, after := Values(t.kept), Values(t.kept[k := o]);
      assert after == before + multiset{o};
    }
  }

  lemma LoserMoves(prio: Priorities, t: Tally, o: PluginOperation, rest: multiset<PluginOperation>)
    requires Settle(prio, t, o).Ok? && o.op.path.v in t.kept
    requires Values(t.kept) == rest + multiset{t.kept[o.op.path.v]}
    requires Values(t.kept[o.op.path.v := o]) == rest + multiset{o}
    ensures Total(Settle(prio, t, o).value) == Total(t) + multiset{o}
  {
    var found := t.kept[o.op.path.v];
    var after := Settle(prio, t, o).value;
    var loser := if Outranks(prio, o.plugin, found.plugin) then found else o;
    var winner := if Outranks(prio, o.plugin, found.plugin) then o else found;
    assert Values(after.kept) == rest + multiset{winner};
    Regroup(rest, winner, loser, found, o, multiset(t.ignored), multiset(t.repeats));
  }

  lemma Regroup<T>(rest: multiset<T>, winner: T, loser: T, found: T, o: T, a: multiset<T>, b: multiset<T>)
    requires (winner == o && loser == found) || (winner == found && loser == o)
    ensures rest + multiset{winner} + (a + multiset{loser}) + b == rest + multiset{found} + a + b + multiset{o}
    ensures rest + multiset{winner} + a + (b + multiset{loser}) == rest + multiset{found} + a + b + multiset{o}
  {
  }

  ghost predicate Retained(t: Tally, x: PluginOperation)
  {
    x in t.kept.Values || x in t.ignored
  }

  /** Some retained operation equals `x`, or is `x`. */
  ghost predicate Represented(t: Tally, x: PluginOperation)
  {
    exists y :: Retained(t, y) && (y == x || EqualOperation(y.op, x.op))
  }

  lemma SettleRetains(prio: Priorities, t: Tally, o: PluginOperation, y: PluginOperation)
    requires KeyedByPath(t.kept) && Settle(prio, t, o).Ok?
    requires Retained(t, y) || y == o
    ensures Represented(Settle(prio, t, o).value, y)
  {
    var k, after := o.op.path.v, Settle(prio, t, o).value;
    if k in after.kept {
      assert after.kept[k] in after.kept.Values;
    }
    if y in t.kept.Values {
      var j :| j in t.kept && t.kept[j] == y;
      if j != k {
        assert j in after.kept && after.kept[j] == y;
      } else {
        assert y == after.kept[k] || y in after.ignored || EqualOperation(after.kept[k].op, y.op) by {
          EqualOperationEquivalence(y.op, o.op, y.op);
        }
      }
      assert Retained(after, y) || (Retained(after, after.kept[k]) && EqualOperation(after.kept[k].op, y.op));
    } else if y == o {
      assert Retained(after, y) || (Retained(after, after.kept[k]) && EqualOperation(after.kept[k].op, y.op));
    } else {
      assert Retained(after, y);
    }
  }

  /** Nothing is silently lost: every input operation is retained, or equals one that is. */
  lemma {:induction false} NothingLost(prio: Priorities, ops: seq<PluginOperation>, x: PluginOperation)
    requires Settled(prio, ops).Ok? && x in ops
    ensures Represented(Settled(prio, ops).value, x)
    decreases |ops|
  {
    var n := |ops| - 1;
    var init, o := ops[..n], ops[n];
    var before, after := Settled(prio, init).value, Settled(prio, ops).value;
    SettledKeyed(prio, init);
    if x in init {
      NothingLost(prio, init, x);
      var y :| Retained(before, y) && (y == x || EqualOperation(y.op, x.op));
      SettleRetains(prio, before, o, y);
      var z :| Retained(after, z) && (z == y || EqualOperation(z.op, y.op));
      EqualOperationEquivalence(z.op, y.op, x.op);
    } else {
      SettleRetains(prio, before, o, x);
    }
  }

  /** `g` lost to some input operation on its path that differs from it and is of no worse rank. */
  ghost predicate LostTo(prio: Priorities, ops: seq<PluginOperation>, g: PluginOperation, w: PluginOperation)
  {
    && w in ops && w.op.path == g.op.path && !EqualOperation(w.op, g.op)
    && NoWorse(prio, w.plugin, g.plugin)
  }

  lemma {:induction false} IgnoredLost(prio: Priorities, ops: seq<PluginOperation>, g: PluginOperation)
    requires Settled(prio, ops).Ok? && g in Settled(prio, ops).value.ignored
    ensures exists w :: LostTo(prio, ops, g, w)
    decreases |ops|
  {
    var n := |ops| - 1;
    var init, o := ops[..n], ops[n];
    var before := Settled(prio, init).value;
    if g in before.ignored {
      IgnoredLost(prio, init, g);
      var w :| LostTo(prio, init, g, w);
      assert LostTo(prio, ops, g, w);
    } else {
      var k := o.op.path.v;
      var found := before.kept[k];
      SettledKeyed(prio, init);
      KeptIsFirstBest(prio, init, k);
      assert found in ops && o in ops;
      EqualOperationEquivalence(found.op, o.op, found.op);
      EqualOperationEquivalence(o.op, found.op, o.op);
      assert LostTo(prio, ops, g, found) || LostTo(prio, ops, g, o);
    }
  }

  // ----- when an ignored operation equals the kept one -----

  /**
   * Operation number `i` equals `x`, and once `n` operations have come in, `i` among them, the best on
   * the path so far is number `m`, which does not equal `x`.
   */
  ghost predicate Overtaken(prio: Priorities, ops: seq<PluginOperation>, x: Operation, i: int, n: int, m: int)
  {
    && x.path.Present? && 0 <= i < n <= |ops| && 0 <= m
    && EqualOperation(ops[i].op, x)
    && FirstBest(prio, ops[..n], x.path.v, m) && !EqualOperation(ops[m].op, x)
  }

  /** That happens while no more than `limit` operations have come in. */
  ghost predicate OvertakenBy(prio: Priorities, ops: seq<PluginOperation>, x: Operation, limit: nat)
  {
    exists i, n, m :: Overtaken(prio, ops, x, i, n, m) && n <= limit
  }

  ghost predicate EqualIgnored(prio: Priorities, ops: seq<PluginOperation>, x: Operation)
    requires Settled(prio, ops).Ok?
  {
    exists g <- Settled(prio, ops).value.ignored :: EqualOperation(g.op, x)
  }

  lemma {:induction false} SettledBefore(prio: Priorities, ops: seq<PluginOperation>, n: nat)
    requires Settled(prio, ops).Ok? && n <= |ops|
    ensures Settled(prio, ops[..n]).Ok?
    ensures forall g <- Settled(prio, ops[..n]).value.ignored :: g in Settled(prio, ops).value.ignored
    decreases |ops|
  {
    if n == |ops| {
      assert ops[..n] == ops;
    } else {
      var init := ops[..|ops| - 1];
      SettledBefore(prio, init, n);
      assert init[..n] == ops[..n];
    }
  }

  /** An operation that equals `x` is ignored by the time something unequal is best. */
  lemma OvertakenIgnored(prio: Priorities, ops: seq<PluginOperation>, x: Operation, i: int, n: int, m: int)
    requires Settled(prio, ops).Ok? && Overtaken(prio, ops, x, i, n, m)
    ensures EqualIgnored(prio, ops, x)
  {
    var sofar, k := ops[..n], x.path.v;
    SettledBefore(prio, ops, n);
    var t := Settled(prio, sofar).value;
    assert sofar[i] == ops[i] && sofar[i] in sofar;
    NothingLost(prio, sofar, ops[i]);
    var y :| Retained(t, y) && (y == ops[i] || EqualOperation(y.op, ops[i].op));
    EqualOperationEquivalence(y.op, ops[i].op, x);
    if y in t.kept.Values {
      SettledKeyed(prio, sofar);
      KeptIsFirstBest(prio, sofar, k);
      var j :| j in t.kept && t.kept[j] == y;
      var w: nat :| FirstBest(prio, sofar, k, w) && t.kept[k] == sofar[w];
      FirstBestUnique(prio, sofar, k, w, m);
    }
  }

  /** Whatever is ignored loses to something unequal that is best from then on. */
  lemma {:induction false} IgnoredOvertaken(prio: Priorities, ops: seq<PluginOperation>, x: Operation,
                                            g: PluginOperation)
    requires Settled(prio, ops).Ok? && g in Settled(prio, ops).value.ignored && EqualOperation(g.op, x)
    ensures OvertakenBy(prio, ops, x, |ops|)
    decreases |ops|
  {
    var last := |ops| - 1;
    var init := ops[..last];
    if g in Settled(prio, init).value.ignored {
      IgnoredOvertaken(prio, init, x, g);
      var i, n, m :| Overtaken(prio, init, x, i, n, m) && n <= last;
      assert init[..n] == ops[..n];
      assert Overtaken(prio, ops, x, i, n, m);
    } else {
      LoserOvertaken(prio, ops, x, g);
    }
  }

  lemma LoserOvertaken(prio: Priorities, ops: seq<PluginOperation>, x: Operation, g: PluginOperation)
    requires ops != [] && Settled(prio, ops).Ok? && EqualOperation(g.op, x)
    requires g in Settled(prio, ops).value.ignored && g !in Settled(prio, ops[..|ops| - 1]).value.ignored
    ensures OvertakenBy(prio, ops, x, |ops|)
  {
    var last := |ops| - 1;
    var o, k := ops[last], x.path.v;
    var before, after := Settled(prio, ops[..last]).value, Settled(prio, ops).value;
    SettledKeyed(prio, ops[..last]);
    LoserLosesTo(prio, before, o, x, g);
    KeptIsFirstBest(prio, ops[..last], k);
    KeptIsFirstBest(prio, ops, k);
    var i: nat :| FirstBest(prio, ops[..last], k, i) && before.kept[k] == ops[..last][i];
    var m: nat :| FirstBest(prio, ops, k, m) && after.kept[k] == ops[m];
    assert ops[..|ops|] == ops;
    assert Overtaken(prio, ops, x, if g == o then last else i, |ops|, m);
  }

  lemma LoserLosesTo(prio: Priorities, t: Tally, o: PluginOperation, x: Operation, g: PluginOperation)
    requires KeyedByPath(t.kept) && Settle(prio, t, o).Ok? && EqualOperation(g.op, x)
    requires g in Settle(prio, t, o).value.ignored && g !in t.ignored
    ensures x.path.Present? && x.path.v in t.kept && (g == o || g == t.kept[x.path.v])
    ensures x.path.v in Settle(prio, t, o).value.kept
    ensures !EqualOperation(Settle(prio, t, o).value.kept[x.path.v].op, x)
  {
    var k := o.op.path.v;
    var found, after := t.kept[k], Settle(prio, t, o).value;
    EqualOperationEquivalence(o.op, x, found.op);
    EqualOperationEquivalence(found.op, x, o.op);
    EqualOperationEquivalence(x, o.op, found.op);
    EqualOperationEquivalence(x, found.op, o.op);
    EqualOperationEquivalence(o.op, found.op, x);
    EqualOperationEquivalence(found.op, o.op, x);
  }

  /** Exactly when some ignored operation equals `x`. */
  lemma IgnoredEqualIff(prio: Priorities, ops: seq<PluginOperation>, x: Operation)
    requires Settled(prio, ops).Ok?
    ensures EqualIgnored(prio, ops, x) <==> OvertakenBy(prio, ops, x, |ops|)
  {
    if EqualIgnored(prio, ops, x) {
      var g :| g in Settled(prio, ops).value.ignored && EqualOperation(g.op, x);
      IgnoredOvertaken(prio, ops, x, g);
    }
    if i, n, m :| Overtaken(prio, ops, x, i, n, m) && n <= |ops| {
      OvertakenIgnored(prio, ops, x, i, n, m);
    }
  }

  /**
   * An ignored operation equals the one kept on its path, number `w`, exactly when an equal operation
   * came in before number `w` and something unequal was best between the two.
   */
  lemma IgnoredEqualsKeptIff(prio: Priorities, ops: seq<PluginOperation>, k: string, w: nat)
    requires Settled(prio, ops).Ok? && FirstBest(prio, ops, k, w)
    ensures EqualIgnored(prio, ops, ops[w].op) <==> OvertakenBy(prio, ops, ops[w].op, w)
  {
    IgnoredEqualIff(prio, ops, ops[w].op);
    forall i, n, m | Overtaken(prio, ops, ops[w].op, i, n, m) ensures n <= w {
      if n > w {
        BestSoFar(prio, ops, k, w, n);
        FirstBestUnique(prio, ops[..n], k, w, m);
        EqualOperationEquivalence(ops[w].op, ops[i].op, ops[w].op);
        EqualOperationEquivalence(ops[i].op, ops[w].op, ops[i].op);
      }
    }
  }

  lemma BestSoFar(prio: Priorities, ops: seq<PluginOperation>, k: string, w: nat, n: nat)
    requires FirstBest(prio, ops, k, w) && w < n <= |ops|
    ensures FirstBest(prio, ops[..n], k, w)
  {
    forall j | At(ops[..n], k, j)
      ensures NoWorse(prio, ops[w].plugin, ops[..n][j].plugin)
      ensures j < w ==> Better(prio, ops[w].plugin, ops[..n][j].plugin)
    {
      assert At(ops, k, j);
    }
  }

  /** A simple guard: when nothing before the kept operation equals it, nothing that is ignored does. */
  lemma NoneIgnoredEqual(prio: Priorities, ops: seq<PluginOperation>, k: string, w: nat)
    requires Settled(prio, ops).Ok? && FirstBest(prio, ops, k, w)
    requires forall i :: 0 <= i < w ==> !EqualOperation(ops[i].op, ops[w].op)
    ensures !EqualIgnored(prio, ops, ops[w].op)
  {
    IgnoredEqualsKeptIff(prio, ops, k, w);
  }

  /**
   * It does happen: of three plugins, each outranking the ones before it, the first and the last ask for
   * the same.
   */
  lemma IgnoredMayEqualKept(prio: Priorities, a: PluginOperation, b: PluginOperation, c: PluginOperation)
    requires Outranks(prio, b.plugin, a.plugin) && Outranks(prio, c.plugin, b.plugin)
    requires EqualOperation(a.op, c.op) && a.op.path == b.op.path && !EqualOperation(a.op, b.op)
    requires Settled(prio, [a, b, c]).Ok?
    ensures FirstBest(prio, [a, b, c], a.op.path.v, 2) && EqualIgnored(prio, [a, b, c], c.op)
  {
    var ops, k := [a, b, c], a.op.path.v;
    assert ops[..2] == [a, b];
    assert FirstBest(prio, ops, k, 2) && FirstBest(prio, ops[..2], k, 1);
    EqualOperationEquivalence(a.op, c.op, b.op);
    EqualOperationEquivalence(b.op, c.op, a.op);
    EqualOperationEquivalence(c.op, a.op, b.op);
    EqualOperationEquivalence(b.op, a.op, b.op);
    assert Overtaken(prio, ops, c.op, 0, 2, 1);
    IgnoredEqualsKeptIff(prio, ops, k, 2);
  }

  // ----- when conflict resolution fails -----

  /** Two operations on the same path, at least one of them with an unreadable value. */
  predicate Unreadable(x: PluginOperation, y: PluginOperation)
  {
    x.op.path.Present? && x.op.path == y.op.path && (x.op.value.Malformed? || y.op.value.Malformed?)
  }

  ghost predicate BadPath(ops: seq<PluginOperation>)
  {
    exists i :: 0 <= i < |ops| && !ops[i].op.path.Present?
  }

  ghost predicate BadPair(ops: seq<PluginOperation>)
  {
    exists i, j :: 0 <= i < j < |ops| && Unreadable(ops[i], ops[j])
  }

  lemma {:induction false} SanitizeFailsIff(prio: Priorities, ops: seq<PluginOperation>)
    ensures Settled(prio, ops).Err? <==> BadPath(ops) || BadPair(ops)
    decreases |ops|
  {
    if ops != [] {
      var n := |ops| - 1;
      var init, o := ops[..n], ops[n];
      SanitizeFailsIff(prio, init);
      if Settled(prio, init).Err? {
        if BadPath(init) {
          var i :| 0 <= i < n && !init[i].op.path.Present?;
          assert !ops[i].op.path.Present?;
        } else {
          var i, j :| 0 <= i < j < n && Unreadable(init[i], init[j]);
          assert Unreadable(ops[i], ops[j]);
        }
      } else {
        assert forall i :: 0 <= i < n ==> init[i] == ops[i];
        assert BadPath(ops) <==> !o.op.path.Present?;
        if o.op.path.Present? {
          LastFails(prio, ops);
        }
      }
    }
  }

  lemma LastFails(prio: Priorities, ops: seq<PluginOperation>)
    requires ops != [] && ops[|ops| - 1].op.path.Present?
    requires Settled(prio, ops[..|ops| - 1]).Ok? && !BadPair(ops[..|ops| - 1])
    ensures Settled(prio, ops).Err? <==> BadPair(ops)
  {
    var n := |ops| - 1;
    var init, o := ops[..n], ops[n];
    var k, kept := o.op.path.v, Settled(prio, init).value.kept;
    KeptIsFirstBest(prio, init, k);
    forall i, j | 0 <= i < j < n ensures !Unreadable(ops[i], ops[j]) {
      assert !Unreadable(init[i], init[j]);
    }
    if BadPair(ops) {
      var i, j :| 0 <= i < j < |ops| && Unreadable(ops[i], ops[j]);
      assert At(init, k, i);
      var m: nat :| FirstBest(prio, init, k, m) && kept[k] == init[m];
      if m != i {
        assert !Unreadable(init[i], init[m]) && !Unreadable(init[m], init[i]);
      }
    }
    if Settled(prio, ops).Err? {
      var m: nat :| FirstBest(prio, init, k, m) && kept[k] == init[m];
      assert Unreadable(ops[m], ops[n]);
    }
  }
}
