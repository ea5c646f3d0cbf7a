/** The order of the plugin list, and the order in which Go ranges over a map, do not show in the result. */
module PluginOrder {
  import opened Wrappers
  import opened Json
  import opened Patch
  import opened Pairings
  import opened PatchOrder
  import opened Runner
  import opened RunnerLaws
  import Applier

  /**
   * Of any two plugins in the list one outranks the other: names are distinct, priorities are
   * distinct, and at most one plugin has none.
   */
  predicate StrictlyRanked(prio: Priorities, plugins: seq<Plugin>)
  {
    forall i, k :: 0 <= i < k < |plugins| ==>
      Outranks(prio, plugins[i].name, plugins[k].name) || Outranks(prio, plugins[k].name, plugins[i].name)
  }

  lemma RankedByPriorities(prio: Priorities, plugins: seq<Plugin>)
    ensures StrictlyRanked(prio, plugins) <==>
            forall i, k :: 0 <= i < k < |plugins| ==>
              && plugins[i].name != plugins[k].name
              && (plugins[i].name in prio || plugins[k].name in prio)
              && (plugins[i].name in prio && plugins[k].name in prio ==> prio[plugins[i].name] != prio[plugins[k].name])
  {
  }

  // ----- the operations of one plugin -----

  function OpsOfPlugin(ops: seq<PluginOperation>, name: string): seq<PluginOperation>
  {
    if ops == [] then []
    else (if ops[0].plugin == name then [ops[0]] else []) + OpsOfPlugin(ops[1..], name)
  }

  lemma {:induction false} OpsOfPluginAppend(xs: seq<PluginOperation>, ys: seq<PluginOperation>, name: string)
    ensures OpsOfPlugin(xs + ys, name) == OpsOfPlugin(xs, name) + OpsOfPlugin(ys, name)
  {
    if xs == [] {
      assert xs + ys == ys;
    } else {
      OpsOfPluginAppend(xs[1..], ys, name);
      AppendParts(xs, ys);
      Regrouped(if xs[0].plugin == name then [xs[0]] else [], OpsOfPlugin(xs[1..], name), OpsOfPlugin(ys, name));
    }
  }

  lemma {:induction false} OpsOfPluginAll(ops: seq<PluginOperation>, name: string)
    ensures (forall o <- ops :: o.plugin == name) ==> OpsOfPlugin(ops, name) == ops
    ensures (forall o <- ops :: o.plugin != name) ==> OpsOfPlugin(ops, name) == []
  {
    if ops != [] {
      OpsOfPluginAll(ops[1..], name);
      assert ops[0] in ops && ops == [ops[0]] + ops[1..];
    }
  }

  lemma {:induction false} CollectedNames(plugins: seq<Plugin>, request: Request, o: PluginOperation)
    requires o in Collected(plugins, request)
    ensures exists i :: 0 <= i < |plugins| && plugins[i].name == o.plugin
  {
    if o !in PluginOps(plugins[0], request) {
      CollectedNames(plugins[1..], request, o);
      var i :| 0 <= i < |plugins[1..]| && plugins[1..][i].name == o.plugin;
      assert plugins[i + 1].name == o.plugin;
    }
  }

  lemma OpsOfOnePlugin(p: Plugin, request: Request, name: string)
    ensures OpsOfPlugin(PluginOps(p, request), name) == if p.name == name then PluginOps(p, request) else []
  {
    OpsOfPluginAll(PluginOps(p, request), name);
  }

  lemma OpsOfUnlistedPlugin(plugins: seq<Plugin>, request: Request, name: string)
    requires forall i :: 0 <= i < |plugins| ==> plugins[i].name != name
    ensures OpsOfPlugin(Collected(plugins, request), name) == []
  {
    forall o | o in Collected(plugins, request) ensures o.plugin != name {
      CollectedNames(plugins, request, o);
    }
    OpsOfPluginAll(Collected(plugins, request), name);
  }

  lemma TailRanked(prio: Priorities, plugins: seq<Plugin>)
    requires StrictlyRanked(prio, plugins) && plugins != []
    ensures StrictlyRanked(prio, plugins[1..])
    ensures forall i :: 0 <= i < |plugins[1..]| ==> plugins[1..][i].name != plugins[0].name
  {
    var rest := plugins[1..];
    forall i | 0 <= i < |rest| ensures rest[i].name != plugins[0].name {
      assert rest[i] == plugins[i + 1];
    }
  }

  lemma {:induction false} OpsOfListedPlugin(prio: Priorities, plugins: seq<Plugin>, request: Request, n: nat)
    requires StrictlyRanked(prio, plugins) && n < |plugins|
    ensures OpsOfPlugin(Collected(plugins, request), plugins[n].name) == PluginOps(plugins[n], request)
    decreases n
  {
    var name, rest := plugins[n].name, plugins[1..];
    OpsOfPluginAppend(PluginOps(plugins[0], request), Collected(rest, request), name);
    OpsOfOnePlugin(plugins[0], request, name);
    TailRanked(prio, plugins);
    if n == 0 {
      OpsOfUnlistedPlugin(rest, request, name);
    } else {
      OpsOfListedPlugin(prio, rest, request, n - 1);
    }
  }

  // ----- the kept operation does not depend on the order -----

  function FirstOn(ops: seq<PluginOperation>, k: string): Option<PluginOperation>
  {
    if ops == [] then None
    else if ops[0].op.path == Present(k) then Some(ops[0])
    else FirstOn(ops[1..], k)
  }

  /** The winner on a path is the first operation its own plugin has there. */
  lemma {:induction false} WinnerIsFirstOfPlugin(ops: seq<PluginOperation>, k: string, i: nat)
    requires At(ops, k, i)
    requires forall j :: 0 <= j < i && At(ops, k, j) ==> ops[j].plugin != ops[i].plugin
    ensures FirstOn(OpsOfPlugin(ops, ops[i].plugin), k) == Some(ops[i])
    decreases i
  {
    var name := ops[i].plugin;
    assert OpsOfPlugin(ops, name) == (if ops[0].plugin == name then [ops[0]] else []) + OpsOfPlugin(ops[1..], name);
    if i == 0 {
    } else {
      forall j | 0 <= j < i - 1 && At(ops[1..], k, j) ensures ops[1..][j].plugin != name {
        assert At(ops, k, j + 1);
      }
      WinnerIsFirstOfPlugin(ops[1..], k, i - 1);
      assert At(ops, k, 0) ==> ops[0].plugin != name;
      var rest := OpsOfPlugin(ops[1..], name);
      assert ([ops[0]] + rest)[1..] == rest && [] + rest == rest;
    }
  }

  lemma {:induction false} CollectedPermuted(ps: seq<Plugin>, qs: seq<Plugin>, request: Request)
    requires multiset(ps) == multiset(qs)
    ensures multiset(Collected(ps, request)) == multiset(Collected(qs, request))
    decreases |ps|
  {
    if ps == [] {
      assert |qs| == |multiset(qs)| == 0;
    } else {
      assert ps == [ps[0]] + ps[1..];
      var xs, ys := TakeOut(qs, ps[0]);
      CollectedPermuted(ps[1..], xs + ys, request);
      CollectedTakenOut(xs, ps[0], ys, request);
    }
  }

  lemma CollectedStep(xs: seq<Plugin>, request: Request)
    requires xs != []
    ensures Collected(xs, request) == PluginOps(xs[0], request) + Collected(xs[1..], request)
  {
  }

  lemma AppendParts<T>(xs: seq<T>, ys: seq<T>)
    requires xs != []
    ensures (xs + ys)[0] == xs[0] && (xs + ys)[1..] == xs[1..] + ys
  {
  }

  lemma {:induction false} CollectedAppend(xs: seq<Plugin>, ys: seq<Plugin>, request: Request)
    ensures Collected(xs + ys, request) == Collected(xs, request) + Collected(ys, request)
    decreases |xs|
  {
    if xs == [] {
      assert xs + ys == ys;
    } else {
      CollectedAppend(xs[1..], ys, request);
      AppendParts(xs, ys);
      CollectedStep(xs, request);
      CollectedStep(xs + ys, request);
      Regrouped(PluginOps(xs[0], request), Collected(xs[1..], request), Collected(ys, request));
    }
  }

  /**
   * What one plugin of the list contributes, between what those before and after it do: the operations
   * and new resources of its response, each operation under the plugin's name, and nothing if it fails.
   */
  lemma Contribution(before: seq<Plugin>, p: Plugin, after: seq<Plugin>, request: Request)
    ensures exists ops: seq<PluginOperation>, resources: seq<Object> ::
      && Collected(before + [p] + after, request) == Collected(before, request) + ops + Collected(after, request)
      && NewResources(before + [p] + after, request) ==
         NewResources(before, request) + resources + NewResources(after, request)
      && match p.run(request)
         case Err => ops == [] && resources == []
         case Ok(response) =>
           && resources == response.newResources && |ops| == |response.patches|
           && forall i :: 0 <= i < |ops| ==> ops[i] == PluginOperation(p.name, response.patches[i])
  {
    CollectedAppend(before + [p], after, request);
    CollectedAppend(before, [p], request);
    CollectedOne(p, request);
    NewResourcesAppend(before + [p], after, request);
    NewResourcesAppend(before, [p], request);
    assert NewResources([p], request) == ResourcesOf(p, request) by {
      assert [p][1..] == [];
    }
  }

  lemma {:induction false} NewResourcesAppend(xs: seq<Plugin>, ys: seq<Plugin>, request: Request)
    ensures NewResources(xs + ys, request) == NewResources(xs, request) + NewResources(ys, request)
    decreases |xs|
  {
    if xs == [] {
      assert xs + ys == ys;
    } else {
      NewResourcesAppend(xs[1..], ys, request);
      AppendParts(xs, ys);
      Regrouped(ResourcesOf(xs[0], request), NewResources(xs[1..], request), NewResources(ys, request));
    }
  }

  lemma CollectedTakenOut(xs: seq<Plugin>, p: Plugin, ys: seq<Plugin>, request: Request)
    ensures multiset(Collected(xs + [p] + ys, request)) ==
            multiset(PluginOps(p, request)) + multiset(Collected(xs + ys, request))
  {
    CollectedAppend(xs, ys, request);
    CollectedAppend(xs + [p], ys, request);
    CollectedAppend(xs, [p], request);
    CollectedOne(p, request);
  }

  lemma CollectedOne(p: Plugin, request: Request)
    ensures Collected([p], request) == PluginOps(p, request)
  {
    assert [p][1..] == [];
  }

  lemma FailurePermuted(a: seq<PluginOperation>, b: seq<PluginOperation>)
    requires multiset(a) == multiset(b)
    ensures BadPath(a) ==> BadPath(b)
    ensures BadPair(a) ==> BadPair(b)
  {
    if BadPath(a) {
      var i :| 0 <= i < |a| && !a[i].op.path.Present?;
      assert a[i] in multiset(b);
    }
    if BadPair(a) {
      var i, j :| 0 <= i < j < |a| && Unreadable(a[i], a[j]);
      PositionsContained(a, i, j);
      var m, n := TwoPositions(b, a[i], a[j]);
      assert Unreadable(b[m], b[n]) && Unreadable(b[n], b[m]);
      if m < n {
        assert Unreadable(b[m], b[n]);
      }
    }
  }

  /** The winner is the first operation on the path of one plugin in the list. */
  lemma WinnerOfPlugin(prio: Priorities, ps: seq<Plugin>, request: Request, k: string, i: nat) returns (n: nat)
    requires StrictlyRanked(prio, ps) && FirstBest(prio, Collected(ps, request), k, i)
    ensures n < |ps| && ps[n].name == Collected(ps, request)[i].plugin
    ensures FirstOn(PluginOps(ps[n], request), k) == Some(Collected(ps, request)[i])
  {
    var a := Collected(ps, request);
    CollectedNames(ps, request, a[i]);
    n :| 0 <= n < |ps| && ps[n].name == a[i].plugin;
    OpsOfListedPlugin(prio, ps, request, n);
    WinnerIsFirstOfPlugin(a, k, i);
  }

  /** Where both orders keep an operation on a path, the same plugin wins. */
  lemma SameRank(prio: Priorities, ps: seq<Plugin>, a: seq<PluginOperation>, b: seq<PluginOperation>, request: Request,
                 k: string, i: nat, j: nat)
    requires StrictlyRanked(prio, ps) && a == Collected(ps, request) && multiset(a) == multiset(b)
    requires FirstBest(prio, a, k, i) && FirstBest(prio, b, k, j)
    ensures a[i].plugin == b[j].plugin
  {
    assert a[i] in multiset(b) && b[j] in multiset(a);
    var i' :| 0 <= i' < |b| && b[i'] == a[i];
    var j' :| 0 <= j' < |a| && a[j'] == b[j];
    assert At(b, k, i') && At(a, k, j');
    CollectedNames(ps, request, a[i]);
    CollectedNames(ps, request, a[j']);
  }

  /** Where both orders keep an operation on a path, they keep the same one. */
  lemma SameWinner(prio: Priorities, ps: seq<Plugin>, qs: seq<Plugin>, request: Request, k: string, i: nat, j: nat)
    requires multiset(ps) == multiset(qs) && StrictlyRanked(prio, ps) && StrictlyRanked(prio, qs)
    requires FirstBest(prio, Collected(ps, request), k, i) && FirstBest(prio, Collected(qs, request), k, j)
    ensures Collected(ps, request)[i] == Collected(qs, request)[j]
  {
    CollectedPermuted(ps, qs, request);
    SameRank(prio, ps, Collected(ps, request), Collected(qs, request), request, k, i, j);
    var n := WinnerOfPlugin(prio, ps, request, k, i);
    var m := WinnerOfPlugin(prio, qs, request, k, j);
    assert ps[n] in multiset(qs);
    var l :| 0 <= l < |qs| && qs[l] == ps[n];
    assert l == m;
  }

  lemma {:induction false} RankedPermuted(prio: Priorities, ps: seq<Plugin>, qs: seq<Plugin>)
    requires multiset(ps) == multiset(qs) && StrictlyRanked(prio, ps)
    ensures StrictlyRanked(prio, qs)
  {
    forall i, k | 0 <= i < k < |qs|
      ensures Outranks(prio, qs[i].name, qs[k].name) || Outranks(prio, qs[k].name, qs[i].name)
    {
      PositionsContained(qs, i, k);
      var m, n := TwoPositions(ps, qs[i], qs[k]);
      assert m < n || n < m;
    }
  }

  /** With plugins ranked strictly, permuting the plugin list leaves the kept operations unchanged. */
  lemma PluginOrderIrrelevant(prio: Priorities, ps: seq<Plugin>, qs: seq<Plugin>, request: Request)
    requires multiset(ps) == multiset(qs) && StrictlyRanked(prio, ps)
    ensures var s, t := Settled(prio, Collected(ps, request)), Settled(prio, Collected(qs, request));
            && (s.Ok? <==> t.Ok?)
            && (s.Ok? ==> s.value.kept == t.value.kept)
  {
    var a, b := Collected(ps, request), Collected(qs, request);
    CollectedPermuted(ps, qs, request);
    RankedPermuted(prio, ps, qs);
    SanitizeFailsIff(prio, a);
    SanitizeFailsIff(prio, b);
    FailurePermuted(a, b);
    FailurePermuted(b, a);
    if Settled(prio, a).Ok? {
      var s, t := Settled(prio, a).value.kept, Settled(prio, b).value.kept;
      forall k: string
        ensures k in s <==> k in t
        ensures k in s ==> s[k] == t[k]
      {
        SameKept(prio, ps, qs, request, k);
      }
    }
  }

  lemma SameKept(prio: Priorities, ps: seq<Plugin>, qs: seq<Plugin>, request: Request, k: string)
    requires multiset(ps) == multiset(qs) && StrictlyRanked(prio, ps) && StrictlyRanked(prio, qs)
    requires Settled(prio, Collected(ps, request)).Ok? && Settled(prio, Collected(qs, request)).Ok?
    ensures var s := Settled(prio, Collected(ps, request)).value.kept;
            var t := Settled(prio, Collected(qs, request)).value.kept;
            (k in s <==> k in t) && (k in s ==> s[k] == t[k])
  {
    var a, b := Collected(ps, request), Collected(qs, request);
    CollectedPermuted(ps, qs, request);
    KeptIsFirstBest(prio, a, k);
    KeptIsFirstBest(prio, b, k);
    if i :| At(a, k, i) {
      assert a[i] in multiset(b);
      var j :| 0 <= j < |b| && b[j] == a[i];
      assert At(b, k, j);
    }
    if j :| At(b, k, j) {
      assert b[j] in multiset(a);
      var i :| 0 <= i < |a| && a[i] == b[j];
      assert At(a, k, i);
    }
    if k in Settled(prio, a).value.kept {
      var i: nat :| FirstBest(prio, a, k, i) && Settled(prio, a).value.kept[k] == a[i];
      var j: nat :| FirstBest(prio, b, k, j) && Settled(prio, b).value.kept[k] == b[j];
      SameWinner(prio, ps, qs, request, k, i, j);
    }
  }

  /**
   * The whole pipeline: whatever the order of the plugin list and whatever order each run emits its
   * operations in, applying the two patches gives the same outcome.
   */
  lemma PipelineDeterministic(prio: Priorities, ps: seq<Plugin>, qs: seq<Plugin>, request: Request, resource: Object,
                              patch: seq<Operation>, other: seq<Operation>)
    requires multiset(ps) == multiset(qs) && StrictlyRanked(prio, ps)
    requires var s, t := Settled(prio, Collected(ps, request)), Settled(prio, Collected(qs, request));
             s.Ok? && Emits(patch, s.value.kept) && (t.Ok? ==> Emits(other, t.value.kept))
    requires PairwiseIndependent(patch) && AllSafe(Obj(resource), patch)
    ensures Applier.Apply(resource, patch) == Applier.Apply(resource, other)
  {
    PluginOrderIrrelevant(prio, ps, qs, request);
    Applier.AnyOrderApplies(resource, patch, other);
  }
}
