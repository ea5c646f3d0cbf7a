/** Running the plugins on an object and resolving conflicts between their patches (transform/runner.go). */
module Runner {
  import opened Wrappers
  import opened Json
  import opened Patch
  import opened Compare

  /** Plugin priorities; a lower number is a higher priority. */
  type Priorities = map<string, int>

  datatype PluginOperation = PluginOperation(plugin: string, op: Operation)

  datatype Response = Response(isWhiteOut: bool, patches: seq<Operation>, newResources: seq<Object>)

  datatype Request = Request(resource: Object, extras: map<string, string>)

  datatype Plugin = Plugin(name: string, run: Request -> Result<Response>)

  datatype RunnerResponse = RunnerResponse(transform: seq<Operation>, haveWhiteOut: bool,
                                           ignored: seq<PluginOperation>, newResources: seq<Object>)

  datatype RunError = NoError | PluginFailed(name: string) | SanitizeFailed

  // ----- conflicts -----

  /** `a` has a strictly higher priority than `b`; plugins without a priority come last. */
  predicate Outranks(prio: Priorities, a: string, b: string)
  {
    a in prio && (b !in prio || prio[a] < prio[b])
  }

  /** Kept operation of each path, operations that lost a conflict, operations that were repeats. */
  datatype Tally = Tally(kept: map<string, PluginOperation>, ignored: seq<PluginOperation>,
                         repeats: seq<PluginOperation>)

  function Settle(prio: Priorities, t: Tally, o: PluginOperation): Result<Tally>
  {
    if !o.op.path.Present? then Err
    else if o.op.path.v !in t.kept then Ok(t.(kept := t.kept[o.op.path.v := o]))
    else
      var found := t.kept[o.op.path.v];
      if o.op.value.Malformed? || found.op.value.Malformed? then Err
      else
        var wins := Outranks(prio, o.plugin, found.plugin);
        var loser := if wins then found else o;
        var kept := if wins then t.kept[o.op.path.v := o] else t.kept;
        if EqualOperation(found.op, o.op)
        then Ok(Tally(kept, t.ignored, t.repeats + [loser]))
        else Ok(Tally(kept, t.ignored + [loser], t.repeats))
  }

  /** The outcome of settling the operations one after the other. */
  function Settled(prio: Priorities, ops: seq<PluginOperation>): Result<Tally>
  {
    if ops == [] then Ok(Tally(map[], [], []))
    else
      var before :- Settled(prio, ops[..|ops| - 1]);
      Settle(prio, before, ops[|ops| - 1])
  }

  predicate KeyedByPath(kept: map<string, PluginOperation>)
  {
    forall k <- kept :: kept[k].op.path == Present(k)
  }

  lemma {:induction false} SettledKeyed(prio: Priorities, ops: seq<PluginOperation>)
    ensures Settled(prio, ops).Ok? ==> KeyedByPath(Settled(prio, ops).value.kept)
  {
    if ops != [] {
      SettledKeyed(prio, ops[..|ops| - 1]);
    }
  }

  /** `patch` lists the kept operations, each once, in whatever order. */
  ghost predicate Emits(patch: seq<Operation>, kept: map<string, PluginOperation>)
  {
    multiset(patch) == multiset(OpsOf(kept, kept.Keys))
  }

  ghost function OpsOf(kept: map<string, PluginOperation>, keys: set<string>): set<Operation>
    requires keys <= kept.Keys
  {
    set k <- keys :: kept[k].op
  }

  lemma OpsOfGrows(kept: map<string, PluginOperation>, keys: set<string>, k: string)
    requires KeyedByPath(kept) && keys <= kept.Keys && k in kept && k !in keys
    ensures kept[k].op !in OpsOf(kept, keys)
    ensures OpsOf(kept, keys + {k}) == OpsOf(kept, keys) + {kept[k].op}
  {
  }

  lemma SettledPrefix(prio: Priorities, ops: seq<PluginOperation>, n: nat)
    requires n < |ops|
    ensures Settled(prio, ops[..n + 1]) ==
            match Settled(prio, ops[..n]) case Err => Err case Ok(t) => Settle(prio, t, ops[n])
  {
    assert ops[..n + 1][..n] == ops[..n];
  }

  lemma {:induction false} SettledFails(prio: Priorities, ops: seq<PluginOperation>, n: nat)
    requires n <= |ops| && Settled(prio, ops[..n]).Err?
    ensures Settled(prio, ops).Err?
    decreases |ops| - n
  {
    if n < |ops| {
      SettledPrefix(prio, ops, n);
      SettledFails(prio, ops, n + 1);
    } else {
      assert ops[..n] == ops;
    }
  }

  // ----- the kept operation of a path is the earliest of the best rank -----

  predicate At(ops: seq<PluginOperation>, k: string, i: int)
  {
    0 <= i < |ops| && ops[i].op.path == Present(k)
  }

  /** No higher priority number; a plugin without a number comes after all that have one. */
  predicate NoWorse(prio: Priorities, a: string, b: string)
  {
    b in prio ==> a in prio && prio[a] <= prio[b]
  }

  predicate Better(prio: Priorities, a: string, b: string)
  {
    NoWorse(prio, a, b) && !NoWorse(prio, b, a)
  }

  /** Number `i` has the lowest priority number on the path, and no earlier operation has it too. */
  ghost predicate FirstBest(prio: Priorities, ops: seq<PluginOperation>, k: string, i: nat)
  {
    && At(ops, k, i)
    && forall j :: At(ops, k, j) ==>
         && NoWorse(prio, ops[i].plugin, ops[j].plugin)
         && (j < i ==> Better(prio, ops[i].plugin, ops[j].plugin))
  }

  lemma FirstBestSnoc(prio: Priorities, ops: seq<PluginOperation>, k: string, i: nat)
    requires ops != [] && FirstBest(prio, ops[..|ops| - 1], k, i)
    ensures var o := ops[|ops| - 1];
            if o.op.path == Present(k) && Outranks(prio, o.plugin, ops[i].plugin)
            then FirstBest(prio, ops, k, |ops| - 1)
            else FirstBest(prio, ops, k, i)
  {
    var init := ops[..|ops| - 1];
    assert forall j :: At(init, k, j) <==> At(ops, k, j) && j < |ops| - 1;
    assert forall j :: 0 <= j < |ops| - 1 ==> init[j] == ops[j];
  }

  /**
   * Stable argmin: exactly the paths that occur are kept, and each keeps its earliest operation among
   * those of the lowest priority number.
   */
  lemma {:induction false} KeptIsFirstBest(prio: Priorities, ops: seq<PluginOperation>, k: string)
    requires Settled(prio, ops).Ok?
    ensures var kept := Settled(prio, ops).value.kept;
            && (k in kept <==> exists i :: At(ops, k, i))
            && (k in kept ==> exists i: nat :: FirstBest(prio, ops, k, i) && kept[k] == ops[i])
    decreases |ops|
  {
    if ops != [] {
      var n := |ops| - 1;
      var init, o := ops[..n], ops[n];
      KeptIsFirstBest(prio, init, k);
      var before := Settled(prio, init).value.kept;
      assert forall j :: At(init, k, j) <==> At(ops, k, j) && j < n;
      if k in before {
        var i: nat :| FirstBest(prio, init, k, i) && before[k] == init[i];
        FirstBestSnoc(prio, ops, k, i);
        assert At(ops, k, i);
      } else if o.op.path == Present(k) {
        assert FirstBest(prio, ops, k, n);
      }
    }
  }

  /** Exactly the paths that occur are kept, each with its first operation of the lowest priority number. */
  ghost predicate KeepsFirstBest(prio: Priorities, ops: seq<PluginOperation>, kept: map<string, PluginOperation>)
  {
    forall k: string ::
      && (k in kept <==> exists i :: At(ops, k, i))
      && (k in kept ==> exists i: nat :: FirstBest(prio, ops, k, i) && kept[k] == ops[i])
  }

  lemma SettledKeepsFirstBest(prio: Priorities, ops: seq<PluginOperation>)
    requires Settled(prio, ops).Ok?
    ensures KeepsFirstBest(prio, ops, Settled(prio, ops).value.kept)
  {
    forall k: string
      ensures k in Settled(prio, ops).value.kept <==> exists i :: At(ops, k, i)
      ensures k in Settled(prio, ops).value.kept ==>
        exists i: nat :: FirstBest(prio, ops, k, i) && Settled(prio, ops).value.kept[k] == ops[i]
    {
      KeptIsFirstBest(prio, ops, k);
    }
  }

  method SanitizePatches(prio: Priorities, ops: seq<PluginOperation>)
    returns (r: Result<(seq<Operation>, seq<PluginOperation>)>)
    ensures r.Ok? <==> Settled(prio, ops).Ok?
    ensures r.Ok? ==> Emits(r.value.0, Settled(prio, ops).value.kept) && r.value.1 == Settled(prio, ops).value.ignored
    ensures r.Ok? ==> KeepsFirstBest(prio, ops, Settled(prio, ops).value.kept)
  {
    var patchMap: map<string, PluginOperation> := map[];
    var ignored: seq<PluginOperation> := [];
    ghost var repeats: seq<PluginOperation> := [];
    for n := 0 to |ops|
      invariant Settled(prio, ops[..n]) == Ok(Tally(patchMap, ignored, repeats))
    {
      var o := ops[n];
      SettledPrefix(prio, ops, n);
      if !o.op.path.Present? {
        SettledFails(prio, ops, n + 1);
        return Err;
      }
      var key := o.op.path.v;
      if key in patchMap {
        var found := patchMap[key];
        var replace := o.plugin in prio && (found.plugin !in prio || prio[o.plugin] < prio[found.plugin]);
        var equal := EqualOperation(found.op, o.op);
        if o.op.value.Malformed? || found.op.value.Malformed? {
          SettledFails(prio, ops, n + 1);
          return Err;
        }
        if replace {
          patchMap := patchMap[key := o];
        }
        if !equal {
          ignored := ignored + [if replace then found else o];
        } else {
          repeats := repeats + [if replace then found else o];
        }
      } else {
        patchMap := patchMap[key := o];
      }
    }
    assert ops[..|ops|] == ops;
    SettledKeyed(prio, ops);
    SettledKeepsFirstBest(prio, ops);
    var patch := Emit(patchMap);
    return Ok((patch, ignored));
  }

  /** Ranging over a Go map: every entry once, in an arbitrary order. */
  method Emit(patchMap: map<string, PluginOperation>) returns (patch: seq<Operation>)
    requires KeyedByPath(patchMap)
    ensures Emits(patch, patchMap)
  {
    patch := [];
    var rest := patchMap.Keys;
    while rest != {}
      invariant rest <= patchMap.Keys
      invariant multiset(patch) == multiset(OpsOf(patchMap, patchMap.Keys - rest))
    {
      var k :| k in rest;
      OpsOfGrows(patchMap, patchMap.Keys - rest, k);
      assert patchMap.Keys - (rest - {k}) == patchMap.Keys - rest + {k};
      patch := patch + [patchMap[k].op];
      rest := rest - {k};
    }
    assert patchMap.Keys - {} == patchMap.Keys;
  }

  // ----- the run -----

  function PluginOps(p: Plugin, request: Request): seq<PluginOperation>
  {
    match p.run(request)
    case Err => []
    case Ok(resp) => PluginOperationsFromPatch(p.name, resp.patches)
  }

  function PluginOperationsFromPatch(name: string, patch: seq<Operation>): (r: seq<PluginOperation>)
    ensures |r| == |patch| && forall i :: 0 <= i < |r| ==> r[i] == PluginOperation(name, patch[i])
  {
    seq(|patch|, i requires 0 <= i < |patch| => PluginOperation(name, patch[i]))
  }

  /** All operations, in the order of the plugin list. */
  function Collected(plugins: seq<Plugin>, request: Request): seq<PluginOperation>
  {
    if plugins == [] then [] else PluginOps(plugins[0], request) + Collected(plugins[1..], request)
  }

  function ResourcesOf(p: Plugin, request: Request): seq<Object>
  {
    match p.run(request)
    case Err => []
    case Ok(resp) => resp.newResources
  }

  function NewResources(plugins: seq<Plugin>, request: Request): seq<Object>
  {
    if plugins == [] then []
    else
      ResourcesOf(plugins[0], request) + NewResources(plugins[1..], request)
  }

  predicate Fails(p: Plugin, request: Request)
  {
    p.run(request).Err?
  }

  predicate WhitesOut(p: Plugin, request: Request)
  {
    p.run(request).Ok? && p.run(request).value.isWhiteOut
  }

  predicate FirstFailure(plugins: seq<Plugin>, request: Request, i: nat)
  {
    i < |plugins| && Fails(plugins[i], request) && forall k :: 0 <= k < i ==> !Fails(plugins[k], request)
  }

  lemma {:induction false} CollectedSnoc(plugins: seq<Plugin>, request: Request, n: nat)
    requires n < |plugins|
    ensures Collected(plugins[..n + 1], request) == Collected(plugins[..n], request) + PluginOps(plugins[n], request)
    ensures NewResources(plugins[..n + 1], request) ==
            NewResources(plugins[..n], request) + ResourcesOf(plugins[n], request)
    decreases n
  {
    if n == 0 {
      assert plugins[..1][1..] == [] && plugins[..0] == [];
    } else {
      CollectedSnoc(plugins[1..], request, n - 1);
      FirstOf(plugins, n);
      FirstOf(plugins, n + 1);
      Regrouped(PluginOps(plugins[0], request), Collected(plugins[1..][..n - 1], request),
                PluginOps(plugins[n], request));
      Regrouped(ResourcesOf(plugins[0], request), NewResources(plugins[1..][..n - 1], request),
                ResourcesOf(plugins[n], request));
    }
  }

  lemma FirstOf<T>(s: seq<T>, n: nat)
    requires 0 < n <= |s|
    ensures s[..n][0] == s[0] && s[..n][1..] == s[1..][..n - 1]
  {
  }

  lemma Regrouped<T>(a: seq<T>, b: seq<T>, c: seq<T>)
    ensures a + (b + c) == a + b + c
  {
  }

  /** Among the first `n` plugins none fails, or the first one that fails is reported first. */
  ghost predicate Reported(plugins: seq<Plugin>, request: Request, n: nat, errs: seq<string>)
    requires n <= |plugins|
  {
    if errs == [] then forall k :: 0 <= k < n ==> !Fails(plugins[k], request)
    else exists i: nat :: FirstFailure(plugins, request, i) && plugins[i].name == errs[0]
  }

  lemma ReportedNext(plugins: seq<Plugin>, request: Request, n: nat, errs: seq<string>)
    requires n < |plugins| && Reported(plugins, request, n, errs)
    ensures Reported(plugins, request, n + 1, if Fails(plugins[n], request) then errs + [plugins[n].name] else errs)
  {
    if errs == [] && Fails(plugins[n], request) {
      assert FirstFailure(plugins, request, n);
    }
  }

  ghost predicate AnyWhitesOut(plugins: seq<Plugin>, request: Request, n: nat)
    requires n <= |plugins|
  {
    exists k :: 0 <= k < n && WhitesOut(plugins[k], request)
  }

  lemma WhitesOutNext(plugins: seq<Plugin>, request: Request, n: nat)
    requires n < |plugins|
    ensures AnyWhitesOut(plugins, request, n + 1) <==>
            AnyWhitesOut(plugins, request, n) || WhitesOut(plugins[n], request)
  {
  }

  /** The first loop of `Run`.  Every plugin sees the same object, because each gets its own copy. */
  method RunPlugins(request: Request, plugins: seq<Plugin>)
    returns (haveWhiteOut: bool, patches: seq<PluginOperation>, newResources: seq<Object>, errs: seq<string>)
    ensures patches == Collected(plugins, request)
    ensures newResources == NewResources(plugins, request)
    ensures haveWhiteOut <==> exists k :: 0 <= k < |plugins| && WhitesOut(plugins[k], request)
    ensures errs == [] ==> forall k :: 0 <= k < |plugins| ==> !Fails(plugins[k], request)
    ensures errs != [] ==> exists i: nat :: FirstFailure(plugins, request, i) && plugins[i].name == errs[0]
  {
    haveWhiteOut, patches, newResources, errs := false, [], [], [];
    for n := 0 to |plugins|
      invariant patches == Collected(plugins[..n], request)
      invariant newResources == NewResources(plugins[..n], request)
      invariant haveWhiteOut <==> AnyWhitesOut(plugins, request, n)
      invariant Reported(plugins, request, n, errs)
    {
      CollectedSnoc(plugins, request, n);
      ReportedNext(plugins, request, n, errs);
      WhitesOutNext(plugins, request, n);
      assert patches + [] == patches && newResources + [] == newResources;
      match plugins[n].run(request) {
        case Err =>
          errs := errs + [plugins[n].name];
        case Ok(resp) =>
          if resp.isWhiteOut {
            haveWhiteOut := true;
          }
          if |resp.patches| > 0 {
            patches := patches + PluginOperationsFromPatch(plugins[n].name, resp.patches);
          }
          if |resp.newResources| > 0 {
            newResources := newResources + resp.newResources;
          }
      }
    }
    assert plugins[..|plugins|] == plugins;
  }

  /** `Runner.Run`: a failure of a plugin comes before a whiteout, and a whiteout before the patches. */
  method Run(prio: Priorities, extras: map<string, string>, resource: Object, plugins: seq<Plugin>)
    returns (response: RunnerResponse, error: RunError)
    ensures var request := Request(resource, extras);
            && response.newResources == NewResources(plugins, request)
            && (response.haveWhiteOut <==> exists k :: 0 <= k < |plugins| && WhitesOut(plugins[k], request))
            && (error.PluginFailed? <==> exists k :: 0 <= k < |plugins| && Fails(plugins[k], request))
            && (error.PluginFailed? ==>
                  exists i: nat :: FirstFailure(plugins, request, i) && plugins[i].name == error.name)
            && (error.PluginFailed? || response.haveWhiteOut ==> response.transform == [] && response.ignored == [])
            && (!error.PluginFailed? && response.haveWhiteOut ==> error == NoError)
            && (!error.PluginFailed? && !response.haveWhiteOut ==>
                  match Settled(prio, Collected(plugins, request))
                  case Err => error == SanitizeFailed && response.transform == [] && response.ignored == []
                  case Ok(t) =>
                    && error == NoError && Emits(response.transform, t.kept) && response.ignored == t.ignored
                    && KeepsFirstBest(prio, Collected(plugins, request), t.kept))
  {
    var haveWhiteOut, patches, newResources, errs := RunPlugins(Request(resource, extras), plugins);
    response := RunnerResponse([], haveWhiteOut, [], newResources);
    if |errs| > 0 {
      return response, PluginFailed(errs[0]);
    }
    if haveWhiteOut {
      return response, NoError;
    }
    if |patches| == 0 {
      SettledKeepsFirstBest(prio, patches);
    } else {
      var r := SanitizePatches(prio, patches);
      if r.Err? {
        return response, SanitizeFailed;
      }
      response := response.(transform := r.value.0, ignored := r.value.1);
    }
    return response, NoError;
  }
}
