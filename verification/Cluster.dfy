/** The passes over a cluster's objects (state_transfer/quiesce.go). */
module Cluster {
  import opened Wrappers
  import opened Workloads
  import Runs = QuiesceRuns
  import DaemonRuns

  /** The objects of one API.  Reading them may fail, and so may every single write. */
  class Store<V(!new)> {
    var objects: map<string, V>

    constructor (initial: map<string, V>)
      ensures objects == initial
    {
      objects := initial;
    }

    /** `Update`: the object is replaced as a whole, or nothing happens and an error is reported. */
    method Update(name: string, v: V) returns (ok: bool)
      modifies this
      ensures objects == if ok then old(objects)[name := v] else old(objects)
    {
      ok := *;
      if ok {
        objects := objects[name := v];
      }
    }

    /** One of the loops: list the objects, visit those selected, and stop at the first error. */
    method Pass(select: V -> bool, step: V -> Visit<V>) returns (ok: bool)
      modifies this
      ensures exists done: set<string> :: Passed(old(objects), objects, select, step, done)
      ensures ok ==> Completed(old(objects), objects, select, step)
    {
      ghost var before := objects;
      ghost var done: set<string> := {};
      var listed: bool := *;
      if !listed {
        assert Passed(before, objects, select, step, done);
        return false;
      }
      var rest := set x | x in objects && select(objects[x]);
      while rest != {}
        invariant forall x <- rest :: x in before && select(before[x]) && x !in done
        invariant forall x <- before :: select(before[x]) ==> x in rest || (x in done && step(before[x]) != Fail)
        invariant Passed(before, objects, select, step, done)
      {
        var x :| x in rest;
        rest := rest - {x};
        match step(objects[x]) {
          case Skip =>
          case Fail =>
            return false;
          case Write(v) =>
            var written := Update(x, v);
            if !written {
              return false;
            }
        }
        done := done + {x};
      }
      return true;
    }
  }

  function All<V>(): V -> bool
  {
    (v: V) => true
  }

  function Quiescing(codec: Codec): DaemonSet -> Visit<DaemonSet>
  {
    (d: DaemonSet) => QuiesceDaemon(codec, d)
  }

  function Unquiescing(codec: Codec): DaemonSet -> Visit<DaemonSet>
  {
    (d: DaemonSet) => UnquiesceDaemon(codec, d)
  }

  /** The selected objects in `done` have been visited, all others are as before. */
  ghost predicate Passed<V(!new)>(before: map<string, V>, after: map<string, V>, select: V -> bool, step: V -> Visit<V>,
                                  done: set<string>)
  {
    && after.Keys == before.Keys
    && forall x <- before :: after[x] == if x in done && select(before[x]) then Visited(step, before[x]) else before[x]
  }

  /** All selected objects have been visited, and none of them made the pass give up. */
  ghost predicate Completed<V(!new)>(before: map<string, V>, after: map<string, V>, select: V -> bool,
                                     step: V -> Visit<V>)
  {
    && Passed(before, after, select, step, before.Keys)
    && forall x <- before :: select(before[x]) ==> step(before[x]) != Fail
  }

  /** Completing for the kinds in `kinds`, and nothing else so far. */
  ghost predicate KindsDone(before: map<string, Workload>, after: map<string, Workload>, kinds: set<Kind>,
                            step: Workload -> Visit<Workload>)
  {
    Completed(before, after, (w: Workload) => w.kind in kinds, step)
  }

  /** A step never changes the kind of an object. */
  ghost predicate KeepsKind(step: Workload -> Visit<Workload>)
  {
    forall w: Workload :: Visited(step, w).kind == w.kind
  }

  /** A step passes over the replica sets that something else owns. */
  ghost predicate LeavesOwned(step: Workload -> Visit<Workload>)
  {
    forall w: Workload :: OwnedReplicaSet(w) ==> Visited(step, w) == w
  }

  /** No object comes or goes, and owned replica sets are as before. */
  ghost predicate OwnedAsBefore(before: map<string, Workload>, after: map<string, Workload>)
  {
    after.Keys == before.Keys && forall x <- before :: OwnedReplicaSet(before[x]) ==> after[x] == before[x]
  }

  lemma NextKind(before: map<string, Workload>, middle: map<string, Workload>, after: map<string, Workload>,
                 kinds: set<Kind>, kind: Kind, step: Workload -> Visit<Workload>)
    requires KeepsKind(step) && kind !in kinds
    requires KindsDone(before, middle, kinds, step)
    requires Completed(middle, after, (w: Workload) => w.kind == kind, step)
    ensures KindsDone(before, after, kinds + {kind}, step)
  {
  }

  /** What the world theorem calls recoverable, whatever it is that users want. */
  ghost predicate StaysRecoverable(before: map<string, Workload>, after: map<string, Workload>)
  {
    forall wanted: map<string, Wanted> ::
      Runs.Recoverable(Runs.World(before, wanted)) ==> Runs.Recoverable(Runs.World(after, wanted))
  }

  lemma PassStaysRecoverable(before: map<string, Workload>, after: map<string, Workload>, kind: Kind,
                             step: Workload -> Visit<Workload>, done: set<string>)
    requires Passed(before, after, (w: Workload) => w.kind == kind, step, done) && Runs.KeepsSound(step)
    ensures StaysRecoverable(before, after)
  {
    assert after == Runs.AfterPass(before, kind, done, step);
    forall wanted: map<string, Wanted> | Runs.Recoverable(Runs.World(before, wanted))
      ensures Runs.Recoverable(Runs.World(after, wanted))
    {
      Runs.PassKeepsRecoverable(Runs.World(before, wanted), kind, done, step);
    }
  }

  /** The four passes over objects with a replica count, in the order of the source, each after the other. */
  method PassWorkloads(store: Store<Workload>, step: Workload -> Visit<Workload>) returns (ok: bool)
    requires KeepsKind(step) && Runs.KeepsSound(step) && LeavesOwned(step)
    modifies store
    ensures StaysRecoverable(old(store.objects), store.objects)
    ensures OwnedAsBefore(old(store.objects), store.objects)
    ensures ok ==> Completed(old(store.objects), store.objects, All(), step)
  {
    ghost var before := store.objects;
    assert KindsDone(before, before, {}, step);
    ok := PassKind(store, DeploymentConfig, step, before, {});
    if !ok {
      return;
    }
    ok := PassKind(store, Deployment, step, before, {DeploymentConfig});
    if !ok {
      return;
    }
    ok := PassKind(store, StatefulSet, step, before, {DeploymentConfig, Deployment});
    if !ok {
      return;
    }
    ok := PassKind(store, ReplicaSet, step, before, {DeploymentConfig, Deployment, StatefulSet});
    if ok {
      AllKinds(before, store.objects, step);
    }
  }

  lemma AllKinds(before: map<string, Workload>, after: map<string, Workload>, step: Workload -> Visit<Workload>)
    requires KindsDone(before, after, {DeploymentConfig, Deployment, StatefulSet} + {ReplicaSet}, step)
    ensures Completed(before, after, All(), step)
  {
    forall w: Workload ensures w.kind in {DeploymentConfig, Deployment, StatefulSet} + {ReplicaSet} {
      match w.kind
      case DeploymentConfig =>
      case Deployment =>
      case StatefulSet =>
      case ReplicaSet =>
    }
  }

  /** The pass over one kind; `kinds` are the kinds already done since `start`. */
  method PassKind(store: Store<Workload>, kind: Kind, step: Workload -> Visit<Workload>,
                  ghost start: map<string, Workload>, ghost kinds: set<Kind>) returns (ok: bool)
    requires KeepsKind(step) && Runs.KeepsSound(step) && LeavesOwned(step) && kind !in kinds
    requires KindsDone(start, store.objects, kinds, step) && StaysRecoverable(start, store.objects)
    requires OwnedAsBefore(start, store.objects)
    modifies store
    ensures StaysRecoverable(start, store.objects) && OwnedAsBefore(start, store.objects)
    ensures ok ==> KindsDone(start, store.objects, kinds + {kind}, step)
  {
    ghost var middle := store.objects;
    ok := store.Pass((w: Workload) => w.kind == kind, step);
    ghost var done: set<string> :| Passed(middle, store.objects, (w: Workload) => w.kind == kind, step, done);
    PassStaysRecoverable(middle, store.objects, kind, step, done);
    if ok {
      NextKind(start, middle, store.objects, kinds, kind, step);
    }
  }

  // ----- waiting for the pods -----

  datatype Phase = PodPending | PodRunning | PodSucceeded | PodFailed | PodUnknown

  datatype Pod = Pod(phase: Phase, owners: seq<string>)

  const SCALED_KINDS := {"ReplicationController", "StatefulSet", "ReplicaSet", "DaemonSet", "Job"}
  const SKIPPED_PHASES := {PodSucceeded, PodFailed, PodUnknown}

  /** The pod is pending or running for something that was scaled down. */
  predicate Lingers(pod: Pod)
  {
    && (pod.phase == PodPending || pod.phase == PodRunning)
    && exists kind <- pod.owners :: IsScaledDown(kind)
  }

  predicate IsScaledDown(kind: string)
  {
    || kind == "ReplicationController" || kind == "ReplicaSet" || kind == "StatefulSet"
    || kind == "DaemonSet" || kind == "Job"
  }

  /** What the client lists, unless it fails to. */
  type Listing = Option<seq<Pod>>

  predicate AllGone(pods: seq<Pod>)
  {
    forall pod <- pods :: !Lingers(pod)
  }

  /** `ensureQuiescedPodsTerminated`. */
  method EnsureQuiescedPodsTerminated(listing: Listing) returns (r: Result<bool>)
    ensures r.Err? <==> listing.None?
    ensures r.Ok? ==> (r.value <==> AllGone(listing.value))
  {
    if listing.None? {
      return Err;
    }
    var pods := listing.value;
    for n := 0 to |pods|
      invariant forall k :: 0 <= k < n ==> !Lingers(pods[k])
    {
      var pod := pods[n];
      if pod.phase in SKIPPED_PHASES {
        continue;
      }
      for k := 0 to |pod.owners|
        invariant forall i :: 0 <= i < k ==> !IsScaledDown(pod.owners[i])
      {
        if pod.owners[k] in SCALED_KINDS {
          assert IsScaledDown(pod.owners[k]);
          assert Lingers(pod) && pod in pods;
          return Ok(false);
        }
      }
    }
    return Ok(true);
  }

  datatype Progress = Done | Failed | Waiting

  /** The listing shows pods that still run. */
  predicate ShowsPods(listing: Listing)
  {
    listing.Some? && !AllGone(listing.value)
  }

  /** The loop that polls, for as many rounds as there are listings; it ends at the first that shows no such pods. */
  method AwaitPods(listings: seq<Listing>) returns (progress: Progress)
    ensures progress == Waiting <==> forall l <- listings :: ShowsPods(l)
    ensures progress != Waiting ==> exists n: nat :: EndsAt(listings, n) && (progress == Done <==> listings[n].Some?)
  {
    for n := 0 to |listings|
      invariant forall k :: 0 <= k < n ==> ShowsPods(listings[k])
    {
      var quiesced := EnsureQuiescedPodsTerminated(listings[n]);
      if quiesced.Err? || quiesced.value {
        assert EndsAt(listings, n) && listings[n] in listings;
        return if quiesced.Ok? then Done else Failed;
      }
    }
    return Waiting;
  }

  /** Number `n` is the first listing that fails or shows no pods that still run. */
  predicate EndsAt(listings: seq<Listing>, n: nat)
  {
    n < |listings| && !ShowsPods(listings[n]) && forall k :: 0 <= k < n ==> ShowsPods(listings[k])
  }

  /** The objects of a namespace that quiescing concerns. */
  class Namespace {
    const workloads: Store<Workload>
    const daemons: Store<DaemonSet>
    const jobs: Store<Job>
    const cronJobs: Store<CronJob>
    const codec: Codec

    constructor (workloads: Store<Workload>, daemons: Store<DaemonSet>, jobs: Store<Job>, cronJobs: Store<CronJob>,
                 codec: Codec)
      requires var w: object, d: object, j: object, c: object := workloads, daemons, jobs, cronJobs;
               w != d && w != j && w != c && d != j && d != c && j != c
      ensures Valid()
      ensures this.workloads == workloads && this.daemons == daemons && this.jobs == jobs && this.cronJobs == cronJobs
      ensures this.codec == codec
    {
      this.workloads, this.daemons, this.jobs, this.cronJobs := workloads, daemons, jobs, cronJobs;
      this.codec := codec;
    }

    /** The four stores are different objects. */
    ghost predicate Valid()
    {
      var w: object, d: object, j: object, c: object := workloads, daemons, jobs, cronJobs;
      w != d && w != j && w != c && d != j && d != c && j != c
    }

    /**
     * `QuiesceApplications`.  However far it gets, everything stays recoverable.  When it is done, or
     * still waiting after the given listings, everything it manages has stopped; when it is done, the
     * last listing it looked at shows no pod that still runs for something that was scaled down.
     */
    method QuiesceApplications(listings: seq<Listing>) returns (progress: Progress)
      requires Valid()
      modifies workloads, daemons, jobs, cronJobs
      ensures StaysRecoverable(old(workloads.objects), workloads.objects)
      ensures OwnedAsBefore(old(workloads.objects), workloads.objects)
      ensures DaemonsStayRecoverable(codec, old(daemons.objects), daemons.objects)
      ensures progress != Failed ==>
        && AllStopped(workloads.objects) && AllUnschedulable(daemons.objects)
        && AllIdle(jobs.objects) && AllSuspended(cronJobs.objects)
      ensures progress == Done ==> exists n: nat :: EndsAt(listings, n) && listings[n].Some?
      ensures progress == Waiting ==> forall l <- listings :: ShowsPods(l)
    {
      var ok := QuiesceObjects();
      if !ok {
        return Failed;
      }
      progress := AwaitPods(listings);
    }

    /** The passes of `QuiesceApplications`, in their order. */
    method QuiesceObjects() returns (ok: bool)
      requires Valid()
      modifies workloads, daemons, jobs, cronJobs
      ensures StaysRecoverable(old(workloads.objects), workloads.objects)
      ensures OwnedAsBefore(old(workloads.objects), workloads.objects)
      ensures DaemonsStayRecoverable(codec, old(daemons.objects), daemons.objects)
      ensures ok ==>
        && AllStopped(workloads.objects) && AllUnschedulable(daemons.objects)
        && AllIdle(jobs.objects) && AllSuspended(cronJobs.objects)
    {
      StepsQuiesce();
      ok := QuiesceCronJobs(cronJobs);
      if !ok {
        return;
      }
      ok := PassWorkloads(workloads, Quiesce);
      if !ok {
        return;
      }
      ghost var daemonsBefore := daemons.objects;
      ok := daemons.Pass(All(), Quiescing(codec));
      ghost var done: set<string> :| Passed(daemonsBefore, daemons.objects, All(), Quiescing(codec), done);
      QuiescePassRecoverable(codec, daemonsBefore, daemons.objects, done);
      if !ok {
        return;
      }
      ok := QuiesceJobs(jobs);
    }

    /**
     * `unQuiesceApplications`.  When it reports success, every object that was recoverable is restored:
     * workloads to the count and annotations that users want, daemon sets to their selectors.
     */
    method UnquiesceApplications() returns (ok: bool)
      requires Valid()
      modifies workloads, daemons, jobs, cronJobs
      ensures StaysRecoverable(old(workloads.objects), workloads.objects)
      ensures OwnedAsBefore(old(workloads.objects), workloads.objects)
      ensures DaemonsStayRecoverable(codec, old(daemons.objects), daemons.objects)
      ensures ok ==> forall wanted: map<string, Wanted> ::
        Runs.Recoverable(Runs.World(old(workloads.objects), wanted)) ==> AllRestored(workloads.objects, wanted)
      ensures ok ==> forall intents: map<string, DaemonRuns.Intent> ::
        DaemonRuns.Recoverable(codec, DaemonRuns.World(old(daemons.objects), intents)) ==>
          AllSelectorsBack(daemons.objects, intents)
      ensures ok ==> forall x <- cronJobs.objects :: SUSPEND !in cronJobs.objects[x].annotations
      ensures ok ==> forall x <- jobs.objects :: REPLICAS !in jobs.objects[x].annotations
    {
      StepsUnquiesce();
      ghost var before, daemonsBefore := workloads.objects, daemons.objects;
      ok := cronJobs.Pass(All(), UnquiesceCronJob);
      if !ok {
        return;
      }
      ok := PassWorkloads(workloads, Unquiesce);
      if !ok {
        return;
      }
      WorkloadsRestored(before, workloads.objects);
      ok := daemons.Pass(All(), Unquiescing(codec));
      ghost var done: set<string> :| Passed(daemonsBefore, daemons.objects, All(), Unquiescing(codec), done);
      UnquiescePassRecoverable(codec, daemonsBefore, daemons.objects, done);
      if !ok {
        return;
      }
      SelectorsBack(codec, daemonsBefore, daemons.objects);
      ok := jobs.Pass(All(), UnquiesceJob);
    }
  }

  /** Whatever users want of the daemon sets, as long as the encoding can be read back. */
  ghost predicate DaemonsStayRecoverable(codec: Codec, before: map<string, DaemonSet>, after: map<string, DaemonSet>)
  {
    Faithful(codec) ==> forall intents: map<string, DaemonRuns.Intent> ::
      DaemonRuns.Recoverable(codec, DaemonRuns.World(before, intents)) ==>
        DaemonRuns.Recoverable(codec, DaemonRuns.World(after, intents))
  }

  lemma QuiescePassRecoverable(codec: Codec, before: map<string, DaemonSet>, after: map<string, DaemonSet>,
                               done: set<string>)
    requires Passed(before, after, All(), Quiescing(codec), done)
    ensures DaemonsStayRecoverable(codec, before, after)
  {
    assert after == DaemonRuns.AfterQuiesce(codec, before, done);
    forall intents: map<string, DaemonRuns.Intent> |
      Faithful(codec) && DaemonRuns.Recoverable(codec, DaemonRuns.World(before, intents))
      ensures DaemonRuns.Recoverable(codec, DaemonRuns.World(after, intents))
    {
      DaemonRuns.QuiesceStep(codec, DaemonRuns.World(before, intents), done);
    }
  }

  lemma UnquiescePassRecoverable(codec: Codec, before: map<string, DaemonSet>, after: map<string, DaemonSet>,
                                 done: set<string>)
    requires Passed(before, after, All(), Unquiescing(codec), done)
    ensures DaemonsStayRecoverable(codec, before, after)
  {
    assert after == DaemonRuns.AfterUnquiesce(codec, before, done);
    forall intents: map<string, DaemonRuns.Intent> |
      Faithful(codec) && DaemonRuns.Recoverable(codec, DaemonRuns.World(before, intents))
      ensures DaemonRuns.Recoverable(codec, DaemonRuns.World(after, intents))
    {
      DaemonRuns.UnquiesceStep(codec, DaemonRuns.World(before, intents), done);
    }
  }

  ghost predicate AllStopped(objects: map<string, Workload>)
  {
    forall x <- objects :: !OwnedReplicaSet(objects[x]) ==> objects[x].replicas == 0
  }

  ghost predicate AllUnschedulable(daemons: map<string, DaemonSet>)
  {
    forall x <- daemons :: QUIESCE_KEY in daemons[x].selector
  }

  ghost predicate AllIdle(jobs: map<string, Job>)
  {
    forall x <- jobs :: jobs[x].parallelism == 0
  }

  ghost predicate AllSuspended(cronJobs: map<string, CronJob>)
  {
    forall x <- cronJobs :: Suspended(cronJobs[x])
  }

  method QuiesceCronJobs(store: Store<CronJob>) returns (ok: bool)
    modifies store
    ensures ok ==> AllSuspended(store.objects)
  {
    ok := store.Pass(All(), QuiesceCronJob);
  }

  method QuiesceJobs(store: Store<Job>) returns (ok: bool)
    modifies store
    ensures ok ==> AllIdle(store.objects)
  {
    ok := store.Pass(All(), QuiesceJob);
  }

  lemma StepsQuiesce()
    ensures KeepsKind(Quiesce) && Runs.KeepsSound(Quiesce) && LeavesOwned(Quiesce)
    ensures forall before, after :: Completed(before, after, All(), Quiesce) ==> AllStopped(after)
    ensures forall codec, before, after :: Completed(before, after, All(), Quiescing(codec)) ==> AllUnschedulable(after)
  {
    Runs.BothKeepSound();
  }

  lemma StepsUnquiesce()
    ensures KeepsKind(Unquiesce) && Runs.KeepsSound(Unquiesce) && LeavesOwned(Unquiesce)
  {
    Runs.BothKeepSound();
  }

  ghost predicate AllRestored(objects: map<string, Workload>, wanted: map<string, Wanted>)
  {
    && objects.Keys == wanted.Keys
    && forall x <- objects :: !OwnedReplicaSet(objects[x]) ==> Restored(objects[x], wanted[x])
  }

  ghost predicate AllSelectorsBack(daemons: map<string, DaemonSet>, intents: map<string, DaemonRuns.Intent>)
  {
    && daemons.Keys == intents.Keys
    && forall x <- daemons ::
         && daemons[x].selector == intents[x].want.selector
         && (!intents[x].edited ==> daemons[x] == intents[x].want)
  }

  lemma WorkloadsRestored(before: map<string, Workload>, after: map<string, Workload>)
    requires Completed(before, after, All(), Unquiesce)
    ensures forall wanted: map<string, Wanted> ::
      Runs.Recoverable(Runs.World(before, wanted)) ==> AllRestored(after, wanted)
  {
    forall wanted: map<string, Wanted> | Runs.Recoverable(Runs.World(before, wanted))
      ensures AllRestored(after, wanted)
    {
      Runs.RecoverableIsRestored(Runs.World(before, wanted));
      forall x | x in after && !OwnedReplicaSet(after[x]) ensures Restored(after[x], wanted[x]) {
        assert after[x] == Visited(Unquiesce, before[x]);
      }
    }
  }

  lemma SelectorsBack(codec: Codec, before: map<string, DaemonSet>, after: map<string, DaemonSet>)
    requires Completed(before, after, All(), Unquiescing(codec))
    ensures forall intents: map<string, DaemonRuns.Intent> ::
      DaemonRuns.Recoverable(codec, DaemonRuns.World(before, intents)) ==> AllSelectorsBack(after, intents)
  {
    forall intents: map<string, DaemonRuns.Intent> | DaemonRuns.Recoverable(codec, DaemonRuns.World(before, intents))
      ensures AllSelectorsBack(after, intents)
    {
      forall x | x in after
        ensures after[x].selector == intents[x].want.selector
        ensures !intents[x].edited ==> after[x] == intents[x].want
      {
        UnquiesceDaemonRestores(codec, before[x], intents[x].want, intents[x].edited);
      }
    }
  }
}
