/**
 * What quiescing and unquiescing do to one object (state_transfer/quiesce.go): the bodies of the loops
 * over the listed objects.
 */
module Workloads {
  import opened Wrappers
  import opened Strconv

  const REPLICAS := "migration.openshift.io/preQuiesceReplicas"
  const NODE_SELECTOR := "migration.openshift.io/preQuiesceNodeSelector"
  const QUIESCE_KEY := "migration.openshift.io/quiesceDaemonSet"
  const SUSPEND := "migration.openshift.io/preQuiesceSuspend"

  /** What a loop does with a listed object: pass over it, write it back changed, or give up. */
  datatype Visit<V> = Skip | Write(v: V) | Fail

  function Visited<V>(step: V -> Visit<V>, v: V): V
  {
    match step(v)
    case Write(w) => w
    case _ => v
  }

  // ----- workloads with a replica count -----

  datatype Kind = DeploymentConfig | Deployment | StatefulSet | ReplicaSet

  datatype Workload = Workload(kind: Kind, owned: bool, replicas: int, annotations: map<string, string>)

  /** Replica sets that belong to something else are left to their owner. */
  predicate Managed(w: Workload)
  {
    w.kind.ReplicaSet? ==> !w.owned
  }

  function Quiesce(w: Workload): Visit<Workload>
  {
    if !Managed(w) || w.replicas == 0 then Skip
    else Write(w.(annotations := w.annotations[REPLICAS := FormatInt(w.replicas)], replicas := 0))
  }

  function Unquiesce(w: Workload): Visit<Workload>
  {
    if !Managed(w) || REPLICAS !in w.annotations then Skip
    else
      match Atoi(w.annotations[REPLICAS])
      case None => Fail
      case Some(n) =>
        Write(w.(annotations := w.annotations - {REPLICAS},
                 replicas := if w.replicas == 0 then ToInt32(n) else w.replicas))
  }

  /** The replica sets that a deployment, or anything else, owns: no pass may touch them. */
  predicate OwnedReplicaSet(w: Workload)
  {
    w.kind == ReplicaSet && w.owned
  }

  /**
   * Everything else is stopped, with the count it had behind the annotation; only what has stopped already
   * is passed over.
   */
  lemma QuiesceStops(w: Workload)
    ensures OwnedReplicaSet(w) ==> Quiesce(w) == Skip && Unquiesce(w) == Skip
    ensures !OwnedReplicaSet(w) ==> Visited(Quiesce, w).replicas == 0
    ensures !OwnedReplicaSet(w) && w.replicas != 0 ==>
      var text := "migration.openshift.io/preQuiesceReplicas";
      Visited(Quiesce, w).annotations == w.annotations[text := FormatInt(w.replicas)]
    ensures w.replicas == 0 ==> Quiesce(w) == Skip
  {
  }

  /** What the user wants: a count, and annotations that do not include the saved count. */
  datatype Wanted = Wanted(replicas: int, annotations: map<string, string>)

  predicate Sensible(want: Wanted)
  {
    0 <= want.replicas <= MAX_INT32 && REPLICAS !in want.annotations
  }

  /** The object is as the user wants it. */
  predicate Restored(w: Workload, want: Wanted)
  {
    w.replicas == want.replicas && w.annotations == want.annotations
  }

  /** The saved text is a count that was once running. */
  ghost predicate SavedCount(text: string)
  {
    exists m :: 0 < m <= MAX_INT32 && text == FormatInt(m)
  }

  /**
   * The object can be brought back: it runs as wanted, possibly with a stale saved count beside a
   * positive one, or it is stopped with the wanted count saved.
   */
  ghost predicate Sound(w: Workload, want: Wanted)
  {
    && Sensible(want)
    && w.annotations - {REPLICAS} == want.annotations
    && (REPLICAS in w.annotations ==> SavedCount(w.annotations[REPLICAS]) && want.replicas > 0)
    && (w.replicas == want.replicas ||
        (w.replicas == 0 && REPLICAS in w.annotations && w.annotations[REPLICAS] == FormatInt(want.replicas)))
  }

  lemma WithoutSaved(w: Workload, text: string)
    ensures w.annotations[REPLICAS := text] - {REPLICAS} == w.annotations - {REPLICAS}
    ensures REPLICAS !in w.annotations ==> w.annotations - {REPLICAS} == w.annotations
    ensures w.annotations - {REPLICAS} - {REPLICAS} == w.annotations - {REPLICAS}
  {
  }

  lemma QuiesceKeepsSound(w: Workload, want: Wanted)
    requires Sound(w, want)
    ensures Quiesce(w) != Fail && Sound(Visited(Quiesce, w), want)
    ensures !OwnedReplicaSet(w) ==> Visited(Quiesce, w).replicas == 0
  {
    WithoutSaved(w, FormatInt(w.replicas));
  }

  /** Unquiescing a sound object restores it. */
  lemma UnquiesceRestores(w: Workload, want: Wanted)
    requires Sound(w, want)
    ensures Unquiesce(w) != Fail && Sound(Visited(Unquiesce, w), want)
    ensures !OwnedReplicaSet(w) ==> Restored(Visited(Unquiesce, w), want)
  {
    WithoutSaved(w, "");
    if REPLICAS in w.annotations && !OwnedReplicaSet(w) {
      var m :| 0 < m <= MAX_INT32 && w.annotations[REPLICAS] == FormatInt(m);
      UnquiesceSaved(w, if w.replicas == want.replicas then m else want.replicas);
    }
  }

  /** Scaling by the user, to any count. */
  function Scaled(w: Workload, n: int): Workload
  {
    w.(replicas := n)
  }

  /**
   * Scaling to `n` keeps the object restorable exactly when `n` is positive or no count is saved: a
   * user who scales a quiesced object to zero gets the old count back.
   */
  lemma ScaleKeepsSoundIff(w: Workload, want: Wanted, n: int)
    requires !OwnedReplicaSet(w) && Sound(w, want) && 0 <= n <= MAX_INT32
    ensures Sound(Scaled(w, n), want.(replicas := n)) <==> n > 0 || REPLICAS !in w.annotations
    ensures Unquiesce(Scaled(w, n)) != Fail
    ensures Restored(Visited(Unquiesce, Scaled(w, n)), want.(replicas := n)) <==> n > 0 || REPLICAS !in w.annotations
  {
    ScaledSound(w, want, n);
    if REPLICAS in w.annotations {
      var m :| 0 < m <= MAX_INT32 && w.annotations[REPLICAS] == FormatInt(m);
      UnquiesceSaved(Scaled(w, n), m);
    } else {
      WithoutSaved(w, "");
    }
  }

  lemma ScaledSound(w: Workload, want: Wanted, n: int)
    requires Sound(w, want) && 0 <= n <= MAX_INT32
    ensures Sound(Scaled(w, n), want.(replicas := n)) <==> n > 0 || REPLICAS !in w.annotations
  {
  }

  lemma UnquiesceSaved(w: Workload, m: int)
    requires !OwnedReplicaSet(w) && REPLICAS in w.annotations && w.annotations[REPLICAS] == FormatInt(m) && IsInt32(m)
    ensures Unquiesce(w) ==
            Write(w.(annotations := w.annotations - {REPLICAS}, replicas := if w.replicas == 0 then m else w.replicas))
  {
    AtoiOfFormatInt(m);
  }

  // ----- daemon sets -----

  type Selector = map<string, string>

  datatype DaemonSet = DaemonSet(selector: Selector, annotations: map<string, string>)

  /** The JSON encoding of string maps. */
  datatype Codec = Codec(encode: Selector -> string, decode: string -> Option<Selector>)

  ghost predicate Faithful(codec: Codec)
  {
    forall s: Selector :: codec.decode(codec.encode(s)) == Some(s)
  }

  function QuiesceDaemon(codec: Codec, d: DaemonSet): Visit<DaemonSet>
  {
    if QUIESCE_KEY in d.selector then Skip
    else Write(DaemonSet(d.selector[QUIESCE_KEY := "true"], d.annotations[NODE_SELECTOR := codec.encode(d.selector)]))
  }

  function UnquiesceDaemon(codec: Codec, d: DaemonSet): Visit<DaemonSet>
  {
    if NODE_SELECTOR !in d.annotations then Skip
    else
      match codec.decode(d.annotations[NODE_SELECTOR])
      case None => Fail
      case Some(saved) =>
        if QUIESCE_KEY !in d.selector then Skip
        else Write(DaemonSet(saved, d.annotations - {NODE_SELECTOR}))
  }

  /**
   * The daemon set can be brought back: it has the wanted selector, with a saved one beside it only if
   * a user changed the selector meanwhile; or it has the quiesce key and the wanted selector is saved.
   */
  predicate DaemonSound(codec: Codec, d: DaemonSet, want: DaemonSet, edited: bool)
  {
    && NODE_SELECTOR !in want.annotations
    && d.annotations - {NODE_SELECTOR} == want.annotations
    && if QUIESCE_KEY in want.selector then d.selector == want.selector && NODE_SELECTOR !in d.annotations
       else
         || (d.selector == want.selector &&
             (NODE_SELECTOR in d.annotations ==> edited && SavedSelector(codec, d.annotations[NODE_SELECTOR])))
         || (d.selector == want.selector[QUIESCE_KEY := "true"] && NODE_SELECTOR in d.annotations &&
             codec.decode(d.annotations[NODE_SELECTOR]) == Some(want.selector))
  }

  /** The saved text is a selector without the quiesce key. */
  predicate SavedSelector(codec: Codec, text: string)
  {
    codec.decode(text).Some? && QUIESCE_KEY !in codec.decode(text).value
  }

  lemma WithoutSavedSelector(annotations: map<string, string>, text: string)
    ensures annotations[NODE_SELECTOR := text] - {NODE_SELECTOR} == annotations - {NODE_SELECTOR}
    ensures NODE_SELECTOR !in annotations ==> annotations - {NODE_SELECTOR} == annotations
    ensures annotations - {NODE_SELECTOR} - {NODE_SELECTOR} == annotations - {NODE_SELECTOR}
  {
  }

  lemma QuiesceDaemonKeepsSound(codec: Codec, d: DaemonSet, want: DaemonSet, edited: bool)
    requires Faithful(codec) && DaemonSound(codec, d, want, edited)
    ensures var r := QuiesceDaemon(codec, d);
            r != Fail && DaemonSound(codec, if r.Write? then r.v else d, want, edited)
  {
    WithoutSavedSelector(d.annotations, codec.encode(d.selector));
  }

  /** Unquiescing gives the wanted selector back, and the annotations too unless a user interfered. */
  lemma UnquiesceDaemonRestores(codec: Codec, d: DaemonSet, want: DaemonSet, edited: bool)
    requires DaemonSound(codec, d, want, edited)
    ensures var r := UnquiesceDaemon(codec, d);
            var after := if r.Write? then r.v else d;
            && r != Fail && DaemonSound(codec, after, want, edited)
            && after.selector == want.selector && (!edited ==> after == want)
  {
    WithoutSavedSelector(d.annotations, "");
  }

  /** Replacing the selector is safe exactly when the new one lacks the quiesce key or nothing is saved. */
  lemma SelectorEditIff(codec: Codec, d: DaemonSet, want: DaemonSet, edited: bool, selector: Selector)
    requires DaemonSound(codec, d, want, edited)
    ensures DaemonSound(codec, d.(selector := selector), want.(selector := selector), true) <==>
            QUIESCE_KEY !in selector || NODE_SELECTOR !in d.annotations
    ensures var r := UnquiesceDaemon(codec, d.(selector := selector));
            r != Fail &&
            ((if r.Write? then r.v.selector else selector) == selector <==>
             QUIESCE_KEY !in selector || NODE_SELECTOR !in d.annotations)
  {
  }

  /** What is written where: a selector that no node meets, and the old one in an annotation. */
  lemma QuiesceDaemonWrites(codec: Codec, d: DaemonSet)
    ensures var key := "migration.openshift.io/quiesceDaemonSet";
            var saved := "migration.openshift.io/preQuiesceNodeSelector";
            QuiesceDaemon(codec, d) ==
            if key in d.selector then Skip
            else Write(DaemonSet(d.selector[key := "true"], d.annotations[saved := codec.encode(d.selector)]))
  {
  }

  // ----- jobs and cron jobs -----

  datatype Job = Job(parallelism: int, annotations: map<string, string>)

  /** The comparison with zero compares addresses, so no job is ever passed over. */
  function QuiesceJob(j: Job): Visit<Job>
  {
    Write(Job(0, j.annotations[REPLICAS := FormatInt(j.parallelism)]))
  }

  function UnquiesceJob(j: Job): Visit<Job>
  {
    if REPLICAS !in j.annotations then Skip
    else
      match Atoi(j.annotations[REPLICAS])
      case None => Fail
      case Some(n) =>
        Write(Job(if j.parallelism == 0 then ToInt32(n) else j.parallelism, j.annotations - {REPLICAS}))
  }

  function QuiesceJobTimes(j: Job, n: nat): Job
    decreases n
  {
    if n == 0 then j else QuiesceJobTimes(Visited(QuiesceJob, j), n - 1)
  }

  lemma {:induction false} QuiescedTwice(j: Job, n: nat)
    requires n > 0
    ensures QuiesceJobTimes(j, n) ==
            Job(0, j.annotations[REPLICAS := FormatInt(if n == 1 then j.parallelism else 0)])
    decreases n
  {
    if n == 1 {
      assert QuiesceJobTimes(Visited(QuiesceJob, j), 0) == Visited(QuiesceJob, j);
    } else {
      var next := Visited(QuiesceJob, j);
      QuiescedTwice(next, n - 1);
      assert next.annotations[REPLICAS := FormatInt(0)] == j.annotations[REPLICAS := FormatInt(0)];
    }
  }

  /**
   * A job gets its parallelism back exactly when it was quiesced at most once, or never ran in
   * parallel: a repeated pass saves the zero of the first one.
   */
  lemma JobRestoredIff(j: Job, n: nat)
    requires REPLICAS !in j.annotations && IsInt32(j.parallelism)
    ensures UnquiesceJob(QuiesceJobTimes(j, n)) != Fail
    ensures Visited(UnquiesceJob, QuiesceJobTimes(j, n)) == j <==> n <= 1 || j.parallelism == 0
  {
    if n > 0 {
      QuiescedTwice(j, n);
      AtoiOfFormatInt(j.parallelism);
      AtoiOfFormatInt(0);
      var saved := j.annotations[REPLICAS := FormatInt(if n == 1 then j.parallelism else 0)];
      assert saved - {REPLICAS} == j.annotations;
    }
  }

  datatype CronJob = CronJob(suspend: Option<bool>, annotations: map<string, string>)

  /** Again an address comparison: every cron job is marked, suspended or not. */
  function QuiesceCronJob(c: CronJob): Visit<CronJob>
  {
    Write(CronJob(Some(true), c.annotations[SUSPEND := "true"]))
  }

  function UnquiesceCronJob(c: CronJob): Visit<CronJob>
  {
    if SUSPEND !in c.annotations then Skip else Write(CronJob(Some(false), c.annotations - {SUSPEND}))
  }

  /** What is written where, and that a cron job comes back with an explicit false. */
  lemma CronJobWrites(c: CronJob)
    ensures var saved := "migration.openshift.io/preQuiesceSuspend";
            && QuiesceCronJob(c) == Write(CronJob(Some(true), c.annotations[saved := "true"]))
            && UnquiesceCronJob(c) ==
               if saved in c.annotations then Write(CronJob(Some(false), c.annotations - {saved})) else Skip
  {
  }

  predicate Suspended(c: CronJob)
  {
    c.suspend == Some(true)
  }

  /** However often it was quiesced, a cron job comes back running, so it is restored unless it was suspended before. */
  lemma CronJobRestoredIff(c: CronJob)
    requires SUSPEND !in c.annotations
    ensures var once := Visited(QuiesceCronJob, c);
            && Visited(QuiesceCronJob, once) == once
            && Suspended(once)
            && Visited(UnquiesceCronJob, once).annotations == c.annotations
            && (Suspended(Visited(UnquiesceCronJob, once)) == Suspended(c) <==> !Suspended(c))
  {
    var marked := c.annotations[SUSPEND := "true"];
    assert marked[SUSPEND := "true"] == marked;
    assert marked - {SUSPEND} == c.annotations;
  }
}
