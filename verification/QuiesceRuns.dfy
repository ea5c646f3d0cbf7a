/**
 * Whole runs: passes that may stop anywhere, in any order, with users creating, scaling and deleting
 * objects in between.
 */
module QuiesceRuns {
  import opened Strconv
  import opened Workloads

  type Objects = map<string, Workload>

  /** A pass of one kind that got to the objects in `done`; a write that fails ends a pass early. */
  datatype Event =
    | QuiescePass(kind: Kind, done: set<string>)
    | UnquiescePass(kind: Kind, done: set<string>)
    | ScaleTo(name: string, n: int)
    | Create(name: string, w: Workload)
    | Delete(name: string)

  /** The cluster, and beside it what the users want of it. */
  datatype World = World(objects: Objects, wanted: map<string, Wanted>)

  /** The objects after a pass over those of one kind that it got to. */
  function AfterPass(objects: Objects, kind: Kind, done: set<string>, step: Workload -> Visit<Workload>): (r: Objects)
    ensures r.Keys == objects.Keys
    ensures forall x <- objects ::
      r[x] == if x in done && objects[x].kind == kind then Visited(step, objects[x]) else objects[x]
  {
    map x | x in objects :: if x in done && objects[x].kind == kind then Visited(step, objects[x]) else objects[x]
  }

  function Next(world: World, e: Event): World
  {
    match e
    case QuiescePass(kind, done) => world.(objects := AfterPass(world.objects, kind, done, Quiesce))
    case UnquiescePass(kind, done) => world.(objects := AfterPass(world.objects, kind, done, Unquiesce))
    case ScaleTo(name, n) =>
      if name in world.objects && name in world.wanted then
        World(world.objects[name := Scaled(world.objects[name], n)],
              world.wanted[name := world.wanted[name].(replicas := n)])
      else world
    case Create(name, w) =>
      if name in world.objects then world
      else World(world.objects[name := w], world.wanted[name := Wanted(w.replicas, w.annotations)])
    case Delete(name) => World(world.objects - {name}, world.wanted - {name})
  }

  /** Counts are sensible; nobody scales to zero while a count is saved; new objects carry no saved count. */
  predicate Allowed(world: World, e: Event)
  {
    match e
    case ScaleTo(name, n) =>
      name in world.objects && !OwnedReplicaSet(world.objects[name]) ==>
        0 <= n <= MAX_INT32 && (n > 0 || REPLICAS !in world.objects[name].annotations)
    case Create(name, w) => Fresh(w)
    case _ => true
  }

  predicate Fresh(w: Workload)
  {
    !OwnedReplicaSet(w) ==> 0 <= w.replicas <= MAX_INT32 && REPLICAS !in w.annotations
  }

  function Run(world: World, events: seq<Event>): World
    decreases |events|
  {
    if events == [] then world else Run(Next(world, events[0]), events[1..])
  }

  predicate AllAllowed(world: World, events: seq<Event>)
    decreases |events|
  {
    events == [] || (Allowed(world, events[0]) && AllAllowed(Next(world, events[0]), events[1..]))
  }

  /** Everything but owned replica sets can be brought back. */
  ghost predicate Recoverable(world: World)
  {
    && world.objects.Keys == world.wanted.Keys
    && forall x <- world.objects :: !OwnedReplicaSet(world.objects[x]) ==> Sound(world.objects[x], world.wanted[x])
  }

  function Start(objects: Objects): (r: World)
    ensures r.objects == objects && r.wanted.Keys == objects.Keys
    ensures forall x <- objects :: r.wanted[x] == Wanted(objects[x].replicas, objects[x].annotations)
  {
    World(objects, map x | x in objects :: Wanted(objects[x].replicas, objects[x].annotations))
  }

  lemma StartRecoverable(objects: Objects)
    requires forall x <- objects :: Fresh(objects[x])
    ensures Recoverable(Start(objects))
  {
    forall x | x in objects && !OwnedReplicaSet(objects[x]) ensures Sound(objects[x], Start(objects).wanted[x]) {
      WithoutSaved(objects[x], "");
    }
  }

  /** The step keeps sound what is sound, and makes nothing else of an owned replica set. */
  ghost predicate KeepsSound(step: Workload -> Visit<Workload>)
  {
    forall w: Workload :: !OwnedReplicaSet(Visited(step, w)) ==>
      !OwnedReplicaSet(w) && forall want: Wanted :: Sound(w, want) ==> Sound(Visited(step, w), want)
  }

  lemma BothKeepSound()
    ensures KeepsSound(Quiesce) && KeepsSound(Unquiesce)
  {
    forall w: Workload, want: Wanted | Sound(w, want)
      ensures Sound(Visited(Quiesce, w), want) && Sound(Visited(Unquiesce, w), want)
    {
      QuiesceKeepsSound(w, want);
      UnquiesceRestores(w, want);
    }
  }

  lemma PassKeepsRecoverable(world: World, kind: Kind, done: set<string>, step: Workload -> Visit<Workload>)
    requires Recoverable(world) && KeepsSound(step)
    ensures Recoverable(world.(objects := AfterPass(world.objects, kind, done, step)))
  {
    var after := AfterPass(world.objects, kind, done, step);
    forall x | x in after && !OwnedReplicaSet(after[x]) ensures Sound(after[x], world.wanted[x]) {
      assert after[x] == Visited(step, world.objects[x]) || after[x] == world.objects[x];
    }
  }

  lemma ScaleKeepsRecoverable(world: World, name: string, n: int)
    requires Recoverable(world) && Allowed(world, ScaleTo(name, n))
    ensures Recoverable(Next(world, ScaleTo(name, n)))
  {
    if name in world.objects && !OwnedReplicaSet(world.objects[name]) {
      ScaleKeepsSoundIff(world.objects[name], world.wanted[name], n);
    }
  }

  lemma CreateKeepsRecoverable(world: World, name: string, w: Workload)
    requires Recoverable(world) && Fresh(w)
    ensures Recoverable(Next(world, Create(name, w)))
  {
    WithoutSaved(w, "");
  }

  /** No pass touches a replica set that something else owns. */
  lemma PassLeavesOwned(world: World, e: Event, x: string)
    requires (e.QuiescePass? || e.UnquiescePass?) && x in world.objects && OwnedReplicaSet(world.objects[x])
    ensures x in Next(world, e).objects && Next(world, e).objects[x] == world.objects[x]
  {
    QuiesceStops(world.objects[x]);
  }

  /** Every step keeps every object that passes work on recoverable. */
  lemma StepKeepsRecoverable(world: World, e: Event)
    requires Recoverable(world) && Allowed(world, e)
    ensures Recoverable(Next(world, e))
  {
    BothKeepSound();
    match e
    case QuiescePass(kind, done) => PassKeepsRecoverable(world, kind, done, Quiesce);
    case UnquiescePass(kind, done) => PassKeepsRecoverable(world, kind, done, Unquiesce);
    case ScaleTo(name, n) => ScaleKeepsRecoverable(world, name, n);
    case Create(name, w) => CreateKeepsRecoverable(world, name, w);
    case Delete(name) =>
  }

  lemma {:induction false} RunKeepsRecoverable(world: World, events: seq<Event>)
    requires Recoverable(world) && AllAllowed(world, events)
    ensures Recoverable(Run(world, events))
    decreases |events|
  {
    if events != [] {
      StepKeepsRecoverable(world, events[0]);
      RunKeepsRecoverable(Next(world, events[0]), events[1..]);
    }
  }

  /** Unquiescing every object of every kind. */
  function UnquiesceEverything(objects: Objects): (r: Objects)
    ensures r.Keys == objects.Keys && forall x <- objects :: r[x] == Visited(Unquiesce, objects[x])
  {
    map x | x in objects :: Visited(Unquiesce, objects[x])
  }

  /** What a complete unquiesce leaves when it starts from a recoverable world. */
  lemma RecoverableIsRestored(world: World)
    requires Recoverable(world)
    ensures forall x <- world.objects ::
      && Unquiesce(world.objects[x]) != Fail
      && (!OwnedReplicaSet(world.objects[x]) ==> Restored(Visited(Unquiesce, world.objects[x]), world.wanted[x]))
  {
    forall x | x in world.objects && !OwnedReplicaSet(world.objects[x])
      ensures Unquiesce(world.objects[x]) != Fail
      ensures Restored(Visited(Unquiesce, world.objects[x]), world.wanted[x])
    {
      UnquiesceRestores(world.objects[x], world.wanted[x]);
    }
  }

  /**
   * Quiesce safety: after any mix of complete and aborted passes and of changes by users, a complete
   * unquiesce meets no unreadable count and leaves every object with the count its user wanted last, its
   * own annotations, and no saved count, except that owned replica sets are left as they are.
   */
  lemma QuiesceSafety(objects: Objects, events: seq<Event>)
    requires forall x <- objects :: Fresh(objects[x])
    requires AllAllowed(Start(objects), events)
    ensures var end := Run(Start(objects), events);
            && end.objects.Keys == end.wanted.Keys
            && forall x <- end.objects ::
                 && Unquiesce(end.objects[x]) != Fail
                 && (OwnedReplicaSet(end.objects[x]) ==> UnquiesceEverything(end.objects)[x] == end.objects[x])
                 && (!OwnedReplicaSet(end.objects[x]) ==>
                       && Restored(UnquiesceEverything(end.objects)[x], end.wanted[x])
                       && REPLICAS !in UnquiesceEverything(end.objects)[x].annotations)
  {
    StartRecoverable(objects);
    RunKeepsRecoverable(Start(objects), events);
    var end := Run(Start(objects), events);
    RecoverableIsRestored(end);
    forall x | x in end.objects && OwnedReplicaSet(end.objects[x])
      ensures UnquiesceEverything(end.objects)[x] == end.objects[x]
    {
      QuiesceStops(end.objects[x]);
    }
  }
}
