/** Whole runs over daemon sets: passes that may stop anywhere and users changing node selectors in between. */
module DaemonRuns {
  import opened Workloads

  type Daemons = map<string, DaemonSet>

  datatype Event =
    | QuiescePass(done: set<string>)
    | UnquiescePass(done: set<string>)
    | SetSelector(name: string, selector: Selector)
    | Create(name: string, d: DaemonSet)
    | Delete(name: string)

  /** What a user wants of a daemon set, and whether the user has changed the selector since it was created. */
  datatype Intent = Intent(want: DaemonSet, edited: bool)

  datatype World = World(daemons: Daemons, intents: map<string, Intent>)

  function Daemon(step: Visit<DaemonSet>, d: DaemonSet): DaemonSet
  {
    match step
    case Write(after) => after
    case _ => d
  }

  function AfterQuiesce(codec: Codec, daemons: Daemons, done: set<string>): Daemons
  {
    map x | x in daemons :: if x in done then Daemon(QuiesceDaemon(codec, daemons[x]), daemons[x]) else daemons[x]
  }

  function AfterUnquiesce(codec: Codec, daemons: Daemons, done: set<string>): Daemons
  {
    map x | x in daemons :: if x in done then Daemon(UnquiesceDaemon(codec, daemons[x]), daemons[x]) else daemons[x]
  }

  function Next(codec: Codec, world: World, e: Event): World
  {
    match e
    case QuiescePass(done) => world.(daemons := AfterQuiesce(codec, world.daemons, done))
    case UnquiescePass(done) => world.(daemons := AfterUnquiesce(codec, world.daemons, done))
    case SetSelector(name, selector) =>
      if name in world.daemons && name in world.intents then
        World(world.daemons[name := world.daemons[name].(selector := selector)],
              world.intents[name := Intent(world.intents[name].want.(selector := selector), true)])
      else world
    case Create(name, d) =>
      if name in world.daemons then world
      else World(world.daemons[name := d], world.intents[name := Intent(d, false)])
    case Delete(name) => World(world.daemons - {name}, world.intents - {name})
  }

  /** Nobody sets the quiesce key while a selector is saved; new daemon sets carry no saved selector. */
  predicate Allowed(world: World, e: Event)
  {
    match e
    case SetSelector(name, selector) =>
      name in world.daemons && QUIESCE_KEY in selector ==> NODE_SELECTOR !in world.daemons[name].annotations
    case Create(name, d) => NODE_SELECTOR !in d.annotations
    case _ => true
  }

  function Run(codec: Codec, world: World, events: seq<Event>): World
    decreases |events|
  {
    if events == [] then world else Run(codec, Next(codec, world, events[0]), events[1..])
  }

  predicate AllAllowed(codec: Codec, world: World, events: seq<Event>)
    decreases |events|
  {
    events == [] || (Allowed(world, events[0]) && AllAllowed(codec, Next(codec, world, events[0]), events[1..]))
  }

  predicate Recoverable(codec: Codec, world: World)
  {
    && world.daemons.Keys == world.intents.Keys
    && forall x <- world.daemons :: DaemonSound(codec, world.daemons[x], world.intents[x].want, world.intents[x].edited)
  }

  function Start(daemons: Daemons): World
  {
    World(daemons, map x | x in daemons :: Intent(daemons[x], false))
  }

  lemma NewIsSound(codec: Codec, d: DaemonSet)
    requires NODE_SELECTOR !in d.annotations
    ensures DaemonSound(codec, d, d, false)
  {
    WithoutSavedSelector(d.annotations, "");
  }

  lemma QuiesceStep(codec: Codec, world: World, done: set<string>)
    requires Faithful(codec) && Recoverable(codec, world)
    ensures Recoverable(codec, Next(codec, world, QuiescePass(done)))
  {
    forall x | x in world.daemons
      ensures DaemonSound(codec, Daemon(QuiesceDaemon(codec, world.daemons[x]), world.daemons[x]),
                          world.intents[x].want, world.intents[x].edited)
    {
      QuiesceDaemonKeepsSound(codec, world.daemons[x], world.intents[x].want, world.intents[x].edited);
    }
  }

  lemma UnquiesceStep(codec: Codec, world: World, done: set<string>)
    requires Recoverable(codec, world)
    ensures Recoverable(codec, Next(codec, world, UnquiescePass(done)))
  {
    forall x | x in world.daemons
      ensures DaemonSound(codec, Daemon(UnquiesceDaemon(codec, world.daemons[x]), world.daemons[x]),
                          world.intents[x].want, world.intents[x].edited)
    {
      UnquiesceDaemonRestores(codec, world.daemons[x], world.intents[x].want, world.intents[x].edited);
    }
  }

  lemma StepKeepsRecoverable(codec: Codec, world: World, e: Event)
    requires Faithful(codec) && Recoverable(codec, world) && Allowed(world, e)
    ensures Recoverable(codec, Next(codec, world, e))
  {
    match e
    case QuiescePass(done) => QuiesceStep(codec, world, done);
    case UnquiescePass(done) => UnquiesceStep(codec, world, done);
    case SetSelector(name, selector) =>
      if name in world.daemons {
        SelectorEditIff(codec, world.daemons[name], world.intents[name].want, world.intents[name].edited, selector);
      }
    case Create(name, d) => NewIsSound(codec, d);
    case Delete(name) =>
  }

  lemma {:induction false} RunKeepsRecoverable(codec: Codec, world: World, events: seq<Event>)
    requires Faithful(codec) && Recoverable(codec, world) && AllAllowed(codec, world, events)
    ensures Recoverable(codec, Run(codec, world, events))
    decreases |events|
  {
    if events != [] {
      StepKeepsRecoverable(codec, world, events[0]);
      RunKeepsRecoverable(codec, Next(codec, world, events[0]), events[1..]);
    }
  }

  /**
   * After any mix of complete and aborted passes and of selector changes, a complete unquiesce can read
   * every saved selector and gives each daemon set the selector its user wanted last; one whose selector
   * no user touched is back to exactly what it was.
   */
  lemma DaemonSafety(codec: Codec, daemons: Daemons, events: seq<Event>)
    requires Faithful(codec) && forall x <- daemons :: NODE_SELECTOR !in daemons[x].annotations
    requires AllAllowed(codec, Start(daemons), events)
    ensures var end := Run(codec, Start(daemons), events);
            && end.daemons.Keys == end.intents.Keys
            && forall x <- end.daemons ::
                 && UnquiesceDaemon(codec, end.daemons[x]) != Fail
                 && Daemon(UnquiesceDaemon(codec, end.daemons[x]), end.daemons[x]).selector ==
                    end.intents[x].want.selector
                 && (!end.intents[x].edited ==>
                       Daemon(UnquiesceDaemon(codec, end.daemons[x]), end.daemons[x]) == end.intents[x].want)
  {
    forall x | x in daemons ensures DaemonSound(codec, daemons[x], daemons[x], false) {
      NewIsSound(codec, daemons[x]);
    }
    RunKeepsRecoverable(codec, Start(daemons), events);
    var end := Run(codec, Start(daemons), events);
    forall x | x in end.daemons
      ensures UnquiesceDaemon(codec, end.daemons[x]) != Fail
      ensures Daemon(UnquiesceDaemon(codec, end.daemons[x]), end.daemons[x]).selector == end.intents[x].want.selector
      ensures !end.intents[x].edited ==>
        Daemon(UnquiesceDaemon(codec, end.daemons[x]), end.daemons[x]) == end.intents[x].want
    {
      UnquiesceDaemonRestores(codec, end.daemons[x], end.intents[x].want, end.intents[x].edited);
    }
  }
}
