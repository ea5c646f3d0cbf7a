/** What becomes of a Job over whole runs of passes and of scaling by its user (state_transfer/quiesce.go). */
module JobRuns {
  import opened Wrappers
  import opened Strconv
  import opened Workloads

  datatype Event = QuiescePass | UnquiescePass | ScaleTo(n: int)

  function Next(j: Job, e: Event): Job
  {
    match e
    case QuiescePass => Visited(QuiesceJob, j)
    case UnquiescePass => Visited(UnquiesceJob, j)
    case ScaleTo(n) => j.(parallelism := n)
  }

  function Run(j: Job, events: seq<Event>): Job
    decreases |events|
  {
    if events == [] then j else Run(Next(j, events[0]), events[1..])
  }

  predicate Sensible(events: seq<Event>)
  {
    forall e <- events :: e.ScaleTo? ==> IsInt32(e.n)
  }

  predicate OnlyPasses(events: seq<Event>)
  {
    forall e <- events :: !e.ScaleTo?
  }

  /** The Job is at `count`, with `saved` in its annotation, and has the other annotations it always had. */
  predicate At(j: Job, count: int, saved: Option<int>, annotations: map<string, string>)
  {
    && IsInt32(count) && j.parallelism == count
    && REPLICAS !in annotations && j.annotations - {REPLICAS} == annotations
    && (saved.None? <==> REPLICAS !in j.annotations)
    && (saved.Some? ==> IsInt32(saved.value) && j.annotations[REPLICAS] == FormatInt(saved.value))
  }

  ghost predicate Readable(j: Job, annotations: map<string, string>)
  {
    exists count, saved :: At(j, count, saved, annotations)
  }

  lemma QuiesceAt(j: Job, count: int, saved: Option<int>, annotations: map<string, string>)
    requires At(j, count, saved, annotations)
    ensures At(Next(j, QuiescePass), 0, Some(count), annotations)
  {
    assert j.annotations[REPLICAS := FormatInt(count)] - {REPLICAS} == annotations;
  }

  lemma UnquiesceAt(j: Job, count: int, saved: Option<int>, annotations: map<string, string>)
    requires At(j, count, saved, annotations)
    ensures UnquiesceJob(j) != Fail
    ensures At(Next(j, UnquiescePass), if count == 0 && saved.Some? then saved.value else count, None, annotations)
  {
    if saved.Some? {
      AtoiOfFormatInt(saved.value);
    } else {
      assert j.annotations - {REPLICAS} == j.annotations;
    }
  }

  /** No run of passes and of scaling makes a Job unreadable. */
  lemma {:induction false} RunStaysReadable(j: Job, events: seq<Event>, annotations: map<string, string>)
    requires Readable(j, annotations) && Sensible(events)
    ensures Readable(Run(j, events), annotations) && UnquiesceJob(Run(j, events)) != Fail
    decreases |events|
  {
    var count, saved :| At(j, count, saved, annotations);
    UnquiesceAt(j, count, saved, annotations);
    if events != [] {
      QuiesceAt(j, count, saved, annotations);
      match events[0] {
        case ScaleTo(n) => assert At(Next(j, events[0]), n, saved, annotations);
        case _ =>
      }
      RunStaysReadable(Next(j, events[0]), events[1..], annotations);
    }
  }

  /** A quiescing pass finds the Job stopped: its count is saved over by zero. */
  predicate SavedOver(events: seq<Event>, stopped: bool)
    decreases |events|
  {
    events != [] &&
    match events[0]
    case QuiescePass => stopped || SavedOver(events[1..], true)
    case UnquiescePass => SavedOver(events[1..], false)
    case ScaleTo(_) => SavedOver(events[1..], false)
  }

  /** Where unquiescing leads: the count if it is not zero, and otherwise what is saved. */
  function Comeback(count: int, saved: Option<int>): int
  {
    if count == 0 && saved.Some? then saved.value else count
  }

  /** A Job that comes back at zero stays there. */
  lemma {:induction false} ZeroStays(j: Job, events: seq<Event>, saved: Option<int>, annotations: map<string, string>)
    requires At(j, 0, saved, annotations) && Comeback(0, saved) == 0 && OnlyPasses(events)
    ensures Next(Run(j, events), UnquiescePass) == Job(0, annotations)
    decreases |events|
  {
    if events == [] {
      UnquiesceAt(j, 0, saved, annotations);
    } else {
      QuiesceAt(j, 0, saved, annotations);
      UnquiesceAt(j, 0, saved, annotations);
      var later := if events[0].QuiescePass? then Some(0) else None;
      ZeroStays(Next(j, events[0]), events[1..], later, annotations);
    }
  }

  /** Otherwise it comes back there, unless a pass saves over the count. */
  lemma {:induction false} NonzeroComesBack(j: Job, events: seq<Event>, count: int, saved: Option<int>,
                                            annotations: map<string, string>)
    requires At(j, count, saved, annotations) && OnlyPasses(events) && Comeback(count, saved) != 0
    ensures Next(Run(j, events), UnquiescePass) ==
            Job(if SavedOver(events, count == 0) then 0 else Comeback(count, saved), annotations)
    decreases |events|
  {
    UnquiesceAt(j, count, saved, annotations);
    if events != [] {
      assert events[0] in events;
      var next, rest := Next(j, events[0]), events[1..];
      QuiesceAt(j, count, saved, annotations);
      if events[0].UnquiescePass? {
        NonzeroComesBack(next, rest, Comeback(count, saved), None, annotations);
      } else if count == 0 {
        ZeroStays(next, rest, Some(0), annotations);
      } else {
        NonzeroComesBack(next, rest, 0, Some(count), annotations);
      }
    }
  }

  /**
   * After any run, a user scales the Job to `n`, and then there are only passes.  Unquiescing brings it
   * back at `n` exactly when, for a positive `n`, no pass quiesced it twice without unquiescing in
   * between; and for zero, when no other count was saved at that moment, or one has been saved over since.
   */
  lemma JobComesBackIff(j: Job, before: seq<Event>, n: int, passes: seq<Event>)
    requires REPLICAS !in j.annotations && IsInt32(j.parallelism) && Sensible(before) && IsInt32(n)
    requires OnlyPasses(passes)
    ensures var middle := Run(j, before);
            var end := Run(Next(middle, ScaleTo(n)), passes);
            && UnquiesceJob(end) != Fail
            && (Next(end, UnquiescePass) == Job(n, j.annotations) <==>
                  if n != 0 then !SavedOver(passes, false)
                  else REPLICAS !in middle.annotations || middle.annotations[REPLICAS] == FormatInt(0)
                       || SavedOver(passes, true))
  {
    assert j.annotations - {REPLICAS} == j.annotations;
    assert At(j, j.parallelism, None, j.annotations);
    RunStaysReadable(j, before, j.annotations);
    var middle := Run(j, before);
    var count, saved :| At(middle, count, saved, j.annotations);
    var scaled := Next(middle, ScaleTo(n));
    assert At(scaled, n, saved, j.annotations);
    PassesStaySensible(passes);
    RunStaysReadable(scaled, passes, j.annotations);
    if saved.Some? {
      AtoiOfFormatInt(saved.value);
      AtoiOfFormatInt(0);
    }
    if Comeback(n, saved) != 0 {
      NonzeroComesBack(scaled, passes, n, saved, j.annotations);
    } else {
      ZeroStays(scaled, passes, saved, j.annotations);
    }
  }

  lemma PassesStaySensible(passes: seq<Event>)
    requires OnlyPasses(passes)
    ensures Sensible(passes)
  {
  }
}
