/**
 The process scheduler, one method per stretch of code between two awaits. The event loop may run them in any order in which
 they are enabled; the continuation behind a finished run is part of the step that ends the run, since it is registered
 before anything else can wait for that run.
 */
module ProcessScheduler {
  import opened Wrappers

  datatype Settlement = Pending | Resolved(run: nat) | Failed(run: nat) | Rejected

  /** A call of `schedule` that was given the promise of a resolver, when so many runs had been started. */
  datatype Call = Call(resolver: nat, runsBefore: nat)

  datatype Run = Run(start: int, end: Option<int>)

  /** Where the waiting invocation of `#scheduleInternal` is: what it has captured and awaits. */
  datatype Waiting = ForRun(run: Option<nat>) | ForThrottle(until: int) | ForIdle

  /** The second run starts after the first one has ended, and at least a throttle period after its start. */
  ghost predicate Apart(first: Run, second: Run, throttleMs: nat) {
    first.end.Some? && first.end.value <= second.start && first.start + throttleMs <= second.start
  }

  /** Runs follow each other; only the last one may be under way. */
  ghost predicate Spaced(runs: seq<Run>, running: Option<nat>, now: int, throttledUntil: int, throttleMs: nat) {
    && (forall i :: 0 <= i < |runs| ==>
          && runs[i].start <= now && (runs[i].end.Some? ==> runs[i].start <= runs[i].end.value <= now)
          && (runs[i].end.None? <==> running == Some(i)))
    && (forall i, j :: 0 <= i < j < |runs| ==> Apart(runs[i], runs[j], throttleMs))
    && (running.Some? ==> running.value == |runs| - 1)
    && (runs != [] ==> throttledUntil == runs[|runs| - 1].start + throttleMs)
  }

  /** A run settles only promises that were handed out before it began. */
  ghost predicate SettledLater(c: Call, s: Settlement, current: bool, started: nat) {
    && c.runsBefore <= started
    && (current ==> c.runsBefore < started)
    && (s.Resolved? || s.Failed? ==> c.runsBefore <= s.run < started)
  }

  /** A promise is pending as long as one of the two resolver fields holds it. */
  ghost predicate Settling(resolvers: seq<Settlement>, scheduled: Option<nat>, current: Option<nat>, calls: seq<Call>,
                           running: bool, started: nat, aborted: bool)
  {
    && (forall r :: 0 <= r < |resolvers| ==> (resolvers[r] == Pending <==> scheduled == Some(r) || current == Some(r)))
    && (scheduled.Some? ==> scheduled.value < |resolvers| && scheduled != current)
    && (current.Some? ==> current.value < |resolvers| && running)
    && (forall k :: 0 <= k < |calls| ==>
          calls[k].resolver < |resolvers|
          && SettledLater(calls[k], resolvers[calls[k].resolver], current == Some(calls[k].resolver), started))
    && (aborted ==> scheduled == current == None)
  }

  /** There is at most one waiting invocation: the one that will start the scheduled run. */
  ghost predicate WaitingWell(waiting: Option<Waiting>, scheduled: bool, running: bool, started: nat, now: int,
                              throttledUntil: int, aborted: bool)
  {
    && (scheduled ==> waiting.Some?)
    && (waiting.Some? ==> scheduled || aborted)
    && (waiting.Some? ==>
          match waiting.value
          case ForRun(run) => run == if started == 0 then None else Some(started - 1)
          case ForThrottle(until) => !running && until == throttledUntil
          case ForIdle => !running && (throttledUntil <= now || started == 0 || aborted))
  }

  class ProcessScheduler {
    const throttleMs: nat
    var now: int
    var aborted: bool
    var scheduledResolver: Option<nat>
    var runResolver: Option<nat>
    var throttledUntil: int
    var waiting: Option<Waiting>
    var running: Option<nat>
    /** All resolvers and runs so far, and all calls that were accepted. */
    var resolvers: seq<Settlement>
    var runs: seq<Run>
    ghost var calls: seq<Call>

    constructor (throttleMs: nat)
      ensures Valid() && calls == [] && runs == [] && !aborted && this.throttleMs == throttleMs
    {
      this.throttleMs, now, aborted := throttleMs, 0, false;
      scheduledResolver, runResolver, throttledUntil, waiting, running := None, None, 0, None, None;
      resolvers, runs, calls := [], [], [];
    }

    ghost predicate Valid()
      reads this
    {
      && Spaced(runs, running, now, throttledUntil, throttleMs)
      && Settling(resolvers, scheduledResolver, runResolver, calls, running.Some?, |runs|, aborted)
      && WaitingWell(waiting, scheduledResolver.Some?, running.Some?, |runs|, now, throttledUntil, aborted)
    }

    /** Promises that are settled stay as they are, and once aborted, nothing is resolved any more. */
    twostate predicate OnlySettles()
      reads this
    {
      && |old(resolvers)| <= |resolvers|
      && (forall r :: 0 <= r < |old(resolvers)| && old(resolvers)[r] != Pending ==> resolvers[r] == old(resolvers)[r])
      && (old(aborted) ==> aborted && resolvers == old(resolvers) && |runs| == |old(runs)|)
      && |old(runs)| <= |runs| && old(calls) <= calls
    }

    method Pass(ms: nat)
      requires Valid()
      modifies this`now
      ensures Valid() && now == old(now) + ms && OnlySettles()
    {
      hide Settling;
      now := now + ms;
    }

    /** `schedule`, up to the first await of `#scheduleInternal`; the result is the resolver whose promise is returned. */
    method Schedule() returns (r: Option<nat>)
      requires Valid()
      modifies this
      ensures Valid() && runs == old(runs) && aborted == old(aborted) && OnlySettles()
      ensures r.None? <==> aborted
      ensures r.Some? ==> r.value < |resolvers| && resolvers[r.value] == Pending
      ensures calls == if r.None? then old(calls) else old(calls) + [Call(r.value, |runs|)]
      ensures r == scheduledResolver && runResolver == old(runResolver) && running == old(running)
      ensures if aborted || old(scheduledResolver).Some? then
                r == old(scheduledResolver) && waiting == old(waiting) && resolvers == old(resolvers)
              else r == Some(|old(resolvers)|) && resolvers == old(resolvers) + [Pending]
                   && waiting == Some(ForRun(if |runs| == 0 then None else Some(|runs| - 1)))
    {
      hide Spaced;
      if aborted {
        return None;
      }
      if scheduledResolver.None? {
        scheduledResolver := Some(|resolvers|);
        resolvers := resolvers + [Pending];
        waiting := Some(ForRun(if runs == [] then None else Some(|runs| - 1)));
      }
      calls := calls + [Call(scheduledResolver.value, |runs|)];
      return scheduledResolver;
    }

    /** The run that was awaited has ended: on to the throttle promise of that moment. */
    method RunAwaited()
      requires Valid() && waiting.Some? && waiting.value.ForRun?
      requires waiting.value.run.Some? ==> waiting.value.run != running
      modifies this`waiting
      ensures Valid() && OnlySettles() && waiting == Some(ForThrottle(throttledUntil))
    {
      hide Settling;
      waiting := Some(ForThrottle(throttledUntil));
    }

    /** The throttle period is over, or was cut short by an abort. */
    method ThrottleAwaited()
      requires Valid() && waiting.Some? && waiting.value.ForThrottle? && (waiting.value.until <= now || |runs| == 0 || aborted)
      modifies this`waiting
      ensures Valid() && OnlySettles() && waiting == if scheduledResolver.None? then None else Some(ForIdle)
    {
      hide Settling, Spaced;
      waiting := if scheduledResolver.None? then None else Some(ForIdle);
    }

    /** The idle period begins: start a run, unless everything has been aborted. */
    method IdleAwaited()
      requires Valid() && waiting == Some(ForIdle)
      modifies this
      ensures Valid() && OnlySettles() && waiting == None && resolvers == old(resolvers)
      ensures runs == if old(scheduledResolver).None? then old(runs) else old(runs) + [Run(now, None)]
      ensures if old(scheduledResolver).None? then runResolver == old(runResolver) && running == None
              else runResolver == old(scheduledResolver) && running == Some(|old(runs)|) && throttledUntil == now + throttleMs
      ensures scheduledResolver == None
      ensures old(running).None?
    {
      hide Spaced, Settling;
      waiting := None;
      if scheduledResolver.None? {
        return;
      }
      StartSettles(resolvers, scheduledResolver.value, runResolver, calls, |runs|, aborted);
      StartsApart(runs, now, throttledUntil, throttleMs);
      throttledUntil := now + throttleMs;
      runResolver := scheduledResolver;
      scheduledResolver := None;
      running := Some(|runs|);
      runs := runs + [Run(now, None)];
    }

    /** The process ends, well or not, and the continuation of its run settles the promise, if there still is one. */
    method RunEnds(ok: bool)
      requires Valid() && running.Some?
      modifies this
      ensures Valid() && OnlySettles() && running == None && runResolver == None && scheduledResolver == old(scheduledResolver)
      ensures runs == old(runs)[old(running).value := old(runs)[old(running).value].(end := Some(now))]
      ensures waiting == old(waiting) && (old(runResolver).None? ==> resolvers == old(resolvers))
      ensures old(runResolver).Some? ==>
        resolvers == old(resolvers)[old(runResolver).value := if ok then Resolved(old(running).value) else Failed(old(running).value)]
    {
      hide Spaced, Settling;
      EndsWell(runs, running.value, now, throttledUntil, throttleMs);
      EndSettles(resolvers, scheduledResolver, runResolver, calls, |runs|, aborted, ok);
      if runResolver.Some? {
        resolvers := resolvers[runResolver.value := if ok then Resolved(running.value) else Failed(running.value)];
      }
      runs := runs[running.value := runs[running.value].(end := Some(now))];
      runResolver, running := None, None;
    }

    /** The abort signal's listener. */
    method Abort()
      requires Valid() && !aborted
      modifies this
      ensures Valid() && OnlySettles() && aborted && runs == old(runs)
      ensures |resolvers| == |old(resolvers)|
      ensures forall r :: 0 <= r < |resolvers| ==> resolvers[r] == if old(resolvers)[r] == Pending then Rejected else old(resolvers)[r]
    {
      hide Spaced, Settling;
      AbortSettles(resolvers, scheduledResolver, runResolver, calls, running.Some?, |runs|);
      aborted := true;
      if runResolver.Some? {
        resolvers := resolvers[runResolver.value := Rejected];
      }
      if scheduledResolver.Some? {
        resolvers := resolvers[scheduledResolver.value := Rejected];
      }
      runResolver, scheduledResolver := None, None;
    }
  }

  lemma StartSettles(resolvers: seq<Settlement>, scheduled: nat, current: Option<nat>, calls: seq<Call>, started: nat, aborted: bool)
    requires Settling(resolvers, Some(scheduled), current, calls, false, started, aborted)
    ensures !aborted && Settling(resolvers, None, Some(scheduled), calls, true, started + 1, aborted)
  {
  }

  lemma EndSettles(resolvers: seq<Settlement>, scheduled: Option<nat>, current: Option<nat>, calls: seq<Call>, started: nat,
                   aborted: bool, ok: bool)
    requires Settling(resolvers, scheduled, current, calls, true, started, aborted) && started > 0
    ensures current.Some? ==> current.value < |resolvers| && resolvers[current.value] == Pending && !aborted
    ensures var s := if ok then Resolved(started - 1) else Failed(started - 1);
      var after := if current.None? then resolvers else resolvers[current.value := s];
      Settling(after, scheduled, None, calls, false, started, aborted)
  {
  }

  lemma AbortSettles(resolvers: seq<Settlement>, scheduled: Option<nat>, current: Option<nat>, calls: seq<Call>, running: bool,
                     started: nat)
    requires Settling(resolvers, scheduled, current, calls, running, started, false)
    ensures scheduled.Some? ==> scheduled.value < |resolvers|
    ensures current.Some? ==> current.value < |resolvers|
    ensures var first := if current.None? then resolvers else resolvers[current.value := Rejected];
      var after := if scheduled.None? then first else first[scheduled.value := Rejected];
      && Settling(after, None, None, calls, running, started, true) && |after| == |resolvers|
      && forall r :: 0 <= r < |resolvers| ==> after[r] == if resolvers[r] == Pending then Rejected else resolvers[r]
  {
  }

  lemma StartsApart(runs: seq<Run>, now: int, throttledUntil: int, throttleMs: nat)
    requires Spaced(runs, None, now, throttledUntil, throttleMs) && (throttledUntil <= now || runs == [])
    ensures Spaced(runs + [Run(now, None)], Some(|runs|), now, now + throttleMs, throttleMs)
  {
    forall i | 0 <= i < |runs| ensures Apart(runs[i], Run(now, None), throttleMs) {
      if i < |runs| - 1 { assert Apart(runs[i], runs[|runs| - 1], throttleMs); }
    }
  }

  lemma EndsWell(runs: seq<Run>, running: nat, now: int, throttledUntil: int, throttleMs: nat)
    requires Spaced(runs, Some(running), now, throttledUntil, throttleMs)
    ensures running == |runs| - 1
    ensures Spaced(runs[running := runs[running].(end := Some(now))], None, now, throttledUntil, throttleMs)
  {
    forall i | 0 <= i < running ensures Apart(runs[i], runs[running].(end := Some(now)), throttleMs) {
      assert Apart(runs[i], runs[running], throttleMs);
    }
  }

  // ----- whole runs

  /** An event is possible when what it stands for can happen. */
  ghost predicate Enabled(s: ProcessScheduler, e: Event)
    reads s
  {
    match e
    case Tick(_) => true
    case Scheduled => true
    case RunAwaited => s.waiting.Some? && s.waiting.value.ForRun? && (s.waiting.value.run.Some? ==> s.waiting.value.run != s.running)
    case ThrottleAwaited =>
      s.waiting.Some? && s.waiting.value.ForThrottle? && (s.waiting.value.until <= s.now || |s.runs| == 0 || s.aborted)
    case IdleAwaited => s.waiting == Some(ForIdle)
    case RunEnded(_) => s.running.Some?
    case AbortSignalled => !s.aborted
  }

  datatype Event = Tick(ms: nat) | Scheduled | RunAwaited | ThrottleAwaited | IdleAwaited | RunEnded(ok: bool) | AbortSignalled

  method Handle(s: ProcessScheduler, e: Event)
    requires s.Valid() && Enabled(s, e)
    modifies s
    ensures s.Valid() && s.OnlySettles()
    ensures e.RunAwaited? || e.ThrottleAwaited? || e.IdleAwaited? || e.RunEnded? ==> Distance(s) < old(Distance(s))
    ensures e.Tick? ==> Distance(s) == old(Distance(s))
  {
    hide Spaced, Settling;
    match e {
      case Tick(ms) => s.Pass(ms);
      case Scheduled => var _ := s.Schedule();
      case RunAwaited => s.RunAwaited();
      case ThrottleAwaited => s.ThrottleAwaited();
      case IdleAwaited => s.IdleAwaited();
      case RunEnded(ok) => s.RunEnds(ok);
      case AbortSignalled => s.Abort();
    }
  }

  /** How far the oldest pending promise is from being settled, in steps of the scheduler's own. */
  ghost function Distance(s: ProcessScheduler): nat
    reads s
  {
    (if s.running.Some? then 1 else 0)
    + if s.waiting.None? then 0 else
        match s.waiting.value
        case ForRun(_) => 6
        case ForThrottle(_) => 4
        case ForIdle => 2
  }

  /** Nobody waits for ever: while a promise is pending, a step is possible, if need be after some time, that brings it closer. */
  lemma AlwaysProgress(s: ProcessScheduler)
    requires s.Valid() && exists r :: 0 <= r < |s.resolvers| && s.resolvers[r] == Pending
    ensures Distance(s) > 0
    ensures s.running.Some? || s.waiting.Some?
    ensures s.running.None? && s.waiting.Some? ==>
      || Enabled(s, RunAwaited) || Enabled(s, IdleAwaited) || Enabled(s, ThrottleAwaited)
      || (s.waiting.value.ForThrottle? && s.now < s.waiting.value.until)
  {
  }
}
