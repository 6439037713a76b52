/**
 The connection loop, one method per stretch of code between two awaits. The options of the delegate do not change, and it
 allows at least one connection.
 */
module ConnectionLoop {
  import L = Lists
  import opened Wrappers

  datatype SendRecord = SendRecord(duration: nat, ok: bool)

  // ----- delays

  const CONNECTION_MEMORY_COUNT := 9

  /** `pace` stands for the median of the durations, divided by the number of connections; pushes have no watchdog timer. */
  datatype Options = Options(maxConnections: nat, minDelayMs: nat, maxDelayMs: nat, watchdogTimer: Option<nat>,
                             pace: seq<nat> -> int)

  function Min(a: int, b: int): int { if a < b then a else b }
  function Max(a: int, b: int): int { if a < b then b else a }

  predicate LastFailed(records: seq<SendRecord>) {
    records != [] && !records[|records| - 1].ok
  }

  predicate Recovered(records: seq<SendRecord>) {
    |records| > 1 && !records[|records| - 2].ok && records[|records| - 1].ok
  }

  function Pruned(records: seq<SendRecord>): seq<SendRecord> {
    if LastFailed(records) || |records| <= CONNECTION_MEMORY_COUNT then records
    else records[|records| - CONNECTION_MEMORY_COUNT..]
  }

  function Durations(records: seq<SendRecord>): seq<nat> {
    if records == [] then [] else
      Durations(records[..|records| - 1])
      + if records[|records| - 1].ok then [records[|records| - 1].duration] else []
  }

  predicate Succeeded(r: SendRecord) { r.ok }

  ghost predicate AreDurations(durations: seq<nat>, records: seq<SendRecord>, at: seq<nat>) {
    |durations| == |at| && forall i :: 0 <= i < |at| ==> at[i] < |records| && durations[i] == records[at[i]].duration
  }

  /** The durations of the successful requests, in order. */
  lemma {:induction false} DurationsAre(records: seq<SendRecord>) returns (at: seq<nat>)
    ensures L.Places(at, records, Succeeded) && AreDurations(Durations(records), records, at)
  {
    hide L.Places;
    if records == [] {
      at := [];
      L.Nothing(Succeeded);
    } else {
      var n := |records| - 1;
      at := DurationsAre(records[..n]);
      L.PlacesAtEnd(at, records, Succeeded);
      at := if records[n].ok then at + [n] else at;
    }
  }

  function NextDelay(delay: int, o: Options, records: seq<SendRecord>): int {
    if records == [] then delay
    else if LastFailed(records) then (if delay == 0 then o.minDelayMs else delay * 2)
    else if Recovered(records) then o.minDelayMs
    else o.pace(Durations(Pruned(records)))
  }

  /** `computeDelayAndUpdateDurations` */
  method ComputeDelayAndUpdateDurations(delay: int, o: Options, records: seq<SendRecord>)
    returns (next: int, remembered: seq<SendRecord>)
    ensures next == NextDelay(delay, o, records) && remembered == Pruned(records)
    ensures records == [] ==> next == delay && remembered == []
    ensures records != [] && !records[|records| - 1].ok ==>
      remembered == records && next == if delay == 0 then o.minDelayMs else 2 * delay
    ensures records != [] && records[|records| - 1].ok ==>
      && remembered == (if |records| <= CONNECTION_MEMORY_COUNT then records else records[|records| - CONNECTION_MEMORY_COUNT..])
      && next == if |records| > 1 && !records[|records| - 2].ok then o.minDelayMs else o.pace(Durations(remembered))
  {
    hide Durations;
    remembered := records;
    if |records| == 0 {
      return delay, remembered;
    }
    if !records[|records| - 1].ok {
      return if delay == 0 then o.minDelayMs else delay * 2, remembered;
    }
    if |records| > 1 {
      var previous := records[|records| - 2];
      while |remembered| > CONNECTION_MEMORY_COUNT
        invariant remembered == records[|records| - |remembered|..]
        invariant |remembered| >= Min(CONNECTION_MEMORY_COUNT, |records|)
      {
        remembered := remembered[1..];
      }
      if !previous.ok {
        return o.minDelayMs, remembered;
      }
    }
    next := o.pace(Durations(remembered));
  }

  /** The failures since the last success. */
  function Failures(records: seq<SendRecord>): nat {
    if !LastFailed(records) then 0 else 1 + Failures(records[..|records| - 1])
  }

  /** The last requests have failed, the one before them has not. */
  lemma {:induction false} FailuresAre(records: seq<SendRecord>)
    ensures var k := Failures(records);
      && k <= |records| && (forall i :: |records| - k <= i < |records| ==> !records[i].ok)
      && (k < |records| ==> records[|records| - k - 1].ok)
  {
    if LastFailed(records) { FailuresAre(records[..|records| - 1]); }
  }

  function Pow2(n: nat): nat {
    if n == 0 then 1 else 2 * Pow2(n - 1)
  }

  /** Exponential backoff: nothing without failures, then the minimum, doubled with each further failure. */
  function Backoff(min: nat, failures: nat): nat {
    if failures == 0 then 0 else min * Pow2(failures - 1)
  }

  lemma BackoffDoubles(min: nat, failures: nat)
    requires failures > 0
    ensures Backoff(min, failures + 1) == 2 * Backoff(min, failures)
    ensures Backoff(min, failures) >= min
  {
    assert Pow2(failures) == 2 * Pow2(failures - 1);
    assert min * Pow2(failures) == 2 * (min * Pow2(failures - 1));
    PowerIsPositive(failures - 1);
    assert min * Pow2(failures - 1) >= min;
  }

  lemma {:induction false} PowerIsPositive(n: nat)
    ensures Pow2(n) >= 1
  {
    if n > 0 { PowerIsPositive(n - 1); }
  }

  lemma FailuresAfter(records: seq<SendRecord>, r: SendRecord)
    ensures Failures(records + [r]) == if r.ok then 0 else Failures(records) + 1
  {
    assert (records + [r])[..|records|] == records;
  }

  /** One more failure than the last delay has accounted for: the next delay accounts for it. */
  lemma NextDelayBacksOff(delay: int, o: Options, records: seq<SendRecord>)
    requires LastFailed(records) && delay == Backoff(o.minDelayMs, Failures(records) - 1)
    ensures NextDelay(delay, o, records) == Backoff(o.minDelayMs, Failures(records))
  {
    var k := Failures(records);
    assert Pow2(0) == 1;
    if k > 1 { BackoffDoubles(o.minDelayMs, k - 1); }
  }

  // ----- the state

  datatype Phase = Pending | Debounce | ForConnection(woken: bool) | Sleep(until: int, recovered: bool) | Ended

  datatype Outcome = Success | SendError | Closed

  /** A call of `send`: it may have to wait for the document to become visible, before it waits for the next request to end. */
  datatype Waiter = Hidden | Waiting(resolver: nat, startedBefore: nat) | Done(outcome: Outcome)

  datatype Start = Start(time: int, hurried: bool)

  /** As many connections are counted as there are requests under way, and there is one to spare when a request starts. */
  ghost predicate Counting(phase: Phase, counter: nat, flying: set<nat>, o: Options, started: nat, closed: bool) {
    && o.maxConnections > 0
    && counter <= o.maxConnections
    && |flying| <= o.maxConnections && (!closed ==> counter == |flying|)
    && (forall id :: id in flying ==> id < started)
    && (!closed && phase.ForConnection? ==> if phase.woken then counter < o.maxConnections else counter == o.maxConnections)
    && (!closed && phase.Sleep? ==> counter < o.maxConnections)
    && (phase.Ended? ==> closed)
  }

  /** Every resolver but the last has been resolved; close resolves the last one if anybody waits. */
  ghost predicate Settling(resolvers: seq<Option<Outcome>>, waiters: seq<Waiter>, sendCounter: nat, started: nat, closed: bool) {
    && resolvers != []
    && (forall r :: 0 <= r < |resolvers| - 1 ==> resolvers[r].Some?)
    && (!closed ==> resolvers[|resolvers| - 1].None?)
    && (forall k :: 0 <= k < |waiters| && waiters[k].Waiting? ==>
          waiters[k].resolver < |resolvers| && waiters[k].startedBefore <= started)
    && sendCounter == Unsettled(waiters)
    && (closed && sendCounter > 0 ==> resolvers[|resolvers| - 1].Some?)
  }

  function Unsettled(waiters: seq<Waiter>): nat {
    if waiters == [] then 0 else Unsettled(waiters[..|waiters| - 1]) + if waiters[|waiters| - 1].Done? then 0 else 1
  }

  /** A call that asks for a request keeps the loop going until a request has started. */
  ghost predicate Going(phase: Phase, pending: bool, waiters: seq<Waiter>, started: nat, closed: bool) {
    forall k :: 0 <= k < |waiters| && waiters[k].Waiting? && waiters[k].startedBefore == started && !closed
      ==> pending || !phase.Pending?
  }

  /** A call that has no answer yet has seen no request end that was started after it. */
  ghost predicate Awaiting(resolvers: seq<Option<Outcome>>, waiters: seq<Waiter>, flying: set<nat>, started: nat, closed: bool) {
    !closed ==>
      forall k, id :: (0 <= k < |waiters| && waiters[k].Waiting? && waiters[k].resolver == |resolvers| - 1
                       && waiters[k].startedBefore <= id < started) ==> id in flying
  }

  /** With one connection, the delay accounts for all failures once the loop has come past it. */
  ghost predicate BackingOff(phase: Phase, counter: nat, delay: int, o: Options, records: seq<SendRecord>, closed: bool,
                             ended: nat)
  {
    o.maxConnections == 1 && !closed ==>
      && |records| == ended
      && if phase.Sleep? || counter == 1 then delay == Backoff(o.minDelayMs, Failures(records))
         else LastFailed(records) ==> delay == Backoff(o.minDelayMs, Failures(records) - 1)
  }

  /** The delay, but at least the minimum, and above all at most the maximum. */
  function Clamped(delay: int, o: Options): (r: int)
    ensures r <= o.maxDelayMs && (delay > o.maxDelayMs || o.minDelayMs > o.maxDelayMs ==> r == o.maxDelayMs)
    ensures o.minDelayMs <= delay <= o.maxDelayMs ==> r == delay
    ensures delay <= o.minDelayMs <= o.maxDelayMs ==> r == o.minDelayMs
  {
    Min(o.maxDelayMs, Max(o.minDelayMs, delay))
  }

  /** Requests that are not hurried along start at least the minimum delay after each other. */
  ghost predicate Paced(starts: seq<Start>, lastSendTime: Option<int>, phase: Phase, now: int, o: Options) {
    && (forall i :: 1 <= i < |starts| && !starts[i].hurried ==> Apart(starts, i, o))
    && (forall i :: 0 <= i < |starts| ==> starts[i].time <= now)
    && (lastSendTime.Some? <==> starts != [])
    && (starts != [] ==> lastSendTime.value == starts[|starts| - 1].time)
    && (phase.Sleep? ==> lastSendTime.Some? && phase.until - lastSendTime.value >= Min(o.maxDelayMs, o.minDelayMs))
  }

  /** The loop sleeps for the clamped delay, counted from the last request. */
  ghost predicate Asleep(phase: Phase, lastSendTime: Option<int>, delay: int, o: Options) {
    phase.Sleep? ==> lastSendTime.Some? && phase.until == lastSendTime.value + Clamped(delay, o)
  }

  ghost predicate Apart(starts: seq<Start>, i: nat, o: Options)
    requires 1 <= i < |starts|
  {
    starts[i].time - starts[i - 1].time >= Min(o.maxDelayMs, o.minDelayMs)
  }

  class ConnectionLoop {
    const o: Options
    var now: int
    var phase: Phase
    /** Whether the promises of `#pendingResolver` and `#skipSleepsResolver` are resolved. */
    var pending: bool
    var skipSleeps: bool
    var closed: bool
    var resolvers: seq<Option<Outcome>>
    var sendCounter: nat
    var counter: nat
    var delay: int
    var lastSendTime: Option<int>
    var sendRecords: seq<SendRecord>
    /** The calls of `send`, and the requests under way. */
    var waiters: seq<Waiter>
    var flying: set<nat>
    var starts: seq<Start>
    ghost var ended: nat

    ghost predicate Valid()
      reads this
    {
      && Counting(phase, counter, flying, o, |starts|, closed)
      && Settling(resolvers, waiters, sendCounter, |starts|, closed)
      && Going(phase, pending, waiters, |starts|, closed)
      && Awaiting(resolvers, waiters, flying, |starts|, closed)
      && BackingOff(phase, counter, delay, o, sendRecords, closed, ended)
      && Paced(starts, lastSendTime, phase, now, o) && Asleep(phase, lastSendTime, delay, o)
    }

    constructor (o: Options)
      requires o.maxConnections > 0
      ensures Valid() && this.o == o && !closed && phase == Pending && starts == [] && waiters == []
      ensures !pending && counter == 0
    {
      this.o, now, phase, pending, skipSleeps, closed := o, 0, Pending, false, false, false;
      resolvers, sendCounter, counter, delay := [None], 0, 0, 0;
      lastSendTime, sendRecords, waiters, flying, starts, ended := None, [], [], {}, [], 0;
    }

    method Pass(ms: nat)
      requires Valid()
      modifies this`now
      ensures Valid() && now == old(now) + ms
    {
      hide Counting, Settling, Going, BackingOff;
      now := now + ms;
    }

    /** `send`; the result is the call, which has its outcome at once if the loop is closed. */
    method Send(immediately: bool, visible: bool) returns (k: nat)
      requires Valid()
      modifies this`sendCounter, this`skipSleeps, this`pending, this`waiters
      ensures Valid() && k == |old(waiters)| && |waiters| == k + 1 && waiters[..k] == old(waiters)
      ensures waiters[k] == if closed then Done(Closed) else if immediately || visible then Waiting(|resolvers| - 1, |starts|) else Hidden
      ensures pending == (old(pending) || waiters[k].Waiting?) && skipSleeps == (old(skipSleeps) || (!closed && immediately))
    {
      hide Counting, Settling, Going, Awaiting, BackingOff, Paced;
      k := |waiters|;
      HasResolver(resolvers, waiters, sendCounter, |starts|, closed);
      ghost var w := if closed then Done(Closed) else if immediately || visible then Waiting(|resolvers| - 1, |starts|) else Hidden;
      Joins(resolvers, waiters, sendCounter, flying, |starts|, closed, phase, pending, w);
      if closed {
        waiters := waiters + [Done(Closed)];
        return;
      }
      sendCounter := sendCounter + 1;
      if immediately {
        skipSleeps := true;
      } else if !visible {
        waiters := waiters + [Hidden];
        return;
      }
      pending := true;
      waiters := waiters + [Waiting(|resolvers| - 1, |starts|)];
    }

    /** The document has become visible: the call goes on. */
    method Shown(k: nat)
      requires Valid() && k < |waiters| && waiters[k].Hidden?
      modifies this`pending, this`waiters
      ensures Valid() && pending && waiters == old(waiters)[k := Waiting(|resolvers| - 1, |starts|)]
    {
      hide Counting, BackingOff, Paced, Unsettled;
      pending := true;
      UnsettledUpdate(waiters, k, Waiting(|resolvers| - 1, |starts|));
      waiters := waiters[k := Waiting(|resolvers| - 1, |starts|)];
    }

    /** The promise that a call waits for has been resolved: the call returns. */
    method Returns(k: nat)
      requires Valid() && k < |waiters| && waiters[k].Waiting? && resolvers[waiters[k].resolver].Some?
      modifies this`sendCounter, this`waiters
      ensures Valid() && waiters == old(waiters)[k := Done(resolvers[old(waiters)[k].resolver].value)]
    {
      hide Counting, BackingOff, Paced, Unsettled;
      var outcome := resolvers[waiters[k].resolver].value;
      UnsettledUpdate(waiters, k, Done(outcome));
      sendCounter := sendCounter - 1;
      waiters := waiters[k := Done(outcome)];
    }

    /** `close` */
    method Close()
      requires Valid()
      modifies this`closed, this`resolvers
      ensures Valid() && closed
      ensures resolvers == if old(sendCounter > 0 && resolvers[|resolvers| - 1].None?)
                           then old(resolvers)[|old(resolvers)| - 1 := Some(Closed)] else old(resolvers)
      ensures Settled(old(resolvers), resolvers, if old(sendCounter) > 0 then Some(Closed) else None)
      ensures forall k :: 0 <= k < |waiters| && waiters[k].Waiting? ==> resolvers[waiters[k].resolver].Some?
    {
      hide Paced, Unsettled;
      closed := true;
      if sendCounter > 0 && resolvers[|resolvers| - 1].None? {
        resolvers := resolvers[|resolvers| - 1 := Some(Closed)];
      }
      forall k | 0 <= k < |waiters| && waiters[k].Waiting? ensures resolvers[waiters[k].resolver].Some? {
        UnsettledUpdate(waiters, k, Hidden);
      }
    }

    // ----- the loop

    /** A step of the loop leaves the calls and the clock alone. */
    twostate predicate SameCalls()
      reads this
    {
      waiters == old(waiters) && sendCounter == old(sendCounter) && closed == old(closed) && now == old(now)
    }

    /** `send` has been called, a request has failed, or the watchdog timer has fired or was cut short by `close`. */
    method Wake(watchdog: bool)
      requires Valid() && phase.Pending? && (pending || (watchdog && o.watchdogTimer.Some?))
      modifies this`phase
      ensures Valid() && phase == if closed then Ended else Debounce
    {
      hide Settling, Paced, BackingOff;
      Moves(phase, if closed then Ended else Debounce, counter, delay, o, sendRecords, closed, ended, starts, lastSendTime, now);
      phase := if closed then Ended else Debounce;
    }

    /** The debounce delay is over, or skipped. */
    method Debounced()
      requires Valid() && phase.Debounce?
      modifies this
      ensures Valid() && closed == old(closed) && resolvers == old(resolvers) && waiters == old(waiters)
      ensures if closed then phase == Ended && OnlyMoved()
              else if old(counter) >= o.maxConnections then phase == ForConnection(false) && OnlyMoved()
              else Onward()
      ensures !closed ==> !pending
    {
      hide Settling, Paced, BackingOff;
      if closed {
        Moves(phase, Ended, counter, delay, o, sendRecords, closed, ended, starts, lastSendTime, now);
        phase := Ended;
        return;
      }
      pending := false;
      if counter >= o.maxConnections {
        Moves(phase, ForConnection(false), counter, delay, o, sendRecords, closed, ended, starts, lastSendTime, now);
        phase := ForConnection(false);
        return;
      }
      PaceAndSend();
    }

    /** A request has ended while the loop was waiting for that. */
    method ConnectionFree()
      requires Valid() && phase == ForConnection(true)
      modifies this
      ensures Valid() && closed == old(closed) && resolvers == old(resolvers) && waiters == old(waiters)
      ensures if closed then phase == Ended && OnlyMoved() else Onward()
    {
      hide Settling, Paced, BackingOff;
      if closed {
        Moves(phase, Ended, counter, delay, o, sendRecords, closed, ended, starts, lastSendTime, now);
        phase := Ended;
        return;
      }
      PaceAndSend();
    }

    /**
     The delay has been computed from the records if a request is under way or the last one failed; then either the loop
     sleeps until it has passed since the last request, or it has passed and the next request has started.
     */
    twostate predicate Onward()
      reads this
    {
      && (if old(counter) > 0 || LastFailed(old(sendRecords)) then
            delay == NextDelay(old(delay), o, old(sendRecords)) && sendRecords == Pruned(old(sendRecords))
          else delay == 0 && sendRecords == old(sendRecords))
      && SameCalls() && resolvers == old(resolvers)
      && if old(lastSendTime).Some? && now < old(lastSendTime).value + Clamped(delay, o) then
           && phase == Sleep(old(lastSendTime).value + Clamped(delay, o), false)
           && starts == old(starts) && counter == old(counter) && flying == old(flying)
           && lastSendTime == old(lastSendTime) && skipSleeps == old(skipSleeps)
         else Started(false)
    }

    /** The loop has only moved on. */
    twostate predicate OnlyMoved()
      reads this
    {
      && starts == old(starts) && flying == old(flying) && counter == old(counter) && delay == old(delay)
      && sendRecords == old(sendRecords) && lastSendTime == old(lastSendTime) && skipSleeps == old(skipSleeps)
    }

    /** The next request has started. */
    twostate predicate Started(hurried: bool)
      reads this
    {
      && phase.Pending? && starts == old(starts) + [Start(now, hurried)] && lastSendTime == Some(now)
      && counter == old(counter) + 1 && flying == old(flying) + {|old(starts)|} && !skipSleeps
    }

    /** Compute the delay, and sleep unless enough time has passed. */
    method PaceAndSend()
      requires !closed && !phase.Sleep? && !phase.Pending? && counter < o.maxConnections
      requires Counting(phase, counter, flying, o, |starts|, closed)
      requires Settling(resolvers, waiters, sendCounter, |starts|, closed)
      requires Awaiting(resolvers, waiters, flying, |starts|, closed)
      requires BackingOff(phase, counter, delay, o, sendRecords, closed, ended)
      requires Paced(starts, lastSendTime, phase, now, o)
      modifies this
      ensures Valid() && !closed && resolvers == old(resolvers) && waiters == old(waiters)
      ensures Onward() && pending == old(pending)
      ensures o.maxConnections == 1 ==> delay == Backoff(o.minDelayMs, Failures(sendRecords)) && sendRecords == old(sendRecords)
    {
      hide Counting, Settling, Awaiting, Going, Paced, Failures, Backoff, NextDelay, Pruned, Clamped;
      LastIsKnown(starts, lastSendTime, phase, now, o);
      if o.maxConnections == 1 { AccountsFor(phase, counter, delay, o, sendRecords, ended); }
      if counter > 0 || LastFailed(sendRecords) {
        delay, sendRecords := ComputeDelayAndUpdateDurations(delay, o, sendRecords);
      } else {
        delay := 0;
      }
      var clampedDelay := Clamped(delay, o);
      if lastSendTime.Some? {
        var timeSinceLastSend := now - lastSendTime.value;
        if clampedDelay > timeSinceLastSend {
          Sleeps(starts, lastSendTime, phase, now, delay, o);
          StillCounts(phase, counter, flying, o, |starts|, lastSendTime.value + clampedDelay);
          AsleepGoes(pending, waiters, |starts|, lastSendTime.value + clampedDelay);
          phase := Sleep(lastSendTime.value + clampedDelay, false);
          return;
        }
      }
      ClampedIsMinimum(delay, o);
      StartSend(false);
    }

    /** The delay is over, or it is skipped, or requests have begun to succeed again. */
    method Slept()
      requires Valid() && phase.Sleep? && (phase.until <= now || skipSleeps || phase.recovered)
      modifies this
      ensures Valid() && closed == old(closed) && resolvers == old(resolvers) && waiters == old(waiters)
      ensures if closed then phase == Ended && OnlyMoved()
              else Started(old(now < phase.until)) && pending == old(pending)
    {
      hide Settling, Failures, Backoff;
      if closed {
        Moves(phase, Ended, counter, delay, o, sendRecords, closed, ended, starts, lastSendTime, now);
        phase := Ended;
        return;
      }
      StartSend(now < phase.until);
    }

    /** The next request: up to the await of `invokeSend`. */
    method StartSend(hurried: bool)
      requires !closed && counter < o.maxConnections
      requires Counting(phase, counter, flying, o, |starts|, closed)
      requires Settling(resolvers, waiters, sendCounter, |starts|, closed)
      requires Awaiting(resolvers, waiters, flying, |starts|, closed)
      requires Paced(starts, lastSendTime, phase, now, o)
      requires !hurried && starts != [] ==> now - lastSendTime.value >= Min(o.maxDelayMs, o.minDelayMs)
      requires o.maxConnections == 1 ==>
        |sendRecords| == ended && delay == Backoff(o.minDelayMs, Failures(sendRecords))
      modifies this`phase, this`counter, this`lastSendTime, this`skipSleeps, this`flying, this`starts
      ensures Valid() && Started(hurried) && pending == old(pending) && resolvers == old(resolvers)
      ensures SameCalls() && delay == old(delay) && sendRecords == old(sendRecords)
    {
      hide Failures, Backoff, Counting, Settling, Going, Awaiting, Paced;
      Takes(phase, counter, flying, o, |starts|);
      StartAwaited(resolvers, waiters, sendCounter, flying, |starts|, pending);
      StartPaced(starts, lastSendTime, phase, now, o, hurried);
      counter := counter + 1;
      lastSendTime := Some(now);
      skipSleeps := false;
      flying := flying + {|starts|};
      starts := starts + [Start(now, hurried)];
      phase := Pending;
    }

    /** A request ends. After `close` it leaves everything as it is, so that a loop waiting for a connection waits for ever. */
    method SendEnds(id: nat, ok: bool, error: bool)
      requires Valid() && id in flying && (error ==> !ok)
      modifies this`flying, this`sendRecords, this`ended, this`counter, this`phase, this`resolvers, this`pending
      ensures Valid() && flying == old(flying) - {id}
      ensures closed ==> phase == old(phase) && resolvers == old(resolvers) && counter == old(counter) && pending == old(pending)
      ensures !closed ==> Tells(id, ok, error)
    {
      hide Counting, Settling, Going, Awaiting, BackingOff, Paced, Answer;
      if closed {
        ClosedLanding(phase, counter, flying, o, |starts|, resolvers, waiters, id);
        flying := flying - {id};
      } else {
        OpenResolver(resolvers, waiters, sendCounter, |starts|);
        Tell(resolvers, if error then SendError else Success);
        Land(id, ok, error);
      }
    }

    /** Everybody who waits is told the outcome, and the loop goes on. */
    twostate predicate Tells(id: nat, ok: bool, error: bool)
      reads this
    {
      && GoesOn(ok) && Remembers(id, ok) && |resolvers| == |old(resolvers)| + 1
      && Settled(old(resolvers), resolvers, Some(if error then SendError else Success))
    }

    /** A loop that waits for a connection gets it, one that sleeps is woken by the first success after a failure. */
    twostate predicate GoesOn(ok: bool)
      reads this
    {
      && counter == old(counter) - 1 && pending == (old(pending) || !ok)
      && match old(phase)
         case ForConnection(_) => phase == ForConnection(true)
         case Sleep(until, was) =>
           phase == Sleep(until, was || (ok && old(sendRecords) != [] && !old(sendRecords)[|old(sendRecords)| - 1].ok))
         case _ => phase == old(phase)
    }

    /** The request has been recorded, with the time that it took. */
    twostate predicate Remembers(id: nat, ok: bool)
      reads this
    {
      && |sendRecords| == |old(sendRecords)| + 1 && sendRecords[..|old(sendRecords)|] == old(sendRecords)
      && var record := sendRecords[|old(sendRecords)|];
         record.ok == ok && id < |starts| && (starts[id].time <= now ==> starts[id].time + record.duration == now)
    }

    /** What the end of a request changes: everybody who waits for it has an answer, and the loop is woken. */
    twostate predicate Landed(id: nat, ok: bool, error: bool)
      reads this
    {
      && counter == old(counter) - 1
      && old(resolvers) != [] && old(resolvers)[|old(resolvers)| - 1].None?
      && resolvers == Answer(old(resolvers), if error then SendError else Success)
      && pending == (old(pending) || !ok)
      && id < |starts| && sendRecords == old(sendRecords) + [Record(now, starts[id].time, ok)]
      && phase == Woken(old(phase), Recovered(sendRecords))
    }

    method Land(id: nat, ok: bool, error: bool)
      requires Valid() && !closed && id in flying && (error ==> !ok)
      modifies this`flying, this`sendRecords, this`ended, this`counter, this`phase, this`resolvers, this`pending
      ensures Valid() && flying == old(flying) - {id} && Landed(id, ok, error)
    {
      hide Counting, Settling, Going, Awaiting, BackingOff, Paced, Woken, Recovered, Answer, Record;
      AnswerCalls(if error then SendError else Success, ok);
      FreeConnection(id, ok);
    }

    /** Resolve the current send resolver; a failed request is tried again. */
    method AnswerCalls(outcome: Outcome, ok: bool)
      requires Valid() && !closed
      modifies this`resolvers, this`pending
      ensures Valid() && Unawaited(resolvers, waiters)
      ensures old(resolvers) != [] && old(resolvers)[|old(resolvers)| - 1].None? && resolvers == Answer(old(resolvers), outcome)
      ensures pending == (old(pending) || !ok)
    {
      hide Counting, Settling, Going, Awaiting, BackingOff, Paced, Answer, Unawaited;
      LandingAnswers(resolvers, waiters, sendCounter, |starts|, flying, outcome);
      LandingGoesOn(phase, phase, pending, waiters, |starts|, pending || !ok);
      resolvers := Answer(resolvers, outcome);
      if !ok {
        pending := true;
      }
    }

    /** Record the request and wake the loop. */
    method FreeConnection(id: nat, ok: bool)
      requires Valid() && !closed && id in flying && Unawaited(resolvers, waiters)
      modifies this`flying, this`sendRecords, this`ended, this`counter, this`phase
      ensures Valid() && flying == old(flying) - {id} && counter == old(counter) - 1
      ensures id < |starts| && sendRecords == old(sendRecords) + [Record(now, starts[id].time, ok)]
      ensures phase == Woken(old(phase), Recovered(sendRecords))
    {
      hide Counting, Settling, Going, Awaiting, BackingOff, Paced, Woken, Recovered, Record, Unawaited;
      FlyingHasStarted(phase, counter, flying, o, id, starts, lastSendTime, now);
      var record := Record(now, starts[id].time, ok);
      var next := Woken(phase, Recovered(sendRecords + [record]));
      RecordIs(now, starts[id].time, ok);
      Lands(phase, next, counter, flying, o, |starts|, id);
      LandingBacksOff(phase, next, counter, flying, delay, o, |starts|, sendRecords, ended, id, record);
      LandingGoesOn(phase, next, pending, waiters, |starts|, pending);
      StaysPaced(starts, lastSendTime, phase, next, now, o);
      StaysAsleep(phase, next, lastSendTime, delay, o);
      LeavesNobody(resolvers, waiters, flying - {id}, |starts|);
      flying := flying - {id};
      sendRecords := sendRecords + [record];
      ended := ended + 1;
      counter := counter - 1;
      phase := next;
    }
  }

  ghost predicate Unawaited(resolvers: seq<Option<Outcome>>, waiters: seq<Waiter>) {
    forall k :: 0 <= k < |waiters| && waiters[k].Waiting? ==> waiters[k].resolver < |resolvers| - 1
  }

  function Record(now: int, start: int, ok: bool): SendRecord {
    SendRecord(if start <= now then now - start else 0, ok)
  }

  /** The current resolver is resolved and replaced. */
  function Answer(resolvers: seq<Option<Outcome>>, outcome: Outcome): seq<Option<Outcome>>
    requires resolvers != []
  {
    resolvers[|resolvers| - 1 := Some(outcome)] + [None]
  }

  /** What becomes of the promises: those that have an outcome keep it, those that have none get this one, if there is one. */
  ghost predicate Settled(was: seq<Option<Outcome>>, resolvers: seq<Option<Outcome>>, outcome: Option<Outcome>) {
    |was| <= |resolvers| && forall r :: 0 <= r < |was| ==> resolvers[r] == if was[r].Some? then was[r] else outcome
  }

  /** What the end of a request does to the loop. */
  function Woken(phase: Phase, recovered: bool): Phase {
    match phase
    case ForConnection(_) => ForConnection(true)
    case Sleep(until, was) => Sleep(until, was || recovered)
    case _ => phase
  }

  // ----- why the steps keep the invariant

  lemma Moves(phase: Phase, next: Phase, counter: nat, delay: int, o: Options, records: seq<SendRecord>, closed: bool, ended: nat,
              starts: seq<Start>, last: Option<int>, now: int)
    requires Paced(starts, last, phase, now, o) && BackingOff(phase, counter, delay, o, records, closed, ended)
    requires !next.Sleep? && (closed || !phase.Sleep?)
    ensures Paced(starts, last, next, now, o) && BackingOff(next, counter, delay, o, records, closed, ended)
  {
    hide Failures, Backoff, LastFailed;
  }

  /** With one connection, no request is under way when the delay is computed, and no record is forgotten. */
  lemma AccountsFor(phase: Phase, counter: nat, delay: int, o: Options, records: seq<SendRecord>, ended: nat)
    requires BackingOff(phase, counter, delay, o, records, false, ended) && !phase.Sleep? && o.maxConnections == 1 && counter == 0
    ensures |records| == ended && Pruned(records) == if LastFailed(records) then records else Pruned(records)
    ensures Backoff(o.minDelayMs, Failures(records)) == if LastFailed(records) then NextDelay(delay, o, records) else 0
  {
    hide NextDelay, Pow2;
    if LastFailed(records) {
      NextDelayBacksOff(delay, o, records);
    }
  }

  lemma LastIsKnown(starts: seq<Start>, last: Option<int>, phase: Phase, now: int, o: Options)
    requires Paced(starts, last, phase, now, o)
    ensures last.Some? <==> starts != []
  {
  }

  lemma StillCounts(phase: Phase, counter: nat, flying: set<nat>, o: Options, started: nat, until: int)
    requires Counting(phase, counter, flying, o, started, false) && counter < o.maxConnections
    ensures Counting(Sleep(until, false), counter, flying, o, started, false)
  {
  }

  lemma AsleepGoes(pending: bool, waiters: seq<Waiter>, started: nat, until: int)
    ensures Going(Sleep(until, false), pending, waiters, started, false)
  {
  }

  lemma ClampedIsMinimum(delay: int, o: Options)
    ensures Clamped(delay, o) >= Min(o.maxDelayMs, o.minDelayMs)
  {
  }

  lemma Sleeps(starts: seq<Start>, last: Option<int>, phase: Phase, now: int, delay: int, o: Options)
    requires Paced(starts, last, phase, now, o) && last.Some?
    ensures Paced(starts, last, Sleep(last.value + Clamped(delay, o), false), now, o)
  {
  }

  lemma StaysPaced(starts: seq<Start>, last: Option<int>, phase: Phase, next: Phase, now: int, o: Options)
    requires Paced(starts, last, phase, now, o) && IsWoken(phase, next)
    ensures Paced(starts, last, next, now, o)
  {
  }

  lemma StaysAsleep(phase: Phase, next: Phase, last: Option<int>, delay: int, o: Options)
    requires Asleep(phase, last, delay, o) && IsWoken(phase, next)
    ensures Asleep(next, last, delay, o)
  {
  }

  lemma Takes(phase: Phase, counter: nat, flying: set<nat>, o: Options, started: nat)
    requires Counting(phase, counter, flying, o, started, false) && counter < o.maxConnections
    ensures Counting(Pending, counter + 1, flying + {started}, o, started + 1, false)
  {
  }

  lemma StartAwaited(resolvers: seq<Option<Outcome>>, waiters: seq<Waiter>, sendCounter: nat, flying: set<nat>, started: nat,
                     pending: bool)
    requires Settling(resolvers, waiters, sendCounter, started, false) && Awaiting(resolvers, waiters, flying, started, false)
    ensures Settling(resolvers, waiters, sendCounter, started + 1, false)
    ensures Awaiting(resolvers, waiters, flying + {started}, started + 1, false)
    ensures Going(Pending, pending, waiters, started + 1, false)
  {
    hide Unsettled;
  }

  lemma StartPaced(starts: seq<Start>, last: Option<int>, phase: Phase, now: int, o: Options, hurried: bool)
    requires Paced(starts, last, phase, now, o)
    requires !hurried && starts != [] ==> now - last.value >= Min(o.maxDelayMs, o.minDelayMs)
    ensures Paced(starts + [Start(now, hurried)], Some(now), Pending, now, o)
  {
    var after := starts + [Start(now, hurried)];
    forall i | 1 <= i < |after| && !after[i].hurried ensures Apart(after, i, o) {
      if i < |starts| { assert Apart(starts, i, o); }
    }
  }

  lemma Tell(resolvers: seq<Option<Outcome>>, outcome: Outcome)
    requires resolvers != [] && resolvers[|resolvers| - 1].None? && forall r :: 0 <= r < |resolvers| - 1 ==> resolvers[r].Some?
    ensures |Answer(resolvers, outcome)| == |resolvers| + 1 && Settled(resolvers, Answer(resolvers, outcome), Some(outcome))
  {
  }

  lemma OpenResolver(resolvers: seq<Option<Outcome>>, waiters: seq<Waiter>, sendCounter: nat, started: nat)
    requires Settling(resolvers, waiters, sendCounter, started, false)
    ensures forall r :: 0 <= r < |resolvers| - 1 ==> resolvers[r].Some?
    ensures resolvers != [] && resolvers[|resolvers| - 1].None?
  {
  }

  lemma HasResolver(resolvers: seq<Option<Outcome>>, waiters: seq<Waiter>, sendCounter: nat, started: nat, closed: bool)
    requires Settling(resolvers, waiters, sendCounter, started, closed)
    ensures |resolvers| > 0
  {
  }

  lemma Joins(resolvers: seq<Option<Outcome>>, waiters: seq<Waiter>, sendCounter: nat, flying: set<nat>, started: nat, closed: bool,
              phase: Phase, pending: bool, w: Waiter)
    requires Settling(resolvers, waiters, sendCounter, started, closed) && Awaiting(resolvers, waiters, flying, started, closed)
    requires Going(phase, pending, waiters, started, closed)
    requires if closed then w == Done(Closed) else w == Hidden || w == Waiting(|resolvers| - 1, started)
    ensures Settling(resolvers, waiters + [w], if closed then sendCounter else sendCounter + 1, started, closed)
    ensures Awaiting(resolvers, waiters + [w], flying, started, closed)
    ensures Going(phase, pending || w.Waiting?, waiters + [w], started, closed)
  {
    assert (waiters + [w])[..|waiters|] == waiters;
  }

  lemma ClosedLanding(phase: Phase, counter: nat, flying: set<nat>, o: Options, started: nat, resolvers: seq<Option<Outcome>>,
                      waiters: seq<Waiter>, id: nat)
    requires Counting(phase, counter, flying, o, started, true) && Awaiting(resolvers, waiters, flying, started, true)
    ensures Counting(phase, counter, flying - {id}, o, started, true)
    ensures Awaiting(resolvers, waiters, flying - {id}, started, true)
  {
  }

  lemma FlyingHasStarted(phase: Phase, counter: nat, flying: set<nat>, o: Options, id: nat, starts: seq<Start>, last: Option<int>,
                         now: int)
    requires Counting(phase, counter, flying, o, |starts|, false) && id in flying
    requires Paced(starts, last, phase, now, o)
    ensures counter > 0 && id < |starts| && starts[id].time <= now
  {
  }

  /** The next phase is the one that a landing leaves the loop in. */
  predicate IsWoken(phase: Phase, next: Phase) {
    next == phase || next == Woken(phase, true) || next == Woken(phase, false)
  }

  lemma Lands(phase: Phase, next: Phase, counter: nat, flying: set<nat>, o: Options, started: nat, id: nat)
    requires Counting(phase, counter, flying, o, started, false) && id in flying && counter > 0
    requires next == Woken(phase, true) || next == Woken(phase, false)
    ensures Counting(next, counter - 1, flying - {id}, o, started, false)
  {
  }

  lemma LandingBacksOff(phase: Phase, next: Phase, counter: nat, flying: set<nat>, delay: int, o: Options, started: nat,
                        records: seq<SendRecord>, ended: nat, id: nat, r: SendRecord)
    requires Counting(phase, counter, flying, o, started, false) && id in flying && counter > 0
    requires next == Woken(phase, true) || next == Woken(phase, false)
    requires BackingOff(phase, counter, delay, o, records, false, ended)
    ensures BackingOff(next, counter - 1, delay, o, records + [r], false, ended + 1)
  {
    hide Failures, Backoff;
    FailuresAfter(records, r);
  }

  lemma LandingAnswers(resolvers: seq<Option<Outcome>>, waiters: seq<Waiter>, sendCounter: nat, started: nat, flying: set<nat>,
                       outcome: Outcome)
    requires Settling(resolvers, waiters, sendCounter, started, false) && Awaiting(resolvers, waiters, flying, started, false)
    ensures |resolvers| > 0 && resolvers[|resolvers| - 1].None?
    ensures var after := Answer(resolvers, outcome);
      && Settling(after, waiters, sendCounter, started, false) && Awaiting(after, waiters, flying, started, false)
      && Unawaited(after, waiters)
  {
    hide Unsettled;
  }

  lemma LeavesNobody(resolvers: seq<Option<Outcome>>, waiters: seq<Waiter>, flying: set<nat>, started: nat)
    requires Unawaited(resolvers, waiters)
    ensures Awaiting(resolvers, waiters, flying, started, false)
  {
  }

  lemma RecordIs(now: int, start: int, ok: bool)
    ensures Record(now, start, ok).ok == ok
  {
  }

  lemma LandingGoesOn(phase: Phase, next: Phase, pending: bool, waiters: seq<Waiter>, started: nat, after: bool)
    requires Going(phase, pending, waiters, started, false) && (pending ==> after) && IsWoken(phase, next)
    ensures Going(next, after, waiters, started, false)
  {
  }

  lemma {:induction false} UnsettledUpdate(waiters: seq<Waiter>, k: nat, w: Waiter)
    requires k < |waiters| && !waiters[k].Done?
    ensures Unsettled(waiters) > 0
    ensures Unsettled(waiters[k := w]) == if w.Done? then Unsettled(waiters) - 1 else Unsettled(waiters)
  {
    var n := |waiters| - 1;
    if k < n {
      UnsettledUpdate(waiters[..n], k, w);
      assert waiters[k := w][..n] == waiters[..n][k := w];
    } else {
      assert waiters[k := w][..n] == waiters[..n];
    }
  }

  // ----- whole runs

  datatype Event =
    | Tick(ms: nat) | Sends(immediately: bool, visible: bool) | BecomesVisible(k: nat) | Answered(k: nat) | Closes
    | Wakes(watchdog: bool) | DebounceOver | ConnectionIsFree | SleepOver | RequestEnds(id: nat, ok: bool, error: bool)

  predicate Enabled(s: ConnectionLoop, e: Event)
    reads s
  {
    match e
    case BecomesVisible(k) => k < |s.waiters| && s.waiters[k].Hidden?
    case Answered(k) =>
      k < |s.waiters| && s.waiters[k].Waiting? && s.waiters[k].resolver < |s.resolvers| && s.resolvers[s.waiters[k].resolver].Some?
    case Wakes(watchdog) => s.phase.Pending? && (s.pending || (watchdog && s.o.watchdogTimer.Some?))
    case DebounceOver => s.phase.Debounce?
    case ConnectionIsFree => s.phase == ForConnection(true)
    case SleepOver => s.phase.Sleep? && (s.phase.until <= s.now || s.skipSleeps || s.phase.recovered)
    case RequestEnds(id, ok, error) => id in s.flying && (error ==> !ok)
    case _ => true
  }

  predicate OfLoop(e: Event) { e.Wakes? || e.DebounceOver? || e.ConnectionIsFree? || e.SleepOver? }

  /** How many steps the loop is from the next request. */
  function Distance(phase: Phase): nat {
    match phase
    case Pending => 5
    case Debounce => 4
    case ForConnection(woken) => if woken then 2 else 3
    case Sleep(_, _) => 1
    case Ended => 0
  }

  /** Requests only start, closing is for good, and the calls that wait get the outcome of the next request, or that of `close`. */
  twostate predicate Onwards(s: ConnectionLoop, e: Event)
    reads s
  {
    && old(s.starts) <= s.starts && |s.starts| <= |old(s.starts)| + 1
    && Settled(old(s.resolvers), s.resolvers,
               if e.RequestEnds? && !s.closed then Some(if e.error then SendError else Success)
               else if e.Closes? && old(s.sendCounter) > 0 then Some(Closed)
               else None)
    && (old(s.closed) ==> s.closed && s.starts == old(s.starts))
  }

  /**
   What a closed loop can wait for in vain: a connection, because requests that end after `close` do not wake anybody, or a
   call of `send`, because `close` does not resolve that promise; unless there is a watchdog timer, which `close` cuts short,
   or a call that is still to become visible.
   */
  predicate Stuck(s: ConnectionLoop)
    reads s
  {
    || s.phase == ForConnection(false)
    || (s.phase.Pending? && !s.pending && s.o.watchdogTimer.None? && forall k :: 0 <= k < |s.waiters| ==> !s.waiters[k].Hidden?)
  }

  /** Every step of the loop brings it closer to the next request, or starts it; nothing else takes it away from there. */
  method Handle(s: ConnectionLoop, e: Event)
    requires s.Valid() && Enabled(s, e)
    modifies s
    ensures s.Valid() && Onwards(s, e)
    ensures if OfLoop(e) then |s.starts| > |old(s.starts)| || Distance(s.phase) < Distance(old(s.phase))
            else s.starts == old(s.starts) && Distance(s.phase) <= Distance(old(s.phase))
    ensures e.RequestEnds? && !s.closed && old(s.phase) == ForConnection(false) ==> s.phase == ForConnection(true)
    ensures old(s.closed && Stuck(s)) ==> Stuck(s)
  {
    hide Counting, Settling, Going, Awaiting, BackingOff, Paced;
    match e {
      case Tick(ms) => s.Pass(ms);
      case Sends(immediately, visible) => var _ := s.Send(immediately, visible);
      case BecomesVisible(k) => s.Shown(k);
      case Answered(k) => s.Returns(k);
      case Closes => s.Close();
      case Wakes(watchdog) => s.Wake(watchdog);
      case DebounceOver => s.Debounced();
      case ConnectionIsFree => s.ConnectionFree();
      case SleepOver => s.Slept();
      case RequestEnds(id, ok, error) => s.SendEnds(id, ok, error);
    }
  }

  /** Requests in flight never exceed the number of connections. */
  lemma NeverTooMany(s: ConnectionLoop)
    requires s.Valid()
    ensures |s.flying| <= s.o.maxConnections
  {
  }

  /**
   * A call that no request has been started for: the loop can make a step, if need be after some time, or when one of the
   * requests that it waits for has ended.
   */
  lemma AlwaysProgress(s: ConnectionLoop, k: nat)
    requires s.Valid() && !s.closed && k < |s.waiters| && s.waiters[k].Waiting? && s.waiters[k].startedBefore == |s.starts|
    ensures
      || Enabled(s, Wakes(false)) || Enabled(s, DebounceOver) || Enabled(s, ConnectionIsFree) || Enabled(s, SleepOver)
      || (s.phase.Sleep? && s.now < s.phase.until)
      || (s.phase == ForConnection(false) && exists id :: Enabled(s, RequestEnds(id, true, false)))
  {
    if s.phase == ForConnection(false) {
      var id :| id in s.flying;
      assert Enabled(s, RequestEnds(id, true, false));
    }
  }

  /** A call that a request has been started for: its promise is resolved, or the request is still under way. */
  lemma AnswerIsComing(s: ConnectionLoop, k: nat)
    requires s.Valid() && !s.closed && k < |s.waiters| && s.waiters[k].Waiting? && s.waiters[k].startedBefore < |s.starts|
    ensures Enabled(s, Answered(k)) || Enabled(s, RequestEnds(s.waiters[k].startedBefore, true, false))
  {
  }

  /** After `close`, every call that waits can return, with an error unless it had an answer already. */
  lemma ClosedAnswersAll(s: ConnectionLoop, k: nat)
    requires s.Valid() && s.closed && k < |s.waiters| && s.waiters[k].Waiting?
    ensures Enabled(s, Answered(k))
  {
    UnsettledUpdate(s.waiters, k, Hidden);
  }

  /** With one connection, the wait after the k-th failure in a row is the minimum, doubled k - 1 times, up to the maximum. */
  lemma WaitAfterFailures(s: ConnectionLoop)
    requires s.Valid() && !s.closed && s.o.maxConnections == 1 && s.phase.Sleep? && LastFailed(s.sendRecords)
    ensures s.lastSendTime.Some?
    ensures s.phase.until == s.lastSendTime.value + Min(s.o.maxDelayMs, s.o.minDelayMs * Pow2(Failures(s.sendRecords) - 1))
  {
    BackoffDoubles(s.o.minDelayMs, Failures(s.sendRecords));
  }

  /** With one connection, the records of the loop only ever grow: they are pruned where that never happens. */
  lemma NothingForgotten(s: ConnectionLoop)
    requires s.Valid() && !s.closed && s.o.maxConnections == 1
    ensures |s.sendRecords| == s.ended
  {
  }

  // ----- how a closed loop ends

  /** Any events in any order, as far as they can happen; a loop that waits in vain after `close` waits for ever. */
  method Run(s: ConnectionLoop, events: seq<Event>)
    requires s.Valid()
    modifies s
    ensures s.Valid() && old(s.starts) <= s.starts && (old(s.closed) ==> s.closed && s.starts == old(s.starts))
    ensures old(s.closed && Stuck(s)) ==> Stuck(s) && s.phase != Ended
  {
    hide Counting, Settling, Going, Awaiting, BackingOff, Paced, Asleep;
    for i := 0 to |events|
      invariant s.Valid() && old(s.starts) <= s.starts && (old(s.closed) ==> s.closed && s.starts == old(s.starts))
      invariant old(s.closed && Stuck(s)) ==> Stuck(s)
    {
      if Enabled(s, events[i]) {
        Handle(s, events[i]);
      }
    }
  }

  /** A closed loop that does not wait in vain can end: no further request has to be made for that. */
  method WindUp(s: ConnectionLoop)
    requires s.Valid() && s.closed && !Stuck(s)
    modifies s
    ensures s.Valid() && s.closed && s.phase == Ended && s.starts == old(s.starts) && s.flying == old(s.flying)
  {
    hide Counting, Settling, Going, Awaiting, BackingOff, Paced, Asleep;
    if s.phase.Pending? {
      if !s.pending && s.o.watchdogTimer.None? {
        var k :| 0 <= k < |s.waiters| && s.waiters[k].Hidden?;
        s.Shown(k);
      }
      s.Wake(s.o.watchdogTimer.Some?);
    } else if s.phase.Debounce? {
      s.Debounced();
    } else if s.phase.ForConnection? {
      s.ConnectionFree();
    } else if s.phase.Sleep? {
      if s.now < s.phase.until {
        s.Pass(s.phase.until - s.now);
      }
      s.Slept();
    }
  }

  /** A loop without a watchdog timer that is closed before it was ever used never ends. */
  method NeverUsed(o: Options) returns (s: ConnectionLoop)
    requires o.maxConnections > 0 && o.watchdogTimer.None?
    ensures fresh(s) && s.Valid() && s.closed && Stuck(s) && s.phase.Pending?
  {
    s := new ConnectionLoop(o);
    s.Close();
  }

  /** Whatever the options, a loop that is closed while all its connections are in use and one more is wanted never ends. */
  method AllInUse(o: Options) returns (s: ConnectionLoop)
    requires o.maxConnections > 0
    ensures fresh(s) && s.Valid() && s.closed && Stuck(s) && s.phase == ForConnection(false)
  {
    hide Counting, Settling, Going, Awaiting, BackingOff, Paced, Asleep;
    s := new ConnectionLoop(o);
    for i := 0 to o.maxConnections
      invariant fresh(s) && s.Valid() && s.o == o && !s.closed && s.phase.Pending? && s.counter == i
    {
      var _ := s.Send(true, true);
      s.Wake(false);
      s.Debounced();
      if s.phase.Sleep? {
        s.Slept();
      }
    }
    var _ := s.Send(true, true);
    s.Wake(false);
    s.Debounced();
    s.Close();
  }
}
