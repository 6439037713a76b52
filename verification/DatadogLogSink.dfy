/**
 The log batcher: messages wait in a queue, a flush posts as many of them as fit into one request, and messages that have
 failed too often are dropped from the front. That this drops exactly the right ones rests on an invariant that the code
 does not mention: retry counts never increase from front to back.
 */
module DatadogLogSink {
  import opened Wrappers

  const MAX_LOG_ENTRIES_PER_FLUSH: nat := 1000
  const FORCE_FLUSH_THRESHOLD: nat := 250
  const MAX_MESSAGE_RETRIES: nat := 2
  const MAX_ENTRY_CHARS: nat := 5 * 1024 * 1024 / 4

  /** What was logged; `droppedLength` once its text has been replaced by a note that a text of this length was dropped. */
  datatype Message<+P> = Message(payload: P, droppedLength: Option<nat>, flushDelayMs: int, flushRetryCount: nat)

  datatype Fate = Posted | Dropped

  /** When a request is made, whether it succeeds, and what is logged meanwhile. */
  datatype Await<+P> = Await(flushTime: int, ok: bool, logged: seq<P>)

  // ----- batches

  function Total(strings: seq<string>): nat {
    if strings == [] then 0 else Total(strings[..|strings| - 1]) + |strings[|strings| - 1]|
  }

  /** `join`, with a newline */
  function Join(strings: seq<string>): string {
    if strings == [] then ""
    else if |strings| == 1 then strings[0]
    else Join(strings[..|strings| - 1]) + "\n" + strings[|strings| - 1]
  }

  /** The strings are put one behind the other, a newline between any two. */
  lemma {:induction false} JoinOfTwo(a: seq<string>, b: seq<string>)
    requires a != [] && b != []
    ensures Join(a + b) == Join(a) + "\n" + Join(b)
  {
    var n := |b| - 1;
    assert (a + b)[..|a + b| - 1] == a + b[..n];
    if n > 0 {
      JoinOfTwo(a, b[..n]);
    } else {
      assert a + b[..n] == a;
    }
  }

  lemma {:induction false} JoinLength(strings: seq<string>)
    ensures |Join(strings)| == Total(strings) + if strings == [] then 0 else |strings| - 1
  {
    if |strings| == 1 {
      assert strings[..0] == [] && Total(strings[..0]) == 0;
    } else if |strings| > 1 {
      JoinLength(strings[..|strings| - 1]);
    }
  }

  ghost function Attempts<P>(messages: seq<Message<P>>): int {
    if messages == [] then 0 else
      Attempts(messages[..|messages| - 1]) + MAX_MESSAGE_RETRIES + 1 - messages[|messages| - 1].flushRetryCount
  }

  ghost predicate NonIncreasing<P>(messages: seq<Message<P>>) {
    forall i, j :: 0 <= i <= j < |messages| ==> messages[i].flushRetryCount >= messages[j].flushRetryCount
  }

  ghost predicate Retryable<P>(messages: seq<Message<P>>) {
    forall i :: 0 <= i < |messages| ==> messages[i].flushRetryCount <= MAX_MESSAGE_RETRIES
  }

  /** The messages from index `from` on are untouched; those before it differ in what a flush writes into them. */
  ghost predicate SameBut<P>(was: seq<Message<P>>, now: seq<Message<P>>, from: nat) {
    && |now| == |was| && from <= |was|
    && (forall i :: 0 <= i < |was| ==> now[i].payload == was[i].payload && now[i].flushRetryCount == was[i].flushRetryCount)
    && (forall i :: from <= i < |was| ==> now[i] == was[i])
  }

  /**
   What a flush writes into a message: how long after it was logged the flush takes place, and, if its text is too long for
   any request, the length of that text, which a note replaces.
   */
  ghost predicate Written<P>(stringify: Message<P> -> string, date: P -> int, was: Message<P>, m: Message<P>, now: int) {
    && m.payload == was.payload && m.flushRetryCount == was.flushRetryCount && m.flushDelayMs == now - date(was.payload)
    && var long := |stringify(Message(was.payload, was.droppedLength, now - date(was.payload), was.flushRetryCount))|;
       m.droppedLength == if long > MAX_ENTRY_CHARS then Some(long) else was.droppedLength
  }

  /** The first `n` messages are written into and fill a request: one more is too many, or too long. */
  ghost predicate Fills<P>(stringify: Message<P> -> string, date: P -> int, was: seq<Message<P>>, messages: seq<Message<P>>,
                           now: int, stringified: seq<string>)
  {
    var n := |stringified|;
    && 1 <= n <= |messages| == |was| && n <= MAX_LOG_ENTRIES_PER_FLUSH && |Join(stringified)| <= MAX_ENTRY_CHARS
    && (forall i :: 0 <= i < n ==> Written(stringify, date, was[i], messages[i], now) && stringified[i] == stringify(messages[i]))
    && (|| (messages[n..] == was[n..] && (n == |was| || n == MAX_LOG_ENTRIES_PER_FLUSH))
        || (&& n < |was| && Written(stringify, date, was[n], messages[n], now) && messages[n + 1..] == was[n + 1..]
            && |Join(stringified)| + 1 + |stringify(messages[n])| > MAX_ENTRY_CHARS))
  }

  /** The payloads of new messages, queued behind the others. */
  function Queued<P>(messages: seq<Message<P>>, logged: seq<P>): seq<Message<P>> {
    messages + seq(|logged|, i requires 0 <= i < |logged| => Message(logged[i], None, 0, 0))
  }

  /** One more failure for the first `n` messages. */
  ghost function Failed<P>(messages: seq<Message<P>>, n: nat): seq<Message<P>>
    requires n <= |messages|
  {
    seq(|messages|, i requires 0 <= i < |messages| =>
      if i < n then messages[i].(flushRetryCount := messages[i].flushRetryCount + 1) else messages[i])
  }

  ghost function Repeated<A>(x: A, n: nat): (r: seq<A>)
    ensures |r| == n && forall i :: 0 <= i < n ==> r[i] == x
  {
    seq(n, _ => x)
  }

  /** The failure counts of the messages `from` to `from + n` go up by one. */
  ghost function MoreFailures(failures: seq<nat>, from: nat, n: nat): (r: seq<nat>)
    ensures |r| == |failures|
    ensures forall k :: 0 <= k < |failures| ==> r[k] == if from <= k < from + n then failures[k] + 1 else failures[k]
  {
    seq(|failures|, k requires 0 <= k < |failures| => if from <= k < from + n then failures[k] + 1 else failures[k])
  }

  // ----- the remaining attempts

  lemma {:induction false} AttemptsJoin<P>(a: seq<Message<P>>, b: seq<Message<P>>)
    ensures Attempts(a + b) == Attempts(a) + Attempts(b)
  {
    if b == [] {
      assert a + b == a;
    } else {
      var n := |b| - 1;
      assert (a + b)[..|a + b| - 1] == a + b[..n];
      AttemptsJoin(a, b[..n]);
    }
  }

  lemma {:induction false} AttemptsOf<P>(messages: seq<Message<P>>)
    requires Retryable(messages)
    ensures Attempts(messages) >= |messages|
  {
    if messages != [] { AttemptsOf(messages[..|messages| - 1]); }
  }

  lemma {:induction false} AttemptsFail<P>(messages: seq<Message<P>>, n: nat)
    requires n <= |messages|
    ensures Attempts(Failed(messages, n)) == Attempts(messages) - n
  {
    if messages != [] {
      var k := |messages| - 1;
      var failed := Failed(messages, n);
      assert failed[..k] == Failed(messages[..k], if n <= k then n else k);
      AttemptsFail(messages[..k], if n <= k then n else k);
    }
  }

  lemma {:induction false} AttemptsSame<P>(was: seq<Message<P>>, now: seq<Message<P>>, from: nat)
    requires SameBut(was, now, from)
    ensures Attempts(now) == Attempts(was)
  {
    if was != [] {
      var k := |was| - 1;
      AttemptsSame(was[..k], now[..k], if from <= k then from else k);
    }
  }

  /** The loop of `flush` that fills a request. */
  method Fill<P(!new)>(stringify: Message<P> -> string, date: P -> int, was: seq<Message<P>>, now: int)
    returns (messages: seq<Message<P>>, stringified: seq<string>)
    requires was != [] && forall m: Message<P> :: m.droppedLength.Some? ==> |stringify(m)| <= MAX_ENTRY_CHARS
    ensures SameBut(was, messages, |messages|) && Fills(stringify, date, was, messages, now, stringified)
  {
    hide Total, Join;
    messages, stringified := was, [];
    var totalBytes := 0;
    var i := 0;
    NoStrings();
    while i < |messages|
      invariant SameBut(was, messages, i) && i == |stringified| < MAX_LOG_ENTRIES_PER_FLUSH
      invariant totalBytes == Total(stringified) && (i > 0 ==> totalBytes + i - 1 <= MAX_ENTRY_CHARS)
      invariant forall j :: 0 <= j < i ==>
        Written(stringify, date, was[j], messages[j], now) && stringified[j] == stringify(messages[j])
    {
      var m := messages[i].(flushDelayMs := now - date(messages[i].payload));
      var str := stringify(m);
      if |str| > MAX_ENTRY_CHARS {
        m := m.(droppedLength := Some(|str|));
        str := stringify(m);
      }
      messages := messages[i := m];
      if |str| + totalBytes + |stringified| > MAX_ENTRY_CHARS {
        break;
      }
      OneMoreString(stringified, str);
      totalBytes := totalBytes + |str|;
      stringified := stringified + [str];
      i := i + 1;
      if |stringified| == MAX_LOG_ENTRIES_PER_FLUSH {
        break;
      }
    }
    JoinLength(stringified);
  }

  lemma NoStrings()
    ensures Total([]) == 0
  {
  }

  lemma OneMoreString(strings: seq<string>, str: string)
    ensures Total(strings + [str]) == Total(strings) + |str|
  {
    assert (strings + [str])[..|strings|] == strings;
  }

  /** The loop of `flush` that counts failures, and the messages that have failed too often. */
  method CountFailures<P>(was: seq<Message<P>>, n: nat) returns (messages: seq<Message<P>>, numWithTooManyRetries: nat)
    requires n <= |was| && NonIncreasing(was) && Retryable(was)
    ensures messages == Failed(was, n) && numWithTooManyRetries <= n
    ensures forall j :: 0 <= j < n ==> (was[j].flushRetryCount == MAX_MESSAGE_RETRIES <==> j < numWithTooManyRetries)
  {
    messages, numWithTooManyRetries := was, 0;
    var i := 0;
    while i < n
      invariant 0 <= numWithTooManyRetries <= i <= n && messages == Failed(was, i)
      invariant forall j :: 0 <= j < i ==> (was[j].flushRetryCount == MAX_MESSAGE_RETRIES <==> j < numWithTooManyRetries)
    {
      var m := messages[i].(flushRetryCount := messages[i].flushRetryCount + 1);
      messages := messages[i := m];
      if m.flushRetryCount > MAX_MESSAGE_RETRIES {
        assert i > 0 ==> was[i - 1].flushRetryCount >= was[i].flushRetryCount;
        numWithTooManyRetries := numWithTooManyRetries + 1;
      }
      i := i + 1;
    }
  }

  lemma FailedCounts<P>(messages: seq<Message<P>>, n: nat)
    requires n <= |messages|
    ensures |Failed(messages, n)| == |messages|
    ensures forall i :: 0 <= i < |messages| ==>
      && Failed(messages, n)[i].payload == messages[i].payload
      && Failed(messages, n)[i].flushRetryCount == messages[i].flushRetryCount + if i < n then 1 else 0
  {
  }

  /** Dropping what has failed too often leaves the queue retryable, and its counts in order. */
  lemma DroppedInOrder<P>(messages: seq<Message<P>>, n: nat, dropped: nat)
    requires NonIncreasing(messages) && Retryable(messages) && dropped <= n <= |messages|
    requires forall i :: 0 <= i < n ==> (messages[i].flushRetryCount == MAX_MESSAGE_RETRIES <==> i < dropped)
    ensures NonIncreasing(Failed(messages, n)[dropped..]) && Retryable(Failed(messages, n)[dropped..])
    ensures forall i :: 0 <= i < dropped ==> messages[i].flushRetryCount == MAX_MESSAGE_RETRIES
  {
    hide Failed;
    FailedCounts(messages, n);
  }

  // ----- the sink

  class DatadogLogSink<P(!new)> {
    const stringify: Message<P> -> string
    /** When a message was logged, which is part of it. */
    const date: P -> int
    var messages: seq<Message<P>>
    /** Everything that was ever logged, in order, and how often it was part of a failed request. */
    ghost var logged: seq<P>
    ghost var failures: seq<nat>
    /** What became of the messages that have left the queue, in the order of logging. */
    ghost var fates: seq<Fate>

    /** A message whose text was replaced by the note fits into a request. */
    ghost predicate PlaceholdersFit() {
      forall m: Message<P> :: m.droppedLength.Some? ==> |stringify(m)| <= MAX_ENTRY_CHARS
    }

    /**
     The queue holds, in order, the messages that have not left it. A message leaves it when it was posted, after at most
     two failures, or when it has failed three times.
     */
    ghost predicate Valid()
      reads this
    {
      && |fates| + |messages| == |logged| == |failures|
      && (forall i :: 0 <= i < |messages| ==>
            messages[i].payload == logged[|fates| + i] && messages[i].flushRetryCount == failures[|fates| + i])
      && (forall i :: 0 <= i < |fates| ==>
            if fates[i].Dropped? then failures[i] == MAX_MESSAGE_RETRIES + 1 else failures[i] <= MAX_MESSAGE_RETRIES)
      && NonIncreasing(messages) && Retryable(messages)
    }

    constructor (stringify: Message<P> -> string, date: P -> int)
      ensures Valid() && messages == [] && this.stringify == stringify && this.date == date
    {
      this.stringify, this.date, messages, logged, failures, fates := stringify, date, [], [], [], [];
    }

    /** `log`, apart from starting the timer or a flush. */
    method Log(payload: P)
      requires Valid()
      modifies this
      ensures Valid() && logged == old(logged) + [payload] && fates == old(fates) && failures == old(failures) + [0]
      ensures messages == old(messages) + [Message(payload, None, 0, 0)]
    {
      messages := messages + [Message(payload, None, 0, 0)];
      logged, failures := logged + [payload], failures + [0];
    }

    /** As many messages from the front as fit into one request; oversized texts are replaced. */
    method Batch(now: int) returns (stringified: seq<string>)
      requires Valid() && PlaceholdersFit() && messages != []
      modifies this`messages
      ensures Valid() && SameBut(old(messages), messages, |messages|)
      ensures Fills(stringify, date, old(messages), messages, now, stringified)
    {
      hide Total, Join, Fills;
      var filled;
      filled, stringified := Fill(stringify, date, messages, now);
      messages := filled;
    }

    /** A request is under way: logging goes on. */
    method Meanwhile(payloads: seq<P>)
      requires Valid()
      modifies this
      ensures Valid() && logged == old(logged) + payloads && fates == old(fates)
      ensures messages == Queued(old(messages), payloads) && failures == old(failures) + Repeated(0, |payloads|)
    {
      var i := 0;
      while i < |payloads|
        invariant 0 <= i <= |payloads| && Valid() && fates == old(fates)
        invariant logged == old(logged) + payloads[..i] && messages == Queued(old(messages), payloads[..i])
        invariant failures == old(failures) + Repeated(0, i)
      {
        Log(payloads[i]);
        i := i + 1;
      }
      assert payloads[..i] == payloads;
    }

    lemma CountsAgree(n: nat)
      requires Valid() && n <= |messages|
      ensures forall k :: |fates| <= k < |fates| + n ==> failures[k] == messages[k - |fates|].flushRetryCount
    {
    }

    /** The request has succeeded: its messages leave the queue. */
    method Succeeded(n: nat)
      requires Valid() && n <= |messages|
      modifies this
      ensures Valid() && messages == old(messages)[n..] && logged == old(logged) && failures == old(failures)
      ensures fates == old(fates) + Repeated(Posted, n)
    {
      CountsAgree(n);
      fates := fates + Repeated(Posted, n);
      messages := messages[n..];
    }

    /** The request has failed: count it, and drop what has failed too often. */
    method Fail(n: nat) returns (ghost dropped: nat)
      requires Valid() && n <= |messages|
      modifies this
      ensures Valid() && logged == old(logged)
      ensures dropped <= n
      ensures messages == Failed(old(messages), n)[dropped..] && fates == old(fates) + Repeated(Dropped, dropped)
      ensures failures == MoreFailures(old(failures), |old(fates)|, n)
      ensures forall i :: 0 <= i < n ==> (old(messages)[i].flushRetryCount == MAX_MESSAGE_RETRIES <==> i < dropped)
    {
      hide Failed, NonIncreasing, Retryable, Repeated, MoreFailures;
      var was := messages;
      CountsAgree(n);
      var failed, numWithTooManyRetries := CountFailures(was, n);
      FailedCounts(was, n);
      DroppedInOrder(was, n, numWithTooManyRetries);
      failures := MoreFailures(failures, |fates|, n);
      fates := fates + Repeated(Dropped, numWithTooManyRetries);
      messages := failed[numWithTooManyRetries..];
      dropped := numWithTooManyRetries;
    }

    /**
     `flush`: post batch after batch until few messages are left. `net` tells of the n-th request; once nothing more is logged,
     the loop ends because every request uses up attempts. `left` is the length of the queue after each request.
     */
    method Flush(net: nat -> Await<P>, ghost quiet: nat) returns (turns: nat, ghost left: seq<nat>)
      requires Valid() && PlaceholdersFit()
      requires forall n :: n >= quiet ==> net(n).logged == []
      modifies this
      ensures Valid() && |messages| < FORCE_FLUSH_THRESHOLD
      ensures Extends(logged, old(logged)) && Extends(fates, old(fates))
      ensures turns == |left| && (turns > 0 <==> old(messages) != []) && (turns > 0 ==> left[turns - 1] == |messages|)
      ensures forall n :: 0 <= n < turns - 1 ==> left[n] >= FORCE_FLUSH_THRESHOLD
    {
      hide Valid, Attempts, Fills, Join, Failed, MoreFailures, Repeated, Queued;
      turns, left := 0, [];
      if |messages| == 0 {
        return;
      }
      while true
        invariant Valid() && messages != [] && Extends(logged, old(logged)) && Extends(fates, old(fates))
        invariant turns == |left| && forall n :: 0 <= n < turns ==> left[n] >= FORCE_FLUSH_THRESHOLD
        decreases if turns < quiet then quiet - turns else 0, Attempts(messages)
      {
        var result := net(turns);
        var _, _, _, _ := Turn(result);
        turns, left := turns + 1, left + [|messages|];
        if |messages| < FORCE_FLUSH_THRESHOLD {
          break;
        }
      }
    }

    /**
     One request: what it posts are the first messages, as `filled`. They leave the queue if it succeeds; otherwise all of them
     have failed once more, and those that have failed too often, the first `dropped`, leave it.
     */
    method Turn(result: Await<P>) returns (body: string, ghost filled: seq<Message<P>>, ghost strings: seq<string>,
                                           ghost dropped: nat)
      requires Valid() && PlaceholdersFit() && messages != []
      modifies this
      ensures Fills(stringify, date, old(messages), filled, result.flushTime, strings) && body == Join(strings)
      ensures Valid() && logged == old(logged) + result.logged && |strings| <= |filled| && dropped <= |strings|
      ensures var queue := Queued(filled, result.logged);
        messages == if result.ok then queue[|strings|..] else Failed(queue, |strings|)[dropped..]
      ensures fates == old(fates) + if result.ok then Repeated(Posted, |strings|) else Repeated(Dropped, dropped)
      ensures var counts := old(failures) + Repeated(0, |result.logged|);
        failures == if result.ok then counts else MoreFailures(counts, |old(fates)|, |strings|)
      ensures Attempts(messages) >= 0 && (result.logged == [] ==> Attempts(messages) < Attempts(old(messages)))
    {
      hide Failed, NonIncreasing, Attempts, Join, Written;
      ghost var was := messages;
      var stringified := Batch(result.flushTime);
      strings, body := stringified, Join(stringified);
      AttemptsSame(was, messages, |messages|);
      filled, dropped := messages, 0;
      Meanwhile(result.logged);
      ghost var queue := messages;
      assert result.logged == [] ==> queue == filled;
      if result.ok {
        Succeeded(|stringified|);
        Shorter(queue, |stringified|);
      } else {
        dropped := Fail(|stringified|);
        Fewer(queue, |stringified|, dropped);
      }
    }
  }

  ghost predicate Extends<A>(longer: seq<A>, s: seq<A>) {
    |s| <= |longer| && longer[..|s|] == s
  }

  lemma Shorter<P>(messages: seq<Message<P>>, n: nat)
    requires Retryable(messages) && 1 <= n <= |messages|
    ensures 0 <= Attempts(messages[n..]) < Attempts(messages)
  {
    assert messages == messages[..n] + messages[n..];
    AttemptsJoin(messages[..n], messages[n..]);
    AttemptsOf(messages[..n]);
    AttemptsOf(messages[n..]);
  }

  lemma Fewer<P>(messages: seq<Message<P>>, n: nat, dropped: nat)
    requires Retryable(messages) && 1 <= n <= |messages| && dropped <= n
    requires forall i :: 0 <= i < n ==> (messages[i].flushRetryCount == MAX_MESSAGE_RETRIES <==> i < dropped)
    ensures 0 <= Attempts(Failed(messages, n)[dropped..]) < Attempts(messages)
  {
    var failed := Failed(messages, n);
    AttemptsFail(messages, n);
    assert failed == failed[..dropped] + failed[dropped..];
    AttemptsJoin(failed[..dropped], failed[dropped..]);
    UsedUp(failed[..dropped]);
    AttemptsOf(failed[dropped..]);
  }

  lemma {:induction false} UsedUp<P>(messages: seq<Message<P>>)
    requires forall i :: 0 <= i < |messages| ==> messages[i].flushRetryCount == MAX_MESSAGE_RETRIES + 1
    ensures Attempts(messages) == 0
  {
    if messages != [] { UsedUp(messages[..|messages| - 1]); }
  }
}
