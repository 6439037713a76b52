/**
 Pushed mutations are applied exactly once: several request handlers replay overlapping pushes against one database, each
 transaction increments the client's counter and compares it with the mutation's id. Transactions are atomic; between two
 transactions of a handler any number of transactions of other handlers may happen, transactions may fail and be rolled
 back, and the acknowledgement of a commit may be lost.
 */
module ProcessMutations {
  import opened Wrappers

  datatype Result<+T, +E> = Success(value: T) | Failure(error: E)

  datatype Mutation<+C, +A> = Mutation(client: C, id: int, args: A)

  /** What a committed transaction did: it ran the mutator, or recorded the error that the mutator had failed with. */
  datatype Action<+A, +E> = Effects(args: A) | AppError(error: E)

  /** A committed transaction, in the order of commits, and the handler that ran it. */
  datatype Commit<+C, +A, +E> = Commit(client: C, id: int, action: Action<A, E>, handler: nat)

  /** What may go wrong in a transaction, apart from the mutator: before or after the check of the id, or after the commit. */
  datatype Fault<+E> = NoFault | Early(error: E) | Late(error: E) | LostAck(error: E)

  datatype TransactionResult<+E> = Committed | AlreadyProcessed | OutOfOrder | Failed(error: E)

  // ----- what the log of commits says

  ghost function CommitsOf<C, A, E>(log: seq<Commit<C, A, E>>, client: C): seq<Commit<C, A, E>> {
    if log == [] then [] else
      var n := |log| - 1;
      CommitsOf(log[..n], client) + if log[n].client == client then [log[n]] else []
  }

  /** The data after the effects of all commits, each applied once, in order. */
  ghost function DataAfter<C, A, D, E>(mutator: (A, D) -> Result<D, E>, initial: D, log: seq<Commit<C, A, E>>): D {
    if log == [] then initial else
      var n := |log| - 1;
      var before := DataAfter(mutator, initial, log[..n]);
      if log[n].action.Effects? && mutator(log[n].action.args, before).Success? then
        mutator(log[n].action.args, before).value
      else before
  }

  /** The rows of the table of mutation results. */
  ghost function ErrorsOf<C, A, E>(log: seq<Commit<C, A, E>>): seq<(C, int, E)> {
    if log == [] then [] else
      var n := |log| - 1;
      ErrorsOf(log[..n]) + if log[n].action.AppError? then [(log[n].client, log[n].id, log[n].action.error)] else []
  }

  /** Each client's commits carry the ids 1, 2, 3, ... in this order. */
  ghost predicate InOrder<C(!new), A, E>(log: seq<Commit<C, A, E>>) {
    forall client, i :: 0 <= i < |CommitsOf(log, client)| ==> CommitsOf(log, client)[i].id == i + 1
  }

  /** The mutators of committed effects succeeded on the data they met. */
  ghost predicate Succeeded<C, A, D, E>(mutator: (A, D) -> Result<D, E>, initial: D, log: seq<Commit<C, A, E>>) {
    forall k :: 0 <= k < |log| && log[k].action.Effects? ==>
      mutator(log[k].action.args, DataAfter(mutator, initial, log[..k])).Success?
  }

  class Database<C(!new, ==), A, D, E> {
    const mutator: (A, D) -> Result<D, E>
    var lastMutationIDs: map<C, int>
    var mutationResults: seq<(C, int, E)>
    var data: D
    ghost const initial: D
    ghost var log: seq<Commit<C, A, E>>

    ghost function Last(client: C): int
      reads this
    {
      if client in lastMutationIDs then lastMutationIDs[client] else 0
    }

    /** The tables are what the commits have made them. */
    ghost predicate Valid()
      reads this
    {
      && InOrder(log) && (forall client :: Last(client) == |CommitsOf(log, client)|)
      && data == DataAfter(mutator, initial, log) && Succeeded(mutator, initial, log)
      && mutationResults == ErrorsOf(log)
    }

    constructor (mutator: (A, D) -> Result<D, E>, data: D)
      ensures Valid() && log == [] && this.mutator == mutator && initial == data
    {
      this.mutator, this.data, initial := mutator, data, data;
      lastMutationIDs, mutationResults, log := map[], [], [];
    }

    /** `updateClientMutationID`: insert 1, or add 1; returns the new value. */
    method UpdateClientMutationID(client: C) returns (last: int)
      modifies this`lastMutationIDs
      ensures last == old(Last(client)) + 1 && lastMutationIDs == old(lastMutationIDs)[client := last]
    {
      last := if client in lastMutationIDs then lastMutationIDs[client] + 1 else 1;
      lastMutationIDs := lastMutationIDs[client := last];
    }

    /** What a transaction for `m` does, in normal mode (`caught` is None) or in error mode, when `fault` happens. */
    ghost function Expected(m: Mutation<C, A>, caught: Option<E>, fault: Fault<E>): TransactionResult<E>
      reads this
    {
      if fault.Early? then Failed(fault.error)
      else if m.id <= Last(m.client) then AlreadyProcessed
      else if m.id > Last(m.client) + 1 then OutOfOrder
      else if caught.None? && mutator(m.args, data).Failure? then Failed(mutator(m.args, data).error)
      else if fault.Late? || fault.LostAck? then Failed(fault.error)
      else Committed
    }

    /** Whether it commits; the result is Committed only if it does, but not the other way round. */
    ghost predicate Commits(m: Mutation<C, A>, caught: Option<E>, fault: Fault<E>)
      reads this
    {
      && !fault.Early? && !fault.Late? && m.id == Last(m.client) + 1
      && (caught.Some? || mutator(m.args, data).Success?)
    }

    lemma Foretold(m: Mutation<C, A>, caught: Option<E>, fault: Fault<E>, handler: nat)
      requires Valid()
      ensures Attempted(mutator, initial, log, m, caught, fault, handler, Expected(m, caught, fault),
                        if Commits(m, caught, fault)
                        then log + [Commit(m.client, m.id, if caught.None? then Effects(m.args) else AppError(caught.value), handler)]
                        else log)
    {
    }

    method Transaction(m: Mutation<C, A>, caught: Option<E>, fault: Fault<E>, ghost handler: nat)
      returns (r: TransactionResult<E>)
      requires Valid()
      modifies this
      ensures Valid() && r == old(Expected(m, caught, fault))
      ensures log == if old(Commits(m, caught, fault))
                     then old(log) + [Commit(m.client, m.id, if caught.None? then Effects(m.args) else AppError(caught.value), handler)]
                     else old(log)
      ensures forall client :: Last(client) == old(Last(client)) +
                if client == m.client && old(Commits(m, caught, fault)) then 1 else 0
      ensures Attempted(mutator, initial, old(log), m, caught, fault, handler, r, log)
      ensures old(Commits(m, caught, fault)) && caught.None? ==> Success(data) == mutator(m.args, old(data))
      ensures !old(Commits(m, caught, fault)) || caught.Some? ==> data == old(data)
      ensures mutationResults == old(mutationResults)
        + if old(Commits(m, caught, fault)) && caught.Some? then [(m.client, m.id, caught.value)] else []
    {
      hide Attempted, DataAfter, ErrorsOf, CommitsOf, InOrder, Succeeded;
      Foretold(m, caught, fault, handler);
      if fault.Early? {
        return Failed(fault.error);
      }
      var savedIDs := lastMutationIDs;
      var last := UpdateClientMutationID(m.client);
      if m.id < last {
        lastMutationIDs := savedIDs;
        return AlreadyProcessed;
      } else if m.id > last {
        lastMutationIDs := savedIDs;
        return OutOfOrder;
      }
      if caught.None? {
        var done := mutator(m.args, data);
        if done.Failure? {
          lastMutationIDs := savedIDs;
          return Failed(done.error);
        }
        if fault.Late? {
          lastMutationIDs := savedIDs;
          return Failed(fault.error);
        }
        data := done.value;
      } else {
        if fault.Late? {
          lastMutationIDs := savedIDs;
          return Failed(fault.error);
        }
        mutationResults := mutationResults + [(m.client, m.id, caught.value)];
      }
      ghost var commit := Commit(m.client, m.id, if caught.None? then Effects(m.args) else AppError(caught.value), handler);
      Appended(mutator, initial, log, commit);
      log := log + [commit];
      return if fault.LostAck? then Failed(fault.error) else Committed;
    }
  }

  lemma Appended<C(!new), A, D, E>(mutator: (A, D) -> Result<D, E>, initial: D, log: seq<Commit<C, A, E>>,
                                       commit: Commit<C, A, E>)
    requires InOrder(log) && Succeeded(mutator, initial, log) && commit.id == |CommitsOf(log, commit.client)| + 1
    requires commit.action.Effects? ==> mutator(commit.action.args, DataAfter(mutator, initial, log)).Success?
    ensures InOrder(log + [commit]) && Succeeded(mutator, initial, log + [commit])
    ensures forall client ::
      CommitsOf(log + [commit], client) == CommitsOf(log, client) + if client == commit.client then [commit] else []
    ensures DataAfter(mutator, initial, log + [commit])
         == if commit.action.Effects? then mutator(commit.action.args, DataAfter(mutator, initial, log)).value
            else DataAfter(mutator, initial, log)
    ensures ErrorsOf(log + [commit])
         == ErrorsOf(log) + if commit.action.AppError? then [(commit.client, commit.id, commit.action.error)] else []
  {
    var longer := log + [commit];
    assert longer[..|log|] == log;
    forall k | 0 <= k < |longer| && longer[k].action.Effects?
      ensures mutator(longer[k].action.args, DataAfter(mutator, initial, longer[..k])).Success?
    {
      if k < |log| { assert longer[..k] == log[..k]; }
    }
  }

  // ----- a handler among others

  /** A transaction of some other handler. */
  datatype Step<+C, +A, +E> = Step(mutation: Mutation<C, A>, caught: Option<E>, fault: Fault<E>, handler: nat)

  datatype Response<+E> = Ok | App(error: E) | AlreadyDone | OutOfSequence

  /**
   One transaction, in terms of the commits before it: which result it has, and what is committed then. An id that is not the
   next one is refused; in normal mode the mutator decides, in error mode the error is recorded; a fault before the commit
   rolls everything back, and one after it loses only the acknowledgement.
   */
  ghost predicate Attempted<C(!new), A, D, E>(mutator: (A, D) -> Result<D, E>, initial: D, log: seq<Commit<C, A, E>>,
                                              m: Mutation<C, A>, caught: Option<E>, fault: Fault<E>, handler: nat,
                                              r: TransactionResult<E>, longer: seq<Commit<C, A, E>>)
  {
    var next := |CommitsOf(log, m.client)| + 1;
    var done := mutator(m.args, DataAfter(mutator, initial, log));
    && (fault.Early? ==> r == Failed(fault.error) && longer == log)
    && (!fault.Early? && m.id < next ==> r == AlreadyProcessed && longer == log)
    && (!fault.Early? && m.id > next ==> r == OutOfOrder && longer == log)
    && (!fault.Early? && m.id == next && caught.None? && done.Failure? ==> r == Failed(done.error) && longer == log)
    && (!fault.Early? && m.id == next && (caught.Some? || done.Success?) ==>
          && (fault.NoFault? <==> r == Committed) && (!fault.NoFault? ==> r == Failed(fault.error))
          && (fault.Late? ==> longer == log)
          && (!fault.Late? && caught.None? ==> longer == log + [Commit(m.client, m.id, Effects(m.args), handler)])
          && (!fault.Late? && caught.Some? ==> longer == log + [Commit(m.client, m.id, AppError(caught.value), handler)]))
  }

  /** The commits after some transactions of other handlers. */
  ghost predicate Interfered<C(!new), A(!new), D, E(!new)>(mutator: (A, D) -> Result<D, E>, initial: D,
                                                           log: seq<Commit<C, A, E>>, steps: seq<Step<C, A, E>>,
                                                           longer: seq<Commit<C, A, E>>)
    decreases |steps|
  {
    if steps == [] then longer == log else
      var n := |steps| - 1;
      var s := steps[n];
      exists before, r :: Interfered(mutator, initial, log, steps[..n], before)
        && Attempted(mutator, initial, before, s.mutation, s.caught, s.fault, s.handler, r, longer)
  }

  lemma {:induction false} SameInterference<C(!new), A(!new), D, E(!new)>(mutator: (A, D) -> Result<D, E>, initial: D,
                                                                         log: seq<Commit<C, A, E>>, steps: seq<Step<C, A, E>>,
                                                                         a: seq<Commit<C, A, E>>, b: seq<Commit<C, A, E>>)
    requires Interfered(mutator, initial, log, steps, a) && Interfered(mutator, initial, log, steps, b)
    ensures a == b
    decreases |steps|
  {
    hide DataAfter, CommitsOf;
    if steps != [] {
      var n := |steps| - 1;
      var s := steps[n];
      var x, r :| Interfered(mutator, initial, log, steps[..n], x)
        && Attempted(mutator, initial, x, s.mutation, s.caught, s.fault, s.handler, r, a);
      var y, r' :| Interfered(mutator, initial, log, steps[..n], y)
        && Attempted(mutator, initial, y, s.mutation, s.caught, s.fault, s.handler, r', b);
      SameInterference(mutator, initial, log, steps[..n], x, y);
    }
  }

  /** Commits of one handler from position `from` on. */
  ghost function Own<C, A, E>(log: seq<Commit<C, A, E>>, from: nat, handler: nat): seq<Commit<C, A, E>>
    requires from <= |log|
  {
    if |log| == from then [] else
      var n := |log| - 1;
      Own(log[..n], from, handler) + if log[n].handler == handler then [log[n]] else []
  }

  /**
   What a response means, for the commits since position `from`: an empty result, that this handler committed the effects
   of the mutation; an application error, that it recorded this error instead; out of order, that it committed nothing,
   the counter having been too low; already processed, that the mutation is among the client's commits. A handler commits
   at most once per mutation, even if it answers with an exception.
   */
  ghost predicate Meaning<C(!new), A, E>(r: Option<Response<E>>, m: Mutation<C, A>, log: seq<Commit<C, A, E>>, from: nat,
                                         handler: nat)
    requires from <= |log|
  {
    var own := Own(log, from, handler);
    && |own| <= 1 && (own != [] ==> own[0].client == m.client && own[0].id == m.id)
    && (r == Some(Ok) ==> own == [Commit(m.client, m.id, Effects(m.args), handler)])
    && (r.Some? && r.value.App? ==> own == [Commit(m.client, m.id, AppError(r.value.error), handler)])
    && (r == Some(AlreadyDone) ==> m.id <= |CommitsOf(log, m.client)|)
    && (r == Some(OutOfSequence) ==> own == [] && exists k :: from <= k <= |log| && |CommitsOf(log[..k], m.client)| + 1 < m.id)
  }

  ghost predicate Extends<A>(longer: seq<A>, log: seq<A>) {
    |log| <= |longer| && longer[..|log|] == log
  }

  lemma {:induction false} CommitsGrow<C, A, E>(log: seq<Commit<C, A, E>>, longer: seq<Commit<C, A, E>>, client: C)
    requires Extends(longer, log)
    ensures |CommitsOf(log, client)| <= |CommitsOf(longer, client)|
    decreases |longer|
  {
    if longer != log {
      var n := |longer| - 1;
      assert longer[..n][..|log|] == log;
      CommitsGrow(log, longer[..n], client);
    }
  }

  lemma {:induction false} OwnSplit<C, A, E>(log: seq<Commit<C, A, E>>, from: nat, mid: nat, handler: nat)
    requires from <= mid <= |log|
    ensures Own(log, from, handler) == Own(log[..mid], from, handler) + Own(log, mid, handler)
    decreases |log|
  {
    if mid == |log| {
      assert log[..mid] == log;
    } else {
      var n := |log| - 1;
      assert log[..n][..mid] == log[..mid];
      OwnSplit(log[..n], from, mid, handler);
    }
  }

  // ----- exactly once

  ghost predicate IsCommit<C, A, E>(log: seq<Commit<C, A, E>>, k: int, client: C, id: int) {
    0 <= k < |log| && log[k].client == client && log[k].id == id
  }

  /** A client's commit at position `k` is preceded by all its earlier ones. */
  lemma {:induction false} CommitAt<C, A, E>(log: seq<Commit<C, A, E>>, k: nat)
    requires k < |log|
    ensures var before := |CommitsOf(log[..k], log[k].client)|;
      before < |CommitsOf(log, log[k].client)| && CommitsOf(log, log[k].client)[before] == log[k]
    decreases |log|
  {
    var n := |log| - 1;
    if k < n {
      CommitAt(log[..n], k);
      assert log[..n][..k] == log[..k];
    }
  }

  lemma {:induction false} CommitExists<C, A, E>(log: seq<Commit<C, A, E>>, client: C, i: nat) returns (k: nat)
    requires i < |CommitsOf(log, client)|
    ensures k < |log| && log[k] == CommitsOf(log, client)[i] && log[k].client == client
    decreases |log|
  {
    var n := |log| - 1;
    if i < |CommitsOf(log[..n], client)| {
      k := CommitExists(log[..n], client, i);
    } else {
      k := n;
    }
  }

  /** In a log in order, exactly the ids up to the counter are committed, each of them once. */
  lemma ExactlyOnce<C(!new), A, E>(log: seq<Commit<C, A, E>>, client: C, id: int)
    requires InOrder(log)
    ensures (exists k :: IsCommit(log, k, client, id)) <==> 1 <= id <= |CommitsOf(log, client)|
    ensures forall j, k :: IsCommit(log, j, client, id) && IsCommit(log, k, client, id) ==> j == k
  {
    if 1 <= id <= |CommitsOf(log, client)| {
      var k := CommitExists(log, client, id - 1);
      assert IsCommit(log, k, client, id);
    }
    forall k | IsCommit(log, k, client, id) ensures id == |CommitsOf(log[..k], client)| + 1 <= |CommitsOf(log, client)| {
      CommitAt(log, k);
    }
    forall j, k | IsCommit(log, j, client, id) && IsCommit(log, k, client, id) && j < k ensures false {
      assert log[..j + 1][..j] == log[..j];
      assert log[..k][..j + 1] == log[..j + 1];
      CommitsGrow(log[..j + 1], log[..k], client);
    }
  }

  lemma {:induction false} OwnAt<C, A, E>(log: seq<Commit<C, A, E>>, from: nat, handler: nat) returns (k: nat)
    requires from <= |log| && Own(log, from, handler) != []
    ensures from <= k < |log| && log[k] == Own(log, from, handler)[0] && log[k].handler == handler
    decreases |log|
  {
    var n := |log| - 1;
    if Own(log[..n], from, handler) != [] {
      k := OwnAt(log[..n], from, handler);
    } else {
      k := n;
    }
  }

  ghost predicate Conclusive<E>(r: Response<E>) { r.Ok? || r.App? }

  /**
   At most one handler, in one of its turns, tells the outcome of a mutation: two conclusive answers for the same id of the
   same client are the same answer, of the same handler, about the same commit.
   */
  lemma OneOutcome<C(!new), A, E>(log: seq<Commit<C, A, E>>, m: Mutation<C, A>, from: nat, to: nat, handler: nat, r: Response<E>,
                                  m': Mutation<C, A>, from': nat, to': nat, handler': nat, r': Response<E>)
    requires InOrder(log) && from <= to <= |log| && from' <= to' <= |log| && m.client == m'.client && m.id == m'.id
    requires Conclusive(r) && Meaning(Some(r), m, log[..to], from, handler)
    requires Conclusive(r') && Meaning(Some(r'), m', log[..to'], from', handler')
    ensures handler == handler' && r == r' && exists k :: from <= k < to && from' <= k < to' && IsCommit(log, k, m.client, m.id)
  {
    var k := OwnAt(log[..to], from, handler);
    var k' := OwnAt(log[..to'], from', handler');
    assert IsCommit(log, k, m.client, m.id) && IsCommit(log, k', m.client, m.id);
    ExactlyOnce(log, m.client, m.id);
  }

  // ----- the handler's code

  datatype PushResponse<+E> = UnsupportedPushVersion | Mutations(responses: seq<Response<E>>) | Thrown(answered: nat)

  /** No mutation of the push skips an id, given what is committed or comes earlier in the push. */
  ghost predicate Gapless<C, A, E>(push: seq<Mutation<C, A>>, log: seq<Commit<C, A, E>>) {
    forall i :: 0 <= i < |push| ==>
      || push[i].id <= |CommitsOf(log, push[i].client)| + 1
      || exists j :: 0 <= j < i && push[j].client == push[i].client && push[i].id <= push[j].id + 1
  }

  class Transactor<C(!new, ==), A(!new), D, E(!new)> {
    const db: Database<C, A, D, E>
    const handler: nat
    /** What other handlers do before the n-th transaction of this one, and what goes wrong in it. */
    const others: nat -> seq<Step<C, A, E>>
    const faults: nat -> Fault<E>
    var turn: nat

    ghost predicate Valid()
      reads this, db
    {
      db.Valid() && forall t, i :: 0 <= i < |others(t)| ==> others(t)[i].handler != handler
    }

    constructor (db: Database<C, A, D, E>, handler: nat, others: nat -> seq<Step<C, A, E>>, faults: nat -> Fault<E>)
      requires db.Valid() && forall t, i :: 0 <= i < |others(t)| ==> others(t)[i].handler != handler
      ensures Valid() && this.db == db && this.handler == handler
    {
      this.db, this.handler, this.others, this.faults, turn := db, handler, others, faults, 0;
    }

    /** Other handlers get their turn. */
    method Interfere()
      requires Valid()
      modifies db
      ensures Valid() && Extends(db.log, old(db.log))
      ensures Own(db.log, |old(db.log)|, handler) == []
      ensures Interfered(db.mutator, db.initial, old(db.log), others(turn), db.log)
    {
      hide Attempted, Database.Valid, Own;
      var steps := others(turn);
      NoneYet(db.log);
      for i := 0 to |steps|
        invariant Valid() && Extends(db.log, old(db.log))
        invariant Own(db.log, |old(db.log)|, handler) == []
        invariant Interfered(db.mutator, db.initial, old(db.log), steps[..i], db.log)
      {
        ghost var before := db.log;
        OtherStep(steps[i]);
        OwnSplit(db.log, |old(db.log)|, |before|, handler);
        assert steps[..i + 1][..i] == steps[..i];
      }
      assert steps[..|steps|] == steps;
    }

    lemma NoneYet(log: seq<Commit<C, A, E>>)
      ensures Own(log, |log|, handler) == []
    {
    }

    /** One transaction of another handler. */
    method OtherStep(s: Step<C, A, E>)
      requires Valid() && s.handler != handler
      modifies db
      ensures Valid() && Extends(db.log, old(db.log)) && Own(db.log, |old(db.log)|, handler) == []
      ensures exists r :: Attempted(db.mutator, db.initial, old(db.log), s.mutation, s.caught, s.fault, s.handler, r, db.log)
    {
      hide Attempted, Database.Valid;
      ghost var before := db.log;
      var r := db.Transaction(s.mutation, s.caught, s.fault, s.handler);
      if db.log != before { assert db.log[..|before|] == before; }
      assert Attempted(db.mutator, db.initial, old(db.log), s.mutation, s.caught, s.fault, s.handler, r, db.log);
    }

    /** After others have had their turn `t`, this handler's transaction in that turn. */
    ghost predicate Tried(m: Mutation<C, A>, caught: Option<E>, t: nat, log: seq<Commit<C, A, E>>, r: TransactionResult<E>,
                          longer: seq<Commit<C, A, E>>)
    {
      exists before :: Interfered(db.mutator, db.initial, log, others(t), before)
        && Attempted(db.mutator, db.initial, before, m, caught, faults(t), handler, r, longer)
    }

    /**
     How a mutation is answered, from turn `t` and the commits `log` on: the first transaction runs the mutator; if it fails,
     for whatever reason, and only then, there is a second one that records the error. `None` is an exception.
     */
    ghost predicate Answering(m: Mutation<C, A>, t: nat, log: seq<Commit<C, A, E>>, r: Option<Response<E>>, t': nat,
                              longer: seq<Commit<C, A, E>>)
    {
      || (t' == t + 1 && r == Some(Ok) && Tried(m, None, t, log, Committed, longer))
      || (t' == t + 1 && r == Some(AlreadyDone) && Tried(m, None, t, log, AlreadyProcessed, longer))
      || (t' == t + 1 && r == Some(OutOfSequence) && Tried(m, None, t, log, OutOfOrder, longer))
      || (t' == t + 2 && exists e, between :: Tried(m, None, t, log, Failed(e), between) && Recording(m, e, t + 1, between, r, longer))
    }

    ghost predicate NotRecorded(m: Mutation<C, A>, e: E, t: nat, log: seq<Commit<C, A, E>>, longer: seq<Commit<C, A, E>>) {
      exists e' :: Tried(m, Some(e), t, log, Failed(e'), longer)
    }

    /** The second transaction, in error mode. */
    ghost predicate Recording(m: Mutation<C, A>, e: E, t: nat, log: seq<Commit<C, A, E>>, r: Option<Response<E>>,
                              longer: seq<Commit<C, A, E>>)
    {
      || (r == Some(App(e)) && Tried(m, Some(e), t, log, Committed, longer))
      || (r == Some(AlreadyDone) && Tried(m, Some(e), t, log, AlreadyProcessed, longer))
      || (r == Some(OutOfSequence) && Tried(m, Some(e), t, log, OutOfOrder, longer))
      || (r == None && NotRecorded(m, e, t, log, longer))
    }

    /** One transaction of this handler, after others have had their turn. */
    method Attempt(m: Mutation<C, A>, caught: Option<E>) returns (r: TransactionResult<E>)
      requires Valid()
      modifies this`turn, db
      ensures Valid() && Extends(db.log, old(db.log))
      ensures var own := Own(db.log, |old(db.log)|, handler);
        && (own == [] || (own == [db.log[|db.log| - 1]] && own == [Commit(m.client, m.id, if caught.None? then Effects(m.args) else AppError(caught.value), handler)]))
        && (r.Committed? ==> own != []) && (r.AlreadyProcessed? || r.OutOfOrder? ==> own == [])
      ensures Own(db.log, |old(db.log)|, handler) != [] || r.AlreadyProcessed? ==> m.id <= |CommitsOf(db.log, m.client)|
      ensures m.id <= |CommitsOf(old(db.log), m.client)| ==> Own(db.log, |old(db.log)|, handler) == []
      ensures r.OutOfOrder? ==> |CommitsOf(db.log, m.client)| + 1 < m.id
      ensures turn == old(turn) + 1 && Tried(m, caught, old(turn), old(db.log), r, db.log)
    {
      hide Interfered, Database.Valid, Database.Expected, Database.Commits, DataAfter;
      Interfere();
      CommitsGrow(old(db.log), db.log, m.client);
      ghost var before := db.log;
      r := db.Transaction(m, caught, faults(turn), handler);
      if db.log != before { assert db.log[..|before|] == before; }
      turn := turn + 1;
    }

    /** The retry loop: a first failure is retried in error mode; a failure in error mode is passed on as an exception. */
    method Transact(m: Mutation<C, A>) returns (r: Option<Response<E>>)
      requires Valid()
      modifies this`turn, db
      ensures Valid() && Extends(db.log, old(db.log)) && Meaning(r, m, db.log, |old(db.log)|, handler)
      ensures r.Some? && !r.value.OutOfSequence? ==> m.id <= |CommitsOf(db.log, m.client)|
      ensures Answering(m, old(turn), old(db.log), r, turn, db.log)
    {
      hide CommitsOf, Tried, Database.Valid;
      var caught: Option<E> := None;
      ghost var from := |db.log|;
      while true
        invariant Valid() && Extends(db.log, old(db.log))
        invariant Own(db.log, from, handler) == []
          || (caught.Some? && Own(db.log, from, handler) == [Commit(m.client, m.id, Effects(m.args), handler)])
        invariant Own(db.log, from, handler) != [] ==> m.id <= |CommitsOf(db.log, m.client)|
        invariant caught.None? ==> turn == old(turn) && db.log == old(db.log)
        invariant caught.Some? ==> turn == old(turn) + 1 && Tried(m, None, old(turn), old(db.log), Failed(caught.value), db.log)
        decreases caught.None?
      {
        ghost var before := db.log;
        var attempt := Attempt(m, caught);
        OwnSplit(db.log, from, |before|, handler);
        CommitsGrow(before, db.log, m.client);
        assert db.log[..|before|][..from] == db.log[..from];
        assert db.log[..|db.log|] == db.log;
        match attempt {
          case Committed =>
            return Some(if caught.Some? then App(caught.value) else Ok);
          case OutOfOrder =>
            return Some(OutOfSequence);
          case AlreadyProcessed =>
            return Some(AlreadyDone);
          case Failed(e) =>
            if caught.Some? {
              return None;
            }
            caught := Some(e);
        }
      }
    }

    /** Every answer of a push is that of its mutation, from where the one before has left the database. */
    ghost predicate AllAnswering(responses: seq<Response<E>>, push: seq<Mutation<C, A>>, log: seq<Commit<C, A, E>>,
                                 marks: seq<nat>, turns: seq<nat>)
    {
      && |responses| <= |push| && |marks| == |turns| == |responses| + 1 && marks[|responses|] == |log|
      && (forall i :: 0 <= i < |marks| ==> marks[i] <= |log|)
      && forall i :: 0 <= i < |responses| ==>
           Answering(push[i], turns[i], log[..marks[i]], Some(responses[i]), turns[i + 1], log[..marks[i + 1]])
    }

    lemma OneMoreAnswering(responses: seq<Response<E>>, push: seq<Mutation<C, A>>, log: seq<Commit<C, A, E>>,
                           longer: seq<Commit<C, A, E>>, marks: seq<nat>, turns: seq<nat>, t: nat, r: Response<E>)
      requires AllAnswering(responses, push, log, marks, turns) && |responses| < |push| && Extends(longer, log)
      requires Answering(push[|responses|], turns[|responses|], log, Some(r), t, longer)
      ensures AllAnswering(responses + [r], push, longer, marks + [|longer|], turns + [t])
    {
      hide Answering;
      var rs, ms, ts := responses + [r], marks + [|longer|], turns + [t];
      assert longer[..|longer|] == longer;
      forall i | 0 <= i < |rs|
        ensures Answering(push[i], ts[i], longer[..ms[i]], Some(rs[i]), ts[i + 1], longer[..ms[i + 1]])
      {
        if i < |responses| {
          assert longer[..|log|][..marks[i]] == longer[..marks[i]];
          assert longer[..|log|][..marks[i + 1]] == longer[..marks[i + 1]];
        }
      }
    }

    /** In turn `t` the mutation was tried, and in the next turn its error could not be recorded. */
    ghost predicate FailedTwice(m: Mutation<C, A>, log: seq<Commit<C, A, E>>, t: nat) {
      exists before, e, between :: Tried(m, None, t, before, Failed(e), between) && NotRecorded(m, e, t + 1, between, log)
    }

    /** An exception means that both transactions have failed. */
    lemma Twice(m: Mutation<C, A>, t: nat, log: seq<Commit<C, A, E>>, t': nat, longer: seq<Commit<C, A, E>>)
      requires Answering(m, t, log, None, t', longer)
      ensures t' == t + 2 && FailedTwice(m, longer, t)
    {
      hide Tried;
    }

    /**
     A mutation that comes in sequence, without faults and without other handlers: it has its effects, or else its error is
     recorded, and either way the client's counter moves on by one and the handler answers with the outcome.
     */
    lemma MovesOn(m: Mutation<C, A>, t: nat, log: seq<Commit<C, A, E>>, r: Option<Response<E>>, t': nat,
                  longer: seq<Commit<C, A, E>>)
      requires Answering(m, t, log, r, t', longer) && m.id == |CommitsOf(log, m.client)| + 1
      requires others(t) == [] && others(t + 1) == [] && faults(t).NoFault? && faults(t + 1).NoFault?
      ensures var done := db.mutator(m.args, DataAfter(db.mutator, db.initial, log));
        if done.Success? then t' == t + 1 && r == Some(Ok) && longer == log + [Commit(m.client, m.id, Effects(m.args), handler)]
        else t' == t + 2 && r == Some(App(done.error)) && longer == log + [Commit(m.client, m.id, AppError(done.error), handler)]
      ensures |CommitsOf(longer, m.client)| == m.id
    {
      hide DataAfter;
      assert forall c :: (log + [c])[..|log|] == log;
    }

    /** If the first transaction fails and nothing is in the way of the second one, the answer is the error, and it is recorded. */
    lemma ErrorIsRecorded(m: Mutation<C, A>, t: nat, log: seq<Commit<C, A, E>>, e: E, between: seq<Commit<C, A, E>>,
                          before: seq<Commit<C, A, E>>, r: Option<Response<E>>, t': nat, longer: seq<Commit<C, A, E>>)
      requires Answering(m, t, log, r, t', longer) && Tried(m, None, t, log, Failed(e), between)
      requires Interfered(db.mutator, db.initial, between, others(t + 1), before)
      requires m.id == |CommitsOf(before, m.client)| + 1 && faults(t + 1).NoFault?
      ensures t' == t + 2 && r == Some(App(e)) && longer == before + [Commit(m.client, m.id, AppError(e), handler)]
    {
      hide Tried, Interfered;
      Determined(m, None, t, log);
      Determined(m, Some(e), t + 1, between);
      var expected := before + [Commit(m.client, m.id, AppError(e), handler)];
      assert Tried(m, Some(e), t + 1, between, Committed, expected) by { CanCommit(m, e, t + 1, between, before); }
    }

    lemma CanCommit(m: Mutation<C, A>, e: E, t: nat, log: seq<Commit<C, A, E>>, before: seq<Commit<C, A, E>>)
      requires Interfered(db.mutator, db.initial, log, others(t), before)
      requires m.id == |CommitsOf(before, m.client)| + 1 && faults(t).NoFault?
      ensures Tried(m, Some(e), t, log, Committed, before + [Commit(m.client, m.id, AppError(e), handler)])
    {
    }

    /** Nothing is left to chance but what other handlers do and what goes wrong. */
    lemma Determined(m: Mutation<C, A>, caught: Option<E>, t: nat, log: seq<Commit<C, A, E>>)
      ensures forall r, longer, r', longer' ::
        Tried(m, caught, t, log, r, longer) && Tried(m, caught, t, log, r', longer') ==> r == r' && longer == longer'
    {
      hide Interfered, DataAfter;
      forall a, b | Interfered(db.mutator, db.initial, log, others(t), a) && Interfered(db.mutator, db.initial, log, others(t), b)
        ensures a == b
      {
        SameInterference(db.mutator, db.initial, log, others(t), a, b);
      }
    }

    /**
     `handleMutationRequest`: the mutations of a push, one after the other, until one is out of order or its error cannot be
     recorded. `marks` are the lengths of the log before and between them, `turns` the turns.
     */
    method HandleMutationRequest(pushVersion: int, push: seq<Mutation<C, A>>)
      returns (r: PushResponse<E>, ghost marks: seq<nat>, ghost turns: seq<nat>)
      requires Valid()
      modifies this`turn, db
      ensures Valid() && Extends(db.log, old(db.log))
      ensures pushVersion != 1 ==> r == UnsupportedPushVersion && db.log == old(db.log)
      ensures r.Mutations? ==> Answered(r.responses, push, db.log, old(db.log), marks, handler)
      ensures r.Mutations? ==> AllAnswering(r.responses, push, db.log, marks, turns)
      ensures r.Thrown? ==> r.answered < |push| && turn >= 2 && FailedTwice(push[r.answered], db.log, turn - 2)
      ensures r.Mutations? && |r.responses| < |push| ==> r.responses != [] && r.responses[|r.responses| - 1].OutOfSequence?
      ensures r.Mutations? && Gapless(push, old(db.log)) ==>
        |r.responses| == |push| && forall i :: 0 <= i < |push| ==> push[i].id <= |CommitsOf(db.log, push[i].client)|
    {
      hide CommitsOf, Own, Database.Valid, Meaning, Gapless, Answering;
      marks, turns := [|db.log|], [turn];
      if pushVersion != 1 {
        return UnsupportedPushVersion, marks, turns;
      }
      var responses: seq<Response<E>> := [];
      var i := 0;
      while i < |push|
        invariant Valid() && Extends(db.log, old(db.log))
        invariant i == |responses| <= |push|
        invariant Answered(responses, push, db.log, old(db.log), marks, handler)
        invariant AllAnswering(responses, push, db.log, marks, turns) && turns[|responses|] == turn
        invariant forall j :: 0 <= j < i ==> !responses[j].OutOfSequence?
      {
        ghost var before := db.log;
        ghost var was := turn;
        var res := Transact(push[i]);
        if res.None? {
          Twice(push[i], was, before, turn, db.log);
          return Thrown(i), marks, turns;
        }
        OneMoreAnswering(responses, push, before, db.log, marks, turns, turn, res.value);
        OneMore(responses, push, before, db.log, old(db.log), marks, handler, res.value);
        responses, marks, turns := responses + [res.value], marks + [|db.log|], turns + [turn];
        if res.value.OutOfSequence? {
          if Gapless(push, old(db.log)) { NeverBehind(responses, push, db.log, old(db.log), marks, handler, i); }
          return Mutations(responses), marks, turns;
        }
        i := i + 1;
      }
      StillCommitted(responses, push, db.log, old(db.log), marks, handler);
      return Mutations(responses), marks, turns;
    }
  }

  /** Answer `i` has its meaning for the part of the log that was written meanwhile. */
  ghost predicate AnsweredAt<C(!new), A, E>(i: nat, responses: seq<Response<E>>, push: seq<Mutation<C, A>>,
                                            log: seq<Commit<C, A, E>>, marks: seq<nat>, handler: nat)
    requires i < |responses| && i < |push| && i + 1 < |marks|
  {
    && marks[i] <= marks[i + 1] <= |log|
    && Meaning(Some(responses[i]), push[i], log[..marks[i + 1]], marks[i], handler)
    && (!responses[i].OutOfSequence? ==> push[i].id <= |CommitsOf(log[..marks[i + 1]], push[i].client)|)
  }

  ghost predicate Answered<C(!new), A, E>(responses: seq<Response<E>>, push: seq<Mutation<C, A>>, log: seq<Commit<C, A, E>>,
                                          start: seq<Commit<C, A, E>>, marks: seq<nat>, handler: nat)
  {
    && |responses| <= |push| && |marks| == |responses| + 1 && Extends(log, start)
    && marks[0] == |start| && marks[|responses|] == |log|
    && (forall i, j :: 0 <= i <= j < |marks| ==> marks[i] <= marks[j])
    && (forall i :: 0 <= i < |responses| ==> AnsweredAt(i, responses, push, log, marks, handler))
  }

  lemma OneMore<C(!new), A, E>(responses: seq<Response<E>>, push: seq<Mutation<C, A>>, log: seq<Commit<C, A, E>>,
                               longer: seq<Commit<C, A, E>>, start: seq<Commit<C, A, E>>, marks: seq<nat>, handler: nat,
                               r: Response<E>)
    requires Answered(responses, push, log, start, marks, handler) && |responses| < |push| && Extends(longer, log)
    requires Meaning(Some(r), push[|responses|], longer, |log|, handler)
    requires !r.OutOfSequence? ==> push[|responses|].id <= |CommitsOf(longer, push[|responses|].client)|
    ensures Answered(responses + [r], push, longer, start, marks + [|longer|], handler)
  {
    hide CommitsOf, Own, Meaning;
    assert longer[..|longer|] == longer;
    assert longer[..|log|][..|start|] == longer[..|start|];
    var rs, ms := responses + [r], marks + [|longer|];
    forall i | 0 <= i < |responses| ensures AnsweredAt(i, rs, push, longer, ms, handler) {
      assert AnsweredAt(i, responses, push, log, marks, handler);
      assert longer[..|log|][..marks[i + 1]] == longer[..marks[i + 1]];
    }
  }

  /** What has been answered stays committed. */
  lemma StillCommitted<C(!new), A, E>(responses: seq<Response<E>>, push: seq<Mutation<C, A>>, log: seq<Commit<C, A, E>>,
                                      start: seq<Commit<C, A, E>>, marks: seq<nat>, handler: nat)
    requires Answered(responses, push, log, start, marks, handler)
    ensures forall i :: 0 <= i < |responses| && !responses[i].OutOfSequence? ==> push[i].id <= |CommitsOf(log, push[i].client)|
  {
    hide CommitsOf, Meaning;
    forall i | 0 <= i < |responses| && !responses[i].OutOfSequence?
      ensures push[i].id <= |CommitsOf(log, push[i].client)|
    {
      assert AnsweredAt(i, responses, push, log, marks, handler);
      CommitsGrow(log[..marks[i + 1]], log, push[i].client);
    }
  }

  /** A push without gaps is never out of order: what it builds on has been answered already. */
  lemma NeverBehind<C(!new), A, E>(responses: seq<Response<E>>, push: seq<Mutation<C, A>>, log: seq<Commit<C, A, E>>,
                                   start: seq<Commit<C, A, E>>, marks: seq<nat>, handler: nat, i: nat)
    requires Answered(responses, push, log, start, marks, handler) && Gapless(push, start) && i == |responses| - 1
    requires forall j :: 0 <= j < i ==> !responses[j].OutOfSequence?
    ensures !responses[i].OutOfSequence?
  {
    hide CommitsOf, Own;
    assert AnsweredAt(i, responses, push, log, marks, handler);
    if responses[i].OutOfSequence? {
      var m := push[i];
      var k :| marks[i] <= k <= marks[i + 1] && |CommitsOf(log[..marks[i + 1]][..k], m.client)| + 1 < m.id;
      assert log[..marks[i + 1]][..k] == log[..k];
      if m.id <= |CommitsOf(start, m.client)| + 1 {
        assert log[..k][..|start|] == log[..|start|];
        CommitsGrow(start, log[..k], m.client);
      } else {
        var j :| 0 <= j < i && push[j].client == m.client && m.id <= push[j].id + 1;
        assert AnsweredAt(j, responses, push, log, marks, handler);
        assert log[..k][..marks[j + 1]] == log[..marks[j + 1]];
        CommitsGrow(log[..marks[j + 1]], log[..k], m.client);
      }
    }
  }
}
