/** The manager: commits select subscriptions and watchers, whose runs and callbacks come later and may overlap. */
module SubscriptionsManager {
  import opened Wrappers
  import opened SortedSet
  import opened KeyOrder
  import opened ScanIterator
  import opened Subscriptions
  import opened Watches

  ghost predicate Distinct<A>(s: seq<A>) {
    forall i, j :: 0 <= i < j < |s| ==> s[i] != s[j]
  }

  /** The record is up to date with the store, or a run is to come. */
  ghost predicate SubscriptionOk<V(!new), R(!new)>(s: SubscriptionImpl<V, R>, store: seq<Entry<V>>, waiting: bool)
    reads s
  {
    s.Kept() && (s.selected > 0 || (if s.ran then s.UpToDate(store) else waiting))
  }

  /** All results to be delivered are what the body returns on the store. */
  ghost predicate AllPrompt<V(!new), R(!new)>(s: SubscriptionImpl<V, R>, store: seq<Entry<V>>)
    reads s`stale, s`results, s`keys, s`scans, s`answers
  {
    !s.stale && s.Prompt() && (s.results == [] || s.UpToDate(store))
  }

  lemma NothingLate<V(!new), R(!new)>(s: SubscriptionImpl<V, R>, a: seq<Entry<V>>, b: seq<Entry<V>>)
    requires AllPrompt(s, a) && s.results == []
    ensures AllPrompt(s, b)
  {
  }

  /**
   A commit selects; the fire that it starts, and those of earlier commits and of first runs, run and deliver in any order
   afterwards. A body runs under the read lock, so no commit comes in between; it reads the store of that moment, which may
   be later than that of the commit that selected it.
   */
  class SubscriptionsManagerImpl<V(!new), R(!new)> {
    var subscriptions: seq<SubscriptionImpl<V, R>>
    var watchers: seq<WatchSubscription<V>>
    var pending: seq<SubscriptionImpl<V, R>>
    var pendingWatchers: seq<WatchSubscription<V>>
    /** The store as of the last commit. */
    var store: seq<Entry<V>>
    /** No commit has come between a run and the delivery of its result. */
    ghost var prompt: bool

    ghost predicate Valid()
      reads this, subscriptions, watchers
    {
      && Stored(store) && Listed() && AllOk(store) && NoneLate(store)
    }

    ghost predicate Listed()
      reads `subscriptions, `watchers, `pending, `pendingWatchers, watchers`read
    {
      && Distinct(subscriptions) && Distinct(watchers) && Distinct(pending) && Distinct(pendingWatchers)
      && (forall s :: s in pending ==> s in subscriptions)
      && (forall w :: w in pendingWatchers ==> w in watchers && !w.read)
    }

    ghost predicate AllOk(store: seq<Entry<V>>)
      reads `subscriptions, `watchers, `pending, subscriptions, watchers
    {
      && (forall s :: s in subscriptions ==> SubscriptionOk(s, store, s in pending))
      && (forall w :: w in watchers ==> w.Ok(store))
    }

    /** While all have been prompt, the results to be delivered are those of the store. */
    ghost predicate NoneLate(store: seq<Entry<V>>)
      reads `prompt, `subscriptions
      reads subscriptions`stale, subscriptions`results, subscriptions`keys, subscriptions`scans, subscriptions`answers
    {
      prompt ==> forall s :: s in subscriptions ==> AllPrompt(s, store)
    }

    /** No run and no delivery is outstanding. */
    ghost predicate Quiet()
      reads this, subscriptions, watchers
    {
      && pending == [] && pendingWatchers == []
      && (forall s :: s in subscriptions ==> s.selected == 0 && s.results == [])
      && (forall w :: w in watchers ==> w.Quiet())
    }

    /**
     Once nothing is outstanding: subscriptions are up to date, whatever fires have overlapped, unless a result has been
     delivered after that of a later run; and watchers mirror the store unless one of their diffs has overtaken another.
     */
    lemma AllCurrent()
      requires Valid() && Quiet()
      ensures forall s :: s in subscriptions && !s.stale ==> s.Current(store)
      ensures prompt ==> forall s :: s in subscriptions ==> s.Current(store)
      ensures forall w :: w in watchers && w.initialValuesInFirstDiff && !w.overtaken ==> Mirrors(w.copy, w.prefix, store)
    {
      hide Stored, Mirrors, Completes, ReadsOf;
      forall w | w in watchers && w.initialValuesInFirstDiff && !w.overtaken ensures Mirrors(w.copy, w.prefix, store) {
        w.QuietMirrors(store);
      }
      forall s | s in subscriptions && !s.stale ensures s.Current(store) {
        assert SubscriptionOk(s, store, s in pending);
      }
    }

    constructor (store: seq<Entry<V>>)
      requires Stored(store)
      ensures Valid() && Quiet() && prompt && this.store == store && subscriptions == [] && watchers == []
    {
      subscriptions, watchers, pending, pendingWatchers := [], [], [], [];
      this.store, prompt := store, true;
    }

    method Subscribe(s: SubscriptionImpl<V, R>)
      requires Valid() && s !in subscriptions && s.New() && s.Sensible()
      modifies this`subscriptions, this`pending
      ensures Valid() && subscriptions == old(subscriptions) + [s]
    {
      hide Stored;
      subscriptions, pending := subscriptions + [s], pending + [s];
    }

    method Watch(w: WatchSubscription<V>)
      requires Valid() && w !in watchers && w.New()
      modifies this`watchers, this`pendingWatchers, w`behind
      ensures Valid() && watchers == old(watchers) + [w]
    {
      hide Stored, SubscriptionOk, AllPrompt;
      w.behind := [store];
      watchers, pendingWatchers := watchers + [w], pendingWatchers + [w];
    }

    /** A commit takes the store to `b`; its fire selects what the diff matches, by the records of that moment. */
    method Commit(diff: seq<DiffOp<V>>, b: seq<Entry<V>>)
      requires Valid() && Stored(b) && IsDiff(store, b, diff)
      modifies this`store, this`prompt, subscriptions`selected, watchers`queue, watchers`behind
      ensures Valid() && store == b
      ensures prompt == old(prompt && forall s :: s in subscriptions ==> s.results == [])
      ensures forall s :: s in subscriptions ==>
        s.selected == old(s.selected) + if DiffMatchesSubscription(s.keys, s.scans, diff) then 1 else 0
      ensures forall w :: w in watchers ==> w.queue == old(w.queue) + Chosen(diff, w.prefix)
    {
      hide Chosen, Stored, IsDiff, SubscriptionOk, DiffMatchesSubscription, Listed, AllOk, NoneLate;
      SelectAll(diff, b);
      SettlePrompt(b);
      store := b;
    }

    ghost method SettlePrompt(b: seq<Entry<V>>)
      requires NoneLate(store)
      modifies this`prompt
      ensures prompt == old(prompt && forall s :: s in subscriptions ==> s.results == []) && NoneLate(b)
    {
      hide AllPrompt;
      prompt := prompt && forall s :: s in subscriptions ==> s.results == [];
      forall s | s in subscriptions && prompt ensures AllPrompt(s, b) { NothingLate(s, store, b); }
    }

    method SelectAll(diff: seq<DiffOp<V>>, b: seq<Entry<V>>)
      requires Valid() && Stored(b) && IsDiff(store, b, diff)
      modifies subscriptions`selected, watchers`queue, watchers`behind
      ensures AllOk(b)
      ensures forall s :: s in subscriptions ==>
        s.selected == old(s.selected) + if DiffMatchesSubscription(s.keys, s.scans, diff) then 1 else 0
      ensures forall w :: w in watchers ==> w.queue == old(w.queue) + Chosen(diff, w.prefix)
    {
      hide Chosen, Stored, IsDiff, SubscriptionOk, DiffMatchesSubscription, AllPrompt, WatchSubscription.Ok;
      SelectSubscriptions(diff, b);
      SelectWatchers(diff, b);
    }

    method SelectWatchers(diff: seq<DiffOp<V>>, b: seq<Entry<V>>)
      requires Distinct(watchers) && IsDiff(store, b, diff) && forall w :: w in watchers ==> w.Ok(store)
      modifies watchers`queue, watchers`behind
      ensures forall w :: w in watchers ==> w.Ok(b) && w.queue == old(w.queue) + Chosen(diff, w.prefix)
    {
      hide IsDiff, WatchSubscription.Ok, Chosen;
      var i := 0;
      while i < |watchers|
        modifies watchers`queue, watchers`behind
        invariant i <= |watchers|
        invariant forall j :: 0 <= j < i ==>
          watchers[j].Ok(b) && watchers[j].queue == old(watchers[j].queue) + Chosen(diff, watchers[j].prefix)
        invariant forall j :: i <= j < |watchers| ==> watchers[j].Ok(store) && watchers[j].queue == old(watchers[j].queue)
      {
        watchers[i].Select(diff, store, b);
        i := i + 1;
      }
    }

    method SelectSubscriptions(diff: seq<DiffOp<V>>, b: seq<Entry<V>>)
      requires Valid() && Stored(b) && IsDiff(store, b, diff)
      modifies subscriptions`selected
      ensures forall s :: s in subscriptions ==>
        && SubscriptionOk(s, b, s in pending)
        && s.selected == old(s.selected) + if DiffMatchesSubscription(s.keys, s.scans, diff) then 1 else 0
    {
      hide Stored, IsDiff, SubscriptionOk, DiffMatchesSubscription, AllPrompt;
      var i := 0;
      while i < |subscriptions|
        modifies subscriptions`selected
        invariant i <= |subscriptions|
        invariant forall j :: 0 <= j < i ==>
          && SubscriptionOk(subscriptions[j], b, subscriptions[j] in pending)
          && subscriptions[j].selected == old(subscriptions[j].selected)
               + if DiffMatchesSubscription(subscriptions[j].keys, subscriptions[j].scans, diff) then 1 else 0
        invariant forall j :: i <= j < |subscriptions| ==>
          && SubscriptionOk(subscriptions[j], store, subscriptions[j] in pending)
          && subscriptions[j].selected == old(subscriptions[j].selected)
      {
        SelectOne(subscriptions[i], diff, store, b, subscriptions[i] in pending);
        i := i + 1;
      }
    }

    /** The initial runs that have been scheduled are started, for all that wait for one. */
    method StartInitialRuns()
      requires Valid()
      modifies this`pending, this`pendingWatchers, subscriptions`selected
      ensures Valid() && pending == [] && pendingWatchers == []
      ensures forall s :: s in subscriptions ==> s.selected == old(s.selected + if s in pending then 1 else 0)
    {
      hide Stored, SubscriptionOk, AllPrompt;
      pendingWatchers := [];
      while pending != []
        modifies this`pending, subscriptions`selected
        invariant Valid() && pendingWatchers == []
        invariant forall s :: s in pending ==> s in old(pending) && s.selected == old(s.selected)
        invariant forall s :: s in subscriptions ==>
          s.selected == old(s.selected) + if s in old(pending) && s !in pending then 1 else 0
        decreases |pending|
      {
        assert pending[0] in pending;
        StartFirst(pending[0]);
      }
    }

    method StartFirst(s: SubscriptionImpl<V, R>)
      requires Valid() && pending != [] && s == pending[0]
      modifies this`pending, s`selected
      ensures Valid() && pending == old(pending)[1..] && s !in pending
      ensures s.selected == old(s.selected) + 1
    {
      hide Stored, Completes, ReadsOf, Follows;
      ghost var was := pending;
      pending := pending[1..];
      assert was == [s] + pending;
      s.selected := s.selected + 1;
    }

    /** A fire that has selected the subscription runs its body on the store of this moment. */
    method RunBody(s: SubscriptionImpl<V, R>)
      requires Valid() && s in subscriptions && s.selected > 0
      modifies s
      ensures Valid() && s.UpToDate(store) && s.selected == old(s.selected) - 1
      ensures s.results == old(s.results) + [s.body(s.answers).outcome] && s.delivered == old(s.delivered) && !s.stale
    {
      hide Stored, Completes, ReadsOf;
      s.Run(store);
    }

    /** A fire that has run the subscription calls it back. */
    method CallBack(s: SubscriptionImpl<V, R>, k: nat)
      requires Valid() && s in subscriptions && k < |s.results|
      modifies s`results, s`lastValue, s`delivered, s`stale
      ensures Valid() && s.results == old(s.results)[..k] + old(s.results)[k + 1..]
      ensures s.stale == old(s.stale || (k == |s.results| - 1 && exists j :: 0 <= j < k && s.results[j] != s.results[k]))
    {
      hide Stored, Completes, ReadsOf;
      s.Deliver(k);
    }

    method ReadInitialValues(w: WatchSubscription<V>)
      requires Valid() && w in watchers && w !in pendingWatchers && !w.read
      modifies w`read, w`first, w`at
      ensures Valid() && w.read && (w.first.Some? <==> w.initialValuesInFirstDiff)
    {
      hide Stored, SubscriptionOk, AllPrompt;
      w.InitialRun(store);
    }

    method GiveInitialValues(w: WatchSubscription<V>)
      requires Valid() && w in watchers && w.first.Some?
      modifies w`delivered, w`copy, w`first
      ensures Valid() && w.first == None
    {
      hide Stored, SubscriptionOk, AllPrompt;
      w.DeliverFirst(store);
    }

    method GiveDiff(w: WatchSubscription<V>, k: nat)
      requires Valid() && w in watchers && k < |w.queue|
      modifies w`delivered, w`copy, w`queue, w`behind, w`at, w`overtaken
      ensures Valid() && w.queue == old(w.queue)[..k] + old(w.queue)[k + 1..]
      ensures w.copy == ApplyDiff(old(w.copy), WithPrefix(old(w.queue)[k], w.prefix))
      ensures w.overtaken == old(w.overtaken || k > 0 || (w.first.Some? && w.at == 0))
    {
      hide Stored, SubscriptionOk, AllPrompt;
      w.Deliver(k, store);
    }

    // ----- runs of the manager

    /** What is outstanding for a subscription ends: the runs, and then the deliveries in order. */
    method SettleSubscription(s: SubscriptionImpl<V, R>)
      requires Valid() && s in subscriptions && s !in pending
      modifies s
      ensures Valid() && s.selected == 0 && s.results == [] && (s.stale ==> old(s.stale))
    {
      hide Valid;
      while s.selected > 0
        modifies s
        invariant Valid() && (s.stale ==> old(s.stale))
      {
        RunBody(s);
      }
      while s.results != []
        modifies s`results, s`lastValue, s`delivered, s`stale
        invariant Valid() && s.selected == 0 && (s.stale ==> old(s.stale))
        decreases |s.results|
      {
        CallBack(s, 0);
      }
    }

    method SettleWatcher(w: WatchSubscription<V>)
      requires Valid() && w in watchers && w !in pendingWatchers
      modifies w
      ensures Valid() && w.Quiet() && w.overtaken == old(w.overtaken)
    {
      hide Valid;
      if !w.read {
        ReadInitialValues(w);
      }
      if w.first.Some? {
        GiveInitialValues(w);
      }
      while w.queue != []
        modifies w`delivered, w`copy, w`queue, w`behind, w`at, w`overtaken
        invariant Valid() && w.read && w.first.None? && w.overtaken == old(w.overtaken)
        decreases |w.queue|
      {
        GiveDiff(w, 0);
      }
    }

    /** Everything that is outstanding ends before another commit, first runs included: everything is up to date then. */
    method Settle()
      requires Valid()
      modifies this`pending, this`pendingWatchers, subscriptions, watchers
      ensures Valid() && Quiet()
      ensures forall s :: s in subscriptions && s.stale ==> old(s.stale)
      ensures forall s :: s in subscriptions && !s.stale ==> s.Current(store)
      ensures prompt ==> forall s :: s in subscriptions ==> s.Current(store)
      ensures forall w :: w in watchers ==> w.overtaken == old(w.overtaken)
      ensures forall w :: w in watchers && w.initialValuesInFirstDiff && !w.overtaken ==> Mirrors(w.copy, w.prefix, store)
    {
      hide Valid, Mirrors, SubscriptionImpl.Current;
      EndAll();
      AllCurrent();
    }

    method EndAll()
      requires Valid()
      modifies this`pending, this`pendingWatchers, subscriptions, watchers
      ensures Valid() && Quiet()
      ensures forall s :: s in subscriptions && s.stale ==> old(s.stale)
      ensures forall w :: w in watchers ==> w.overtaken == old(w.overtaken)
    {
      hide Stored, SubscriptionOk, AllPrompt, WatchSubscription.Ok;
      StartInitialRuns();
      var i := 0;
      while i < |subscriptions|
        modifies subscriptions
        invariant i <= |subscriptions| && Valid()
        invariant forall j :: 0 <= j < i ==> subscriptions[j].selected == 0 && subscriptions[j].results == []
        invariant forall j :: 0 <= j < |subscriptions| && subscriptions[j].stale ==> old(subscriptions[j].stale)
      {
        SettleSubscription(subscriptions[i]);
        i := i + 1;
      }
      i := 0;
      while i < |watchers|
        modifies watchers
        invariant i <= |watchers| && Valid()
        invariant forall j :: 0 <= j < i ==> watchers[j].Quiet()
        invariant forall j :: 0 <= j < |watchers| ==> watchers[j].overtaken == old(watchers[j].overtaken)
      {
        SettleWatcher(watchers[i]);
        i := i + 1;
      }
    }

    /**
     A mutation whose fire is awaited before anything else happens: no result is late and no diff is overtaken, so that
     afterwards everything is up to date with `b` that was up to date before.
     */
    method Fire(diff: seq<DiffOp<V>>, b: seq<Entry<V>>)
      requires Valid() && Quiet() && Stored(b) && IsDiff(store, b, diff)
      modifies this`store, this`prompt, this`pending, this`pendingWatchers, subscriptions, watchers
      ensures Valid() && Quiet() && store == b && prompt == old(prompt)
      ensures forall s :: s in subscriptions && !old(s.stale) ==> s.Current(b)
      ensures forall w :: w in watchers && w.initialValuesInFirstDiff && !old(w.overtaken) ==> Mirrors(w.copy, w.prefix, b)
    {
      hide Valid, IsDiff, Mirrors, SubscriptionImpl.Current;
      Commit(diff, b);
      Settle();
    }

    /** One step of the program, if it can be made: `i` is the place in the list of subscriptions or watchers. */
    method Handle(event: Event<V>)
      requires Valid() && (event.Committed? ==> Stored(event.store) && IsDiff(store, event.store, event.diff))
      modifies this`store, this`prompt, this`pending, this`pendingWatchers, subscriptions, watchers
      ensures Valid() && store == After(old(store), event)
      ensures forall j :: 0 <= j < |subscriptions| && subscriptions[j].stale ==>
        old(subscriptions[j].stale) || (event.ResultComes? && event.i == j && event.k > 0)
      ensures forall j :: 0 <= j < |watchers| && watchers[j].overtaken ==>
        old(watchers[j].overtaken) || (event.DiffComes? && event.i == j && (event.k > 0 || old(watchers[j].first.Some?)))
      ensures forall j :: 0 <= j < |watchers| && watchers[j].first.Some? ==>
        ToCome(event, j, old(watchers[j].first.Some?))
    {
      hide Valid, IsDiff;
      Apart();
      match event
      case Committed(diff, b) => Commit(diff, b);
      case InitialRunsStart => StartInitialRuns();
      case BodyRuns(i) =>
        if i < |subscriptions| && subscriptions[i].selected > 0 {
          RunBody(subscriptions[i]);
        }
      case ResultComes(i, k) =>
        if i < |subscriptions| && k < |subscriptions[i].results| {
          CallBack(subscriptions[i], k);
        }
      case WatcherReads(i) =>
        if i < |watchers| && watchers[i] !in pendingWatchers && !watchers[i].read {
          ReadInitialValues(watchers[i]);
        }
      case InitialValuesCome(i) =>
        if i < |watchers| && watchers[i].first.Some? {
          GiveInitialValues(watchers[i]);
        }
      case DiffComes(i, k) =>
        if i < |watchers| && k < |watchers[i].queue| {
          GiveDiff(watchers[i], k);
        }
    }

    lemma Apart()
      requires Valid()
      ensures Distinct(subscriptions) && Distinct(watchers)
    {
    }

    /** Any number of commits, with runs and deliveries of overlapping fires in any order, until nothing is outstanding. */
    method Run(events: seq<Event<V>>)
      requires Valid() && History(store, events)
      modifies this`store, this`prompt, this`pending, this`pendingWatchers, subscriptions, watchers
      ensures Valid() && Quiet() && store == LastStore(old(store), events)
      ensures forall s :: s in subscriptions && !s.stale ==> s.Current(store)
      ensures prompt ==> forall s :: s in subscriptions ==> s.Current(store)
      ensures forall w :: w in watchers && w.initialValuesInFirstDiff && !w.overtaken ==> Mirrors(w.copy, w.prefix, store)
      ensures forall j :: 0 <= j < |subscriptions| && !old(subscriptions[j].stale) && ResultsInOrder(events, j) ==>
        subscriptions[j].Current(store)
      ensures forall j ::
        (&& 0 <= j < |watchers| && watchers[j].initialValuesInFirstDiff && !old(watchers[j].overtaken)
         && DiffsInOrder(events, j, old(watchers[j].first.Some?)))
        ==> Mirrors(watchers[j].copy, watchers[j].prefix, store)
    {
      hide Valid, IsDiff, Mirrors, SubscriptionImpl.Current;
      for n := 0 to |events|
        invariant Valid()
        invariant History(store, events[n..]) && LastStore(store, events[n..]) == LastStore(old(store), events)
        invariant forall j :: 0 <= j < |subscriptions| && !old(subscriptions[j].stale) && ResultsInOrder(events, j) ==>
          !subscriptions[j].stale
        invariant forall j ::
          (0 <= j < |watchers| && !old(watchers[j].overtaken) && DiffsInOrder(events, j, old(watchers[j].first.Some?)))
          ==> !watchers[j].overtaken && DiffsInOrder(events[n..], j, watchers[j].first.Some?)
      {
        assert events[n..][0] == events[n] && events[n..][1..] == events[n + 1..];
        label before:
        Handle(events[n]);
        forall j | 0 <= j < |watchers| && DiffsInOrder(events[n..], j, old@before(watchers[j].first.Some?))
          ensures DiffsInOrder(events[n + 1..], j, watchers[j].first.Some?)
        {
          if !watchers[j].first.Some? { FewerToCome(events[n + 1..], j); }
        }
      }
      Settle();
    }
  }

  datatype Event<V> = Committed(diff: seq<DiffOp<V>>, store: seq<Entry<V>>) | InitialRunsStart | BodyRuns(i: nat)
                    | ResultComes(i: nat, k: nat) | WatcherReads(i: nat) | InitialValuesCome(i: nat) | DiffComes(i: nat, k: nat)

  /** The results of a subscription's runs come in the order of the runs. */
  ghost predicate ResultsInOrder<V>(events: seq<Event<V>>, i: nat) {
    forall n :: 0 <= n < |events| && events[n].ResultComes? && events[n].i == i ==> events[n].k == 0
  }

  /** Initial values are to come after the event, if they may have been before. */
  predicate ToCome<V>(event: Event<V>, i: nat, before: bool) {
    (event.WatcherReads? && event.i == i) || (before && !(event.InitialValuesCome? && event.i == i))
  }

  /** The diffs of a watcher come in commit order, and none between the reading and the coming of its initial values. */
  ghost predicate DiffsInOrder<V>(events: seq<Event<V>>, i: nat, toCome: bool)
    decreases |events|
  {
    events != [] ==>
      && (events[0].DiffComes? && events[0].i == i ==> events[0].k == 0 && !toCome)
      && DiffsInOrder(events[1..], i, ToCome(events[0], i, toCome))
  }

  lemma {:induction false} FewerToCome<V>(events: seq<Event<V>>, i: nat)
    ensures DiffsInOrder(events, i, true) ==> DiffsInOrder(events, i, false)
    decreases |events|
  {
    if events != [] { FewerToCome(events[1..], i); }
  }

  function After<V>(s: seq<Entry<V>>, event: Event<V>): seq<Entry<V>> {
    if event.Committed? then event.store else s
  }

  function LastStore<V>(s: seq<Entry<V>>, events: seq<Event<V>>): seq<Entry<V>>
    decreases |events|
  {
    if events == [] then s else LastStore(After(s, events[0]), events[1..])
  }

  /** The commits among the events come with their diffs. */
  ghost predicate History<V>(s: seq<Entry<V>>, events: seq<Event<V>>)
    decreases |events|
  {
    events != [] ==>
      && (events[0].Committed? ==> Stored(events[0].store) && IsDiff(s, events[0].store, events[0].diff))
      && History(After(s, events[0]), events[1..])
  }

  method SelectOne<V(!new), R(!new)>(s: SubscriptionImpl<V, R>, diff: seq<DiffOp<V>>, ghost a: seq<Entry<V>>,
                                     ghost b: seq<Entry<V>>, ghost waiting: bool)
    requires Stored(a) && Stored(b) && IsDiff(a, b, diff) && SubscriptionOk(s, a, waiting)
    modifies s`selected
    ensures SubscriptionOk(s, b, waiting)
    ensures s.selected == old(s.selected) + if DiffMatchesSubscription(s.keys, s.scans, diff) then 1 else 0
  {
    hide Stored, IsDiff, Completes, ReadsOf, DiffMatchesSubscription;
    if s.UpToDate(a) && !DiffMatchesSubscription(s.keys, s.scans, diff) { s.SkippedRecord(a, b, diff); }
    s.Select(diff);
  }
}
