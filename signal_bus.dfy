/**
  The in-process signal bus: subscriptions from topic patterns to ordered
  callback lists, a FIFO queue of delayed events, immediate emission and the
  queue flush.

  Callbacks are identified by a number; what a callback returns for given
  arguments is the function `run` (None for success, Some(message) for an
  error). A callback therefore cannot call back into the bus, which the bus's
  non-reentrant lock would forbid anyway. The order in which the bus visits
  patterns is the unspecified iteration order of its map: the methods pick
  patterns arbitrarily and report the order they used as a ghost result, and
  the properties below hold for every order.
*/
module Signals {
  import opened Wrappers
  import opened TopicMatch

  type CallbackId = nat

  /** A queued event: its topic and the arguments given to every callback. */
  datatype Event<A> = Event(topic: string, args: seq<A>)

  /** One callback invocation: callback number `index` of `pattern`'s list. */
  datatype Call<A> = Call(pattern: string, index: nat, cb: CallbackId, args: seq<A>)

  /** The invocations made and the error returned. */
  datatype Dispatched<A> = Dispatched(calls: seq<Call<A>>, err: Option<string>)

  /** The error AfterTransaction returns for a topic nobody listens to. */
  function NoSubscriptionsMessage(topic: string): string
  {
    "no hi ha subscripcions per al tema: " + topic
  }

  /** The order-free reading of the scan: some registered pattern matches the topic. */
  predicate AnyMatch(subs: map<string, seq<CallbackId>>, topic: string)
  {
    exists p :: p in subs && MatchTopic(p, topic)
  }

  /**
    An enumeration of `keys`, each exactly once: the last element is a key and
    the elements before it enumerate the other keys.
  */
  ghost predicate IsOrdering(order: seq<string>, keys: set<string>)
    decreases |order|
  {
    if order == [] then keys == {}
    else
      var p := order[|order| - 1];
      p in keys && IsOrdering(order[..|order| - 1], keys - {p})
  }

  /** Callbacks of one pattern, in list order, until the first error. */
  function RunList<A>(pattern: string, cbs: seq<CallbackId>, args: seq<A>, run: (CallbackId, seq<A>) -> Option<string>): Dispatched<A>
    decreases |cbs|
  {
    if cbs == [] then Dispatched([], None)
    else
      var prev := RunList(pattern, cbs[..|cbs| - 1], args, run);
      if prev.err.Some? then prev
      else
        var i := |cbs| - 1;
        Dispatched(prev.calls + [Call(pattern, i, cbs[i], args)], run(cbs[i], args))
  }

  /** The patterns in `order` that match the topic, each list in turn, until the first error. */
  function Dispatch<A>(subs: map<string, seq<CallbackId>>, order: seq<string>, topic: string, args: seq<A>,
                       run: (CallbackId, seq<A>) -> Option<string>): Dispatched<A>
    decreases |order|
  {
    if order == [] then Dispatched([], None)
    else
      var prev := Dispatch(subs, order[..|order| - 1], topic, args, run);
      var p := order[|order| - 1];
      if prev.err.Some? || p !in subs || !MatchTopic(p, topic) then prev
      else
        var d := RunList(p, subs[p], args, run);
        Dispatched(prev.calls + d.calls, d.err)
  }

  /** The invocations of a queue flush: each event dispatched in turn, whatever the earlier ones returned. */
  function Drain<A>(subs: map<string, seq<CallbackId>>, events: seq<Event<A>>, orders: seq<seq<string>>,
                    run: (CallbackId, seq<A>) -> Option<string>): seq<Call<A>>
    requires |orders| == |events|
    decreases |events|
  {
    if events == [] then []
    else
      var n := |events| - 1;
      Drain(subs, events[..n], orders[..n], run) + Dispatch(subs, orders[n], events[n].topic, events[n].args, run).calls
  }

  /** Every subscribed pattern holds at least one callback. */
  predicate ListsNonEmpty(subs: map<string, seq<CallbackId>>)
  {
    forall p :: p in subs ==> subs[p] != []
  }

  /** Subscription as a value: the callback goes to the end of the pattern's list. */
  function Subscribed(subs: map<string, seq<CallbackId>>, topic: string, cb: CallbackId): map<string, seq<CallbackId>>
  {
    subs[topic := (if topic in subs then subs[topic] else []) + [cb]]
  }

  /**
    The order in which a `range` over the subscription map visits its keys:
    unspecified, so any enumeration of the keys without repetition.
  */
  method RangeOrder(keys: set<string>) returns (order: seq<string>)
    ensures IsOrdering(order, keys)
    ensures forall i :: 0 <= i < |order| ==> order[i] in keys
  {
    var remaining := keys;
    order := [];
    VisitStart(keys);
    while remaining != {}
      invariant Visiting(keys, remaining, order)
      decreases |remaining|
    {
      var p :| p in remaining;
      VisitOne(keys, remaining, order, p);
      remaining := remaining - {p};
      order := order + [p];
    }
    VisitDone(keys, order);
    IsOrderingMeans(order, keys);
  }

  class Bus<A> {
    var subscriptions: map<string, seq<CallbackId>>
    var queue: seq<Event<A>>
    /** Every callback invocation so far, in order. */
    ghost var trace: seq<Call<A>>
    /** How many times the queue has been flushed. */
    ghost var flushes: nat

    ghost predicate Valid()
      reads this
    {
      ListsNonEmpty(subscriptions)
    }

    constructor ()
      ensures Valid()
      ensures subscriptions == map[] && queue == [] && trace == [] && flushes == 0
    {
      subscriptions := map[];
      queue := [];
      trace := [];
      flushes := 0;
    }

    /** Appends `cb` to the list of `topic`, creating the list when absent. */
    method Subscribe(topic: string, cb: CallbackId)
      requires Valid()
      modifies this`subscriptions
      ensures Valid()
      ensures subscriptions == Subscribed(old(subscriptions), topic, cb)
    {
      if topic !in subscriptions {
        subscriptions := subscriptions[topic := []];
      }
      subscriptions := subscriptions[topic := subscriptions[topic] + [cb]];
    }

    /** The scan over the registered patterns. */
    predicate HasMatchingSubscription(topic: string)
      reads this
    {
      AnyMatch(subscriptions, topic)
    }

    /** Queues the event when some pattern matches; runs no callback. */
    method AfterTransaction(topic: string, args: seq<A>) returns (err: Option<string>)
      modifies this`queue
      ensures HasMatchingSubscription(topic) ==> err == None && queue == old(queue) + [Event(topic, args)]
      ensures !HasMatchingSubscription(topic) ==> err == Some(NoSubscriptionsMessage(topic)) && queue == old(queue)
    {
      if !HasMatchingSubscription(topic) {
        return Some(NoSubscriptionsMessage(topic));
      }
      queue := queue + [Event(topic, args)];
      err := None;
    }

    /** Runs one pattern's callbacks in list order, returning at the first error. */
    method RunCallbacks(pattern: string, cbs: seq<CallbackId>, args: seq<A>, run: (CallbackId, seq<A>) -> Option<string>)
      returns (err: Option<string>)
      modifies this`trace
      ensures trace == old(trace) + RunList(pattern, cbs, args, run).calls
      ensures err == RunList(pattern, cbs, args, run).err
    {
      var j := 0;
      while j < |cbs|
        invariant 0 <= j <= |cbs|
        invariant RunList(pattern, cbs[..j], args, run).err == None
        invariant trace == old(trace) + RunList(pattern, cbs[..j], args, run).calls
      {
        var e := run(cbs[j], args);
        assert cbs[..j + 1][..j] == cbs[..j];
        trace := trace + [Call(pattern, j, cbs[j], args)];
        if e.Some? {
          RunListStopsAtError(pattern, cbs, j + 1, args, run);
          return e;
        }
        j := j + 1;
      }
      assert cbs[..|cbs|] == cbs;
      err := None;
    }

    /** Runs the callbacks of every matching pattern, returning at the first error. */
    method ExecuteCallbacks(topic: string, args: seq<A>, run: (CallbackId, seq<A>) -> Option<string>)
      returns (err: Option<string>, ghost order: seq<string>)
      modifies this`trace
      ensures IsOrdering(order, subscriptions.Keys)
      ensures trace == old(trace) + Dispatch(subscriptions, order, topic, args, run).calls
      ensures err == Dispatch(subscriptions, order, topic, args, run).err
    {
      // Only the outcome of each match matters here, not how the matcher works.
      hide MatchTopic;
      var subs := subscriptions;
      var patterns := RangeOrder(subs.Keys);
      var i := 0;
      err := None;
      assert Dispatch(subs, patterns[..i], topic, args, run) == Dispatched([], None);
      // From here on the loop needs only DispatchSnoc and DispatchStopsAtError.
      hide Dispatch, RunList;
      while i < |patterns| && err == None
        invariant 0 <= i <= |patterns|
        invariant Dispatch(subs, patterns[..i], topic, args, run).err == err
        invariant trace == old(trace) + Dispatch(subs, patterns[..i], topic, args, run).calls
      {
        var p := patterns[i];
        ghost var prev := Dispatch(subs, patterns[..i], topic, args, run).calls;
        assert patterns[..i + 1] == patterns[..i] + [p];
        DispatchSnoc(subs, patterns[..i], p, topic, args, run);
        if MatchTopic(p, topic) {
          err := RunCallbacks(p, subs[p], args, run);
          assert trace == old(trace) + (prev + RunList(p, subs[p], args, run).calls);
        }
        i := i + 1;
      }
      order := patterns;
      if i < |patterns| {
        assert patterns[..i] + patterns[i..] == patterns;
        DispatchStopsAtError(subs, patterns[..i], patterns[i..], topic, args, run);
      } else {
        assert patterns[..i] == patterns;
      }
    }

    /** Runs the matching callbacks now; the queue is left alone. */
    method Emit(topic: string, args: seq<A>, run: (CallbackId, seq<A>) -> Option<string>)
      returns (err: Option<string>, ghost order: seq<string>)
      modifies this`trace
      ensures queue == old(queue) && subscriptions == old(subscriptions)
      ensures IsOrdering(order, subscriptions.Keys)
      ensures trace == old(trace) + Dispatch(subscriptions, order, topic, args, run).calls
      ensures err == Dispatch(subscriptions, order, topic, args, run).err
    {
      err, order := ExecuteCallbacks(topic, args, run);
    }

    /** Dispatches the queued events front first until the queue is empty; errors are only logged. */
    method ProcessQueue(run: (CallbackId, seq<A>) -> Option<string>)
      returns (err: Option<string>, ghost orders: seq<seq<string>>)
      modifies this`queue, this`trace, this`flushes
      ensures err == None && queue == []
      ensures |orders| == |old(queue)|
      ensures forall i :: 0 <= i < |orders| ==> IsOrdering(orders[i], subscriptions.Keys)
      ensures trace == old(trace) + Drain(subscriptions, old(queue), orders, run)
      ensures flushes == old(flushes) + 1
    {
      // Only the outcome of each dispatch matters here, through DrainSnoc.
      hide MatchTopic, Dispatch;
      ghost var subs := subscriptions;
      ghost var done: seq<Event<A>> := [];
      orders := [];
      assert Drain(subs, done, orders, run) == [] && OrderingsOf(orders, subs.Keys);
      hide Drain, OrderingsOf;
      while queue != []
        invariant old(queue) == done + queue && |orders| == |done|
        invariant subscriptions == subs
        invariant OrderingsOf(orders, subs.Keys)
        invariant trace == old(trace) + Drain(subs, done, orders, run)
        invariant flushes == old(flushes)
        decreases |queue|
      {
        var ev := queue[0];
        assert done + queue == (done + [ev]) + queue[1..];
        queue := queue[1..];
        var e, o := ExecuteCallbacks(ev.topic, ev.args, run);
        DrainSnoc(subs, done, orders, ev, o, run);
        OrderingsSnoc(orders, o, subs.Keys);
        orders := orders + [o];
        done := done + [ev];
      }
      OrderingsOfMeans(orders, subs.Keys);
      assert done == old(queue);
      flushes := flushes + 1;
      err := None;
    }
  }

  // ---------------------------------------------------------------------------
  // Lemmas used by the methods
  // ---------------------------------------------------------------------------

  /** Dispatch over one more pattern. */
  lemma {:induction false} DispatchSnoc<A>(subs: map<string, seq<CallbackId>>, order: seq<string>, p: string,
                                           topic: string, args: seq<A>, run: (CallbackId, seq<A>) -> Option<string>)
    ensures var prev := Dispatch(subs, order, topic, args, run);
      Dispatch(subs, order + [p], topic, args, run)
        == if prev.err.Some? || p !in subs || !MatchTopic(p, topic) then prev
           else Dispatched(prev.calls + RunList(p, subs[p], args, run).calls, RunList(p, subs[p], args, run).err)
  {
    assert (order + [p])[..|order|] == order;
  }

  /** Each sequence in `orders` enumerates `keys`. */
  ghost predicate OrderingsOf(orders: seq<seq<string>>, keys: set<string>)
    decreases |orders|
  {
    orders == [] || (OrderingsOf(orders[..|orders| - 1], keys) && IsOrdering(orders[|orders| - 1], keys))
  }

  lemma {:induction false} OrderingsSnoc(orders: seq<seq<string>>, o: seq<string>, keys: set<string>)
    requires OrderingsOf(orders, keys) && IsOrdering(o, keys)
    ensures OrderingsOf(orders + [o], keys)
  {
    assert (orders + [o])[..|orders|] == orders;
  }

  lemma {:induction false} OrderingsOfMeans(orders: seq<seq<string>>, keys: set<string>)
    requires OrderingsOf(orders, keys)
    ensures forall i :: 0 <= i < |orders| ==> IsOrdering(orders[i], keys)
    decreases |orders|
  {
    if orders != [] {
      var n := |orders| - 1;
      OrderingsOfMeans(orders[..n], keys);
      forall i | 0 <= i < |orders| ensures IsOrdering(orders[i], keys) {
        if i < n {
          assert orders[i] == orders[..n][i];
        }
      }
    }
  }

  /** A flush over one more event. */
  lemma {:induction false} DrainSnoc<A>(subs: map<string, seq<CallbackId>>, events: seq<Event<A>>, orders: seq<seq<string>>,
                                        ev: Event<A>, o: seq<string>, run: (CallbackId, seq<A>) -> Option<string>)
    requires |orders| == |events|
    ensures Drain(subs, events + [ev], orders + [o], run)
         == Drain(subs, events, orders, run) + Dispatch(subs, o, ev.topic, ev.args, run).calls
  {
    assert (events + [ev])[..|events|] == events && (orders + [o])[..|orders|] == orders;
  }

  /** Once a dispatch has failed, visiting more patterns adds nothing. */
  lemma {:induction false} DispatchStopsAtError<A>(subs: map<string, seq<CallbackId>>, order: seq<string>, more: seq<string>,
                                                   topic: string, args: seq<A>, run: (CallbackId, seq<A>) -> Option<string>)
    requires Dispatch(subs, order, topic, args, run).err.Some?
    ensures Dispatch(subs, order + more, topic, args, run) == Dispatch(subs, order, topic, args, run)
    decreases |more|
  {
    if more != [] {
      var m := more[..|more| - 1];
      assert (order + more)[..|order + more| - 1] == order + m;
      DispatchStopsAtError(subs, order, m, topic, args, run);
    } else {
      assert order + more == order;
    }
  }

  /** A list run whose `k`-th callback failed is the run of the whole list. */
  lemma {:induction false} RunListStopsAtError<A>(pattern: string, cbs: seq<CallbackId>, k: nat, args: seq<A>,
                                                 run: (CallbackId, seq<A>) -> Option<string>)
    requires k <= |cbs| && RunList(pattern, cbs[..k], args, run).err.Some?
    ensures RunList(pattern, cbs, args, run) == RunList(pattern, cbs[..k], args, run)
    decreases |cbs| - k
  {
    if k < |cbs| {
      var n := |cbs| - 1;
      assert cbs[..n][..k] == cbs[..k];
      RunListStopsAtError(pattern, cbs[..n], k, args, run);
    } else {
      assert cbs[..k] == cbs;
    }
  }

  /** `order` enumerates the keys visited so far, and `remaining` holds the others. */
  ghost predicate Visiting(keys: set<string>, remaining: set<string>, order: seq<string>)
  {
    remaining <= keys && IsOrdering(order, keys - remaining)
  }

  /** What an ordering says, index by index: no key twice, and exactly the keys. */
  lemma {:induction false} IsOrderingMeans(order: seq<string>, keys: set<string>)
    requires IsOrdering(order, keys)
    ensures forall i, j :: 0 <= i < j < |order| ==> order[i] != order[j]
    ensures forall x :: x in keys <==> x in order
    decreases |order|
  {
    if order != [] {
      var n := |order| - 1;
      var p := order[n];
      var t := order[..n];
      IsOrderingMeans(t, keys - {p});
      assert order == t + [p];
      forall i, j | 0 <= i < j < |order| ensures order[i] != order[j] {
        if j == n {
          assert order[i] == t[i] && t[i] in t;
        } else {
          assert order[i] == t[i] && order[j] == t[j];
        }
      }
    }
  }

  lemma {:induction false} VisitStart(keys: set<string>)
    ensures Visiting(keys, keys, [])
  {
    assert keys - keys == {};
  }

  /** Visiting one remaining key keeps the split between visited and remaining. */
  lemma {:induction false} VisitOne(keys: set<string>, remaining: set<string>, order: seq<string>, p: string)
    requires Visiting(keys, remaining, order) && p in remaining
    ensures p in keys && Visiting(keys, remaining - {p}, order + [p])
  {
    assert (order + [p])[..|order|] == order;
    assert (keys - (remaining - {p})) - {p} == keys - remaining;
  }

  lemma {:induction false} VisitDone(keys: set<string>, order: seq<string>)
    requires Visiting(keys, {}, order)
    ensures IsOrdering(order, keys)
  {
    assert keys - {} == keys;
  }
}
