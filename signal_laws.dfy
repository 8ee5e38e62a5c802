/**
  What a dispatch of the signal bus guarantees, for every iteration order of
  the subscription map: which callbacks run, with which arguments, in which
  order, and what error comes back; and how a queue flush strings the
  dispatches of the queued events together.
*/
module SignalLaws {
  import opened Wrappers
  import opened TopicMatch
  import opened Signals

  /** All invocations but the last succeeded, and the error is the last one's (none if nothing ran). */
  ghost predicate LastDecides<A>(d: Dispatched<A>, run: (CallbackId, seq<A>) -> Option<string>)
  {
    && (forall j :: 0 <= j < |d.calls| - 1 ==> run(d.calls[j].cb, d.calls[j].args) == None)
    && d.err == (if d.calls == [] then None else run(d.calls[|d.calls| - 1].cb, d.calls[|d.calls| - 1].args))
  }

  /** Every callback of every matching pattern succeeds on these arguments. */
  ghost predicate AllSucceed<A>(subs: map<string, seq<CallbackId>>, topic: string, args: seq<A>,
                                run: (CallbackId, seq<A>) -> Option<string>)
  {
    forall p, i :: p in subs && MatchTopic(p, topic) && 0 <= i < |subs[p]| ==> run(subs[p][i], args) == None
  }

  /** A pattern's list runs as a prefix of the list, stopping right after the first failure. */
  lemma {:induction false} RunListShape<A>(pattern: string, cbs: seq<CallbackId>, args: seq<A>,
                                           run: (CallbackId, seq<A>) -> Option<string>)
    ensures var d := RunList(pattern, cbs, args, run);
      && |d.calls| <= |cbs|
      && (forall j :: 0 <= j < |d.calls| ==> d.calls[j] == Call(pattern, j, cbs[j], args))
      && (d.err == None ==> |d.calls| == |cbs|)
      && LastDecides(d, run)
    decreases |cbs|
  {
    hide MatchTopic;
    if cbs != [] {
      var n := |cbs| - 1;
      RunListShape(pattern, cbs[..n], args, run);
      var prev := RunList(pattern, cbs[..n], args, run);
      if prev.err == None {
        var d := RunList(pattern, cbs, args, run);
        assert d.calls == prev.calls + [Call(pattern, n, cbs[n], args)];
        forall j | 0 <= j < |d.calls| - 1 ensures run(d.calls[j].cb, d.calls[j].args) == None {
          if j < |prev.calls| - 1 {
          } else {
            assert j == |prev.calls| - 1;
          }
        }
      }
    }
  }

  /**
    An invocation a dispatch over `order` may make: callback `index` of a
    registered pattern that is in the order and matches the topic, called
    with the event's arguments.
  */
  ghost predicate CallFrom<A>(subs: map<string, seq<CallbackId>>, order: seq<string>, topic: string, args: seq<A>, c: Call<A>)
  {
    && c.pattern in subs && c.pattern in order && MatchTopic(c.pattern, topic)
    && c.index < |subs[c.pattern]| && c.cb == subs[c.pattern][c.index] && c.args == args
  }

  ghost predicate AllFrom<A>(subs: map<string, seq<CallbackId>>, order: seq<string>, topic: string, args: seq<A>, calls: seq<Call<A>>)
  {
    forall j :: 0 <= j < |calls| ==> CallFrom(subs, order, topic, args, calls[j])
  }

  lemma {:induction false} DispatchCallsFrom<A>(subs: map<string, seq<CallbackId>>, order: seq<string>, topic: string, args: seq<A>,
                                                run: (CallbackId, seq<A>) -> Option<string>)
    ensures AllFrom(subs, order, topic, args, Dispatch(subs, order, topic, args, run).calls)
    decreases |order|
  {
    hide MatchTopic;
    if order != [] {
      var n := |order| - 1;
      var p := order[n];
      DispatchCallsFrom(subs, order[..n], topic, args, run);
      var prev := Dispatch(subs, order[..n], topic, args, run);
      var d := Dispatch(subs, order, topic, args, run);
      var matched := !(prev.err.Some? || p !in subs || !MatchTopic(p, topic));
      assert prev.calls <= d.calls;
      forall j | 0 <= j < |d.calls| ensures CallFrom(subs, order, topic, args, d.calls[j]) {
        if j < |prev.calls| {
          var c := prev.calls[j];
          assert d.calls[j] == c && CallFrom(subs, order[..n], topic, args, c);
          var k :| 0 <= k < n && order[..n][k] == c.pattern;
          assert order[k] == c.pattern;
        } else {
          assert matched;
          var r := RunList(p, subs[p], args, run);
          RunListShape(p, subs[p], args, run);
          assert d.calls == prev.calls + r.calls;
          assert d.calls[j] == r.calls[j - |prev.calls|];
        }
      }
    }
  }

  lemma {:induction false} DispatchLastDecides<A>(subs: map<string, seq<CallbackId>>, order: seq<string>, topic: string, args: seq<A>,
                                                  run: (CallbackId, seq<A>) -> Option<string>)
    ensures LastDecides(Dispatch(subs, order, topic, args, run), run)
    decreases |order|
  {
    hide MatchTopic;
    if order != [] {
      var n := |order| - 1;
      var p := order[n];
      DispatchLastDecides(subs, order[..n], topic, args, run);
      var prev := Dispatch(subs, order[..n], topic, args, run);
      var d := Dispatch(subs, order, topic, args, run);
      if !(prev.err.Some? || p !in subs || !MatchTopic(p, topic)) {
        var r := RunList(p, subs[p], args, run);
        RunListShape(p, subs[p], args, run);
        assert d.calls == prev.calls + r.calls && d.err == r.err;
        forall j | 0 <= j < |d.calls| - 1 ensures run(d.calls[j].cb, d.calls[j].args) == None {
          if j < |prev.calls| {
            assert d.calls[j] == prev.calls[j];
          } else {
            assert d.calls[j] == r.calls[j - |prev.calls|];
          }
        }
        if r.calls == [] {
          assert d.calls == prev.calls;
        } else {
          assert d.calls[|d.calls| - 1] == r.calls[|r.calls| - 1];
        }
      }
    }
  }

  /**
    Soundness of a dispatch: each invocation is callback `index` of a registered
    pattern that matches the topic and is in the order, called with the event's
    arguments; and the error is that of the last invocation, all earlier ones
    having succeeded.
  */
  lemma {:induction false} DispatchSound<A>(subs: map<string, seq<CallbackId>>, order: seq<string>, topic: string, args: seq<A>,
                                            run: (CallbackId, seq<A>) -> Option<string>)
    ensures var d := Dispatch(subs, order, topic, args, run);
      && (forall j :: 0 <= j < |d.calls| ==>
            && d.calls[j].pattern in subs && d.calls[j].pattern in order
            && MatchTopic(d.calls[j].pattern, topic)
            && d.calls[j].index < |subs[d.calls[j].pattern]|
            && d.calls[j].cb == subs[d.calls[j].pattern][d.calls[j].index]
            && d.calls[j].args == args)
      && LastDecides(d, run)
  {
    hide MatchTopic;
    DispatchCallsFrom(subs, order, topic, args, run);
    DispatchLastDecides(subs, order, topic, args, run);
  }

  /** With a distinct order, the callbacks of one pattern run in subscription order, none twice. */
  lemma {:induction false} DispatchKeepsSubscriptionOrder<A>(subs: map<string, seq<CallbackId>>, order: seq<string>, topic: string,
                                                             args: seq<A>, run: (CallbackId, seq<A>) -> Option<string>)
    requires forall i, j :: 0 <= i < j < |order| ==> order[i] != order[j]
    ensures var d := Dispatch(subs, order, topic, args, run);
      forall j, k :: 0 <= j < k < |d.calls| && d.calls[j].pattern == d.calls[k].pattern ==> d.calls[j].index < d.calls[k].index
    decreases |order|
  {
    hide MatchTopic;
    if order != [] {
      var n := |order| - 1;
      var p := order[n];
      DispatchKeepsSubscriptionOrder(subs, order[..n], topic, args, run);
      DispatchSound(subs, order[..n], topic, args, run);
      var prev := Dispatch(subs, order[..n], topic, args, run);
      var d := Dispatch(subs, order, topic, args, run);
      if !(prev.err.Some? || p !in subs || !MatchTopic(p, topic)) {
        var r := RunList(p, subs[p], args, run);
        RunListShape(p, subs[p], args, run);
        assert d.calls == prev.calls + r.calls;
        forall j, k | 0 <= j < k < |d.calls| && d.calls[j].pattern == d.calls[k].pattern
          ensures d.calls[j].index < d.calls[k].index
        {
          if k < |prev.calls| {
            assert d.calls[j] == prev.calls[j] && d.calls[k] == prev.calls[k];
          } else if j < |prev.calls| {
            assert false;
          } else {
            assert d.calls[j] == r.calls[j - |prev.calls|] && d.calls[k] == r.calls[k - |prev.calls|];
          }
        }
      }
    }
  }

  /** Every callback of every registered pattern in `order` that matches the topic has a call in `calls`. */
  ghost predicate AllRan<A>(subs: map<string, seq<CallbackId>>, order: seq<string>, topic: string, args: seq<A>, calls: seq<Call<A>>)
  {
    forall p, i :: p in order && p in subs && MatchTopic(p, topic) && 0 <= i < |subs[p]| ==> Call(p, i, subs[p][i], args) in calls
  }

  /** A successful dispatch has run every callback of every matching pattern in the order. */
  lemma {:induction false} DispatchComplete<A>(subs: map<string, seq<CallbackId>>, order: seq<string>, topic: string,
                                               args: seq<A>, run: (CallbackId, seq<A>) -> Option<string>)
    requires Dispatch(subs, order, topic, args, run).err == None
    ensures AllRan(subs, order, topic, args, Dispatch(subs, order, topic, args, run).calls)
    decreases |order|
  {
    hide MatchTopic;
    if order != [] {
      var n := |order| - 1;
      var last := order[n];
      var prev := Dispatch(subs, order[..n], topic, args, run);
      var d := Dispatch(subs, order, topic, args, run);
      assert prev.err == None;
      DispatchComplete(subs, order[..n], topic, args, run);
      forall p, i | p in order && p in subs && MatchTopic(p, topic) && 0 <= i < |subs[p]|
        ensures Call(p, i, subs[p][i], args) in d.calls
      {
        if p == last {
          var r := RunList(last, subs[last], args, run);
          RunListShape(last, subs[last], args, run);
          assert d.calls == prev.calls + r.calls;
          assert r.calls[i] == Call(p, i, subs[p][i], args);
        } else {
          assert p in order[..n] by {
            var k :| 0 <= k < |order| && order[k] == p;
            assert order[..n][k] == p;
          }
          assert Call(p, i, subs[p][i], args) in prev.calls;
          assert d.calls == prev.calls || d.calls == prev.calls + RunList(last, subs[last], args, run).calls;
        }
      }
    }
  }

  /**
    Emit and each event of a flush: with the patterns visited in any order of
    the map, the dispatch succeeds exactly when every callback of every
    matching pattern succeeds on the arguments.
  */
  lemma {:induction false} DispatchSucceedsIffAllSucceed<A>(subs: map<string, seq<CallbackId>>, order: seq<string>, topic: string,
                                         args: seq<A>, run: (CallbackId, seq<A>) -> Option<string>)
    requires IsOrdering(order, subs.Keys)
    ensures Dispatch(subs, order, topic, args, run).err == None <==> AllSucceed(subs, topic, args, run)
  {
    hide MatchTopic;
    var d := Dispatch(subs, order, topic, args, run);
    IsOrderingMeans(order, subs.Keys);
    DispatchSound(subs, order, topic, args, run);
    if d.err == None {
      DispatchComplete(subs, order, topic, args, run);
      forall p, i | p in subs && MatchTopic(p, topic) && 0 <= i < |subs[p]| ensures run(subs[p][i], args) == None {
        assert p in subs.Keys && p in order;
        assert Call(p, i, subs[p][i], args) in d.calls;
        var j :| 0 <= j < |d.calls| && d.calls[j] == Call(p, i, subs[p][i], args);
        if j < |d.calls| - 1 {
        } else {
          assert d.err == run(d.calls[j].cb, d.calls[j].args);
        }
      }
    }
    if AllSucceed(subs, topic, args, run) && d.calls != [] {
      var c := d.calls[|d.calls| - 1];
      assert run(subs[c.pattern][c.index], args) == None;
    }
  }

  /**
    A successful dispatch runs each callback of each matching pattern exactly
    once, and no callback of a pattern that does not match.
  */
  lemma {:induction false} DispatchRunsEachOnce<A>(subs: map<string, seq<CallbackId>>, order: seq<string>, topic: string,
                                args: seq<A>, run: (CallbackId, seq<A>) -> Option<string>)
    requires IsOrdering(order, subs.Keys)
    requires Dispatch(subs, order, topic, args, run).err == None
    ensures var d := Dispatch(subs, order, topic, args, run);
      && (forall p, i :: p in subs && MatchTopic(p, topic) && 0 <= i < |subs[p]| ==> Call(p, i, subs[p][i], args) in d.calls)
      && (forall j, k :: 0 <= j < k < |d.calls| ==> (d.calls[j].pattern, d.calls[j].index) != (d.calls[k].pattern, d.calls[k].index))
      && (forall j :: 0 <= j < |d.calls| ==> MatchTopic(d.calls[j].pattern, topic))
  {
    hide MatchTopic;
    IsOrderingMeans(order, subs.Keys);
    DispatchComplete(subs, order, topic, args, run);
    DispatchKeepsSubscriptionOrder(subs, order, topic, args, run);
    DispatchSound(subs, order, topic, args, run);
    var d := Dispatch(subs, order, topic, args, run);
    forall p, i | p in subs && MatchTopic(p, topic) && 0 <= i < |subs[p]| ensures Call(p, i, subs[p][i], args) in d.calls {
      assert p in subs.Keys && p in order;
    }
  }

  /** With no matching pattern nothing runs and nothing fails; with one, something runs. */
  lemma {:induction false} DispatchRunsSomethingIffMatch<A>(subs: map<string, seq<CallbackId>>, order: seq<string>, topic: string,
                                         args: seq<A>, run: (CallbackId, seq<A>) -> Option<string>)
    requires IsOrdering(order, subs.Keys) && ListsNonEmpty(subs)
    ensures Dispatch(subs, order, topic, args, run).calls != [] <==> AnyMatch(subs, topic)
    ensures !AnyMatch(subs, topic) ==> Dispatch(subs, order, topic, args, run).err == None
  {
    hide MatchTopic;
    var d := Dispatch(subs, order, topic, args, run);
    IsOrderingMeans(order, subs.Keys);
    DispatchSound(subs, order, topic, args, run);
    if AnyMatch(subs, topic) && d.err == None {
      var p :| p in subs && MatchTopic(p, topic);
      DispatchComplete(subs, order, topic, args, run);
      assert 0 < |subs[p]| && p in subs.Keys && p in order;
      assert Call(p, 0, subs[p][0], args) in d.calls;
    }
    if d.calls != [] {
      assert d.calls[0].pattern in subs && MatchTopic(d.calls[0].pattern, topic);
    }
  }

  // ---------------------------------------------------------------------------
  // Queue flush
  // ---------------------------------------------------------------------------

  /** The invocations for the first `k` events come first, unchanged by what follows. */
  lemma {:induction false} DrainPrefix<A>(subs: map<string, seq<CallbackId>>, events: seq<Event<A>>, orders: seq<seq<string>>,
                                          run: (CallbackId, seq<A>) -> Option<string>, k: nat)
    requires |orders| == |events| && k <= |events|
    ensures Drain(subs, events[..k], orders[..k], run) <= Drain(subs, events, orders, run)
    decreases |events| - k
  {
    hide MatchTopic;
    if k < |events| {
      var n := |events| - 1;
      assert events[..n][..k] == events[..k] && orders[..n][..k] == orders[..k];
      DrainPrefix(subs, events[..n], orders[..n], run, k);
    } else {
      assert events[..k] == events && orders[..k] == orders;
    }
  }

  /**
    FIFO and no stopping: the invocations of event `i` follow right after
    those of the events queued before it, whatever errors those returned.
  */
  lemma {:induction false} EventDispatchedInTurn<A>(subs: map<string, seq<CallbackId>>, events: seq<Event<A>>, orders: seq<seq<string>>,
                                 run: (CallbackId, seq<A>) -> Option<string>, i: nat)
    requires |orders| == |events| && i < |events|
    ensures Drain(subs, events[..i], orders[..i], run)
            + Dispatch(subs, orders[i], events[i].topic, events[i].args, run).calls
            <= Drain(subs, events, orders, run)
  {
    hide MatchTopic;
    DrainPrefix(subs, events, orders, run, i + 1);
    assert events[..i + 1][..i] == events[..i] && orders[..i + 1][..i] == orders[..i];
    assert events[..i + 1][i] == events[i] && orders[..i + 1][i] == orders[i];
  }

  /** A flush runs only callbacks of patterns that match the event they are called for. */
  lemma {:induction false} DrainSound<A>(subs: map<string, seq<CallbackId>>, events: seq<Event<A>>, orders: seq<seq<string>>,
                                         run: (CallbackId, seq<A>) -> Option<string>)
    requires |orders| == |events|
    ensures forall c :: c in Drain(subs, events, orders, run) ==>
      exists e :: e in events && e.args == c.args && MatchTopic(c.pattern, e.topic) && c.pattern in subs
    decreases |events|
  {
    hide MatchTopic;
    if events != [] {
      var n := |events| - 1;
      DrainSound(subs, events[..n], orders[..n], run);
      DispatchSound(subs, orders[n], events[n].topic, events[n].args, run);
      var d := Dispatch(subs, orders[n], events[n].topic, events[n].args, run);
      forall c | c in Drain(subs, events, orders, run)
        ensures exists e :: e in events && e.args == c.args && MatchTopic(c.pattern, e.topic) && c.pattern in subs
      {
        if c in Drain(subs, events[..n], orders[..n], run) {
          var e :| e in events[..n] && e.args == c.args && MatchTopic(c.pattern, e.topic) && c.pattern in subs;
          assert e in events;
        } else {
          var j :| 0 <= j < |d.calls| && d.calls[j] == c;
          assert events[n] in events;
        }
      }
    }
  }
}
