/**
  The request middleware that flushes the signal bus: the wrapped handler runs
  first, and the queue is flushed afterwards by a deferred call, so the flush
  also happens when the handler panics. The flush's result is discarded.

  A handler is described by what it does to the bus before it returns or
  panics: its requests in order, each an event queued with AfterTransaction or
  an event emitted at once with Emit, and the response it produces. The
  errors these calls return are the handler's business and do not change the
  bus.
*/
module SignalsMiddleware {
  import opened Wrappers
  import opened TopicMatch
  import opened Signals
  import opened SignalLaws

  datatype Outcome<R> = Responded(response: R) | Panicked

  /** One call a handler makes on the bus. */
  datatype Request<A> = Queue(ev: Event<A>) | EmitNow(ev: Event<A>)

  datatype Handler<A, R> = Handler(requests: seq<Request<A>>, response: R, panics: bool)

  /** The events the handler asks to queue, in order. */
  function Queued<A>(rs: seq<Request<A>>): (q: seq<Event<A>>)
    ensures |q| <= |rs|
    decreases |rs|
  {
    if rs == [] then []
    else
      var n := |rs| - 1;
      Queued(rs[..n]) + (if rs[n].Queue? then [rs[n].ev] else [])
  }

  /** The events the handler emits at once, in order. */
  function Emitted<A>(rs: seq<Request<A>>): (q: seq<Event<A>>)
    ensures |q| <= |rs|
    decreases |rs|
  {
    if rs == [] then []
    else
      var n := |rs| - 1;
      Emitted(rs[..n]) + (if rs[n].EmitNow? then [rs[n].ev] else [])
  }

  /** One more request adds its event to the list it belongs to. */
  lemma {:induction false} RequestSnoc<A>(rs: seq<Request<A>>, r: Request<A>)
    ensures Queued(rs + [r]) == Queued(rs) + (if r.Queue? then [r.ev] else [])
    ensures Emitted(rs + [r]) == Emitted(rs) + (if r.EmitNow? then [r.ev] else [])
  {
    assert (rs + [r])[..|rs|] == rs;
  }

  /** Each request is queued or emitted, never both: the two lists hold exactly the requested events. */
  lemma {:induction false} RequestsSplit<A>(rs: seq<Request<A>>)
    ensures |Queued(rs)| + |Emitted(rs)| == |rs|
    ensures forall e :: e in Queued(rs) ==> Queue(e) in rs
    ensures forall r :: r in rs && r.Queue? ==> r.ev in Queued(rs)
    ensures forall e :: e in Emitted(rs) ==> EmitNow(e) in rs
    ensures forall r :: r in rs && r.EmitNow? ==> r.ev in Emitted(rs)
    decreases |rs|
  {
    if rs != [] {
      var n := |rs| - 1;
      RequestsSplit(rs[..n]);
      assert rs == rs[..n] + [rs[n]];
    }
  }

  /** Before the first request nothing is queued, emitted or dispatched. */
  lemma NothingRequested<A>(rs: seq<Request<A>>, subs: map<string, seq<CallbackId>>, run: (CallbackId, seq<A>) -> Option<string>)
    ensures Queued(rs[..0]) == [] && Emitted(rs[..0]) == []
    ensures Accepted<A>(subs, []) == []
    ensures Drain<A>(subs, [], [], run) == [] && OrderingsOf([], subs.Keys)
  {
  }

  /** How the handler ends, independently of the bus. */
  function HandlerOutcome<A, R>(h: Handler<A, R>): Outcome<R>
  {
    if h.panics then Panicked else Responded(h.response)
  }

  /** The requested events the bus queues: those whose topic some pattern matches, in order. */
  function Accepted<A>(subs: map<string, seq<CallbackId>>, events: seq<Event<A>>): (q: seq<Event<A>>)
    ensures |q| <= |events|
    decreases |events|
  {
    if events == [] then []
    else
      var n := |events| - 1;
      Accepted(subs, events[..n]) + (if AnyMatch(subs, events[n].topic) then [events[n]] else [])
  }

  /** One more requested event is queued when some pattern matches its topic. */
  lemma {:induction false} AcceptedSnoc<A>(subs: map<string, seq<CallbackId>>, events: seq<Event<A>>, ev: Event<A>)
    ensures Accepted(subs, events + [ev]) == Accepted(subs, events) + (if AnyMatch(subs, ev.topic) then [ev] else [])
  {
    assert (events + [ev])[..|events|] == events;
  }

  /** Exactly the requested events with a listener are queued. */
  lemma {:induction false} AcceptedFilters<A>(subs: map<string, seq<CallbackId>>, events: seq<Event<A>>)
    ensures forall e :: e in Accepted(subs, events) <==> e in events && AnyMatch(subs, e.topic)
    decreases |events|
  {
    if events != [] {
      var n := |events| - 1;
      AcceptedFilters(subs, events[..n]);
      assert events == events[..n] + [events[n]];
      forall e ensures e in events <==> e in events[..n] || e == events[n] {
      }
    }
  }

  /** When every topic has a listener, nothing requested is dropped. */
  lemma {:induction false} AcceptedAll<A>(subs: map<string, seq<CallbackId>>, events: seq<Event<A>>)
    requires forall i :: 0 <= i < |events| ==> AnyMatch(subs, events[i].topic)
    ensures Accepted(subs, events) == events
    decreases |events|
  {
    if events != [] {
      var n := |events| - 1;
      AcceptedAll(subs, events[..n]);
      assert events == events[..n] + [events[n]];
    }
  }

  /**
    The handler body: its requests in turn, each error ignored. An emitted
    event is dispatched at once; `emitOrders` are the iteration orders those
    dispatches used.
  */
  method RunHandler<A, R>(bus: Bus<A>, h: Handler<A, R>, run: (CallbackId, seq<A>) -> Option<string>)
    returns (outcome: Outcome<R>, ghost emitOrders: seq<seq<string>>)
    modifies bus`queue, bus`trace
    ensures bus.queue == old(bus.queue) + Accepted(bus.subscriptions, Queued(h.requests))
    ensures |emitOrders| == |Emitted(h.requests)|
    ensures forall i :: 0 <= i < |emitOrders| ==> IsOrdering(emitOrders[i], bus.subscriptions.Keys)
    ensures bus.trace == old(bus.trace) + Drain(bus.subscriptions, Emitted(h.requests), emitOrders, run)
    ensures outcome == HandlerOutcome(h)
  {
    // The loop needs only the step lemmas, not the definitions they are about.
    hide MatchTopic, Dispatch, Drain, OrderingsOf, IsOrdering, Queued, Emitted, Accepted;
    ghost var subs := bus.subscriptions;
    ghost var queued: seq<Event<A>> := [];
    ghost var accepted: seq<Event<A>> := [];
    ghost var emitted: seq<Event<A>> := [];
    var i := 0;
    emitOrders := [];
    NothingRequested(h.requests, subs, run);
    while i < |h.requests|
      invariant 0 <= i <= |h.requests|
      invariant queued == Queued(h.requests[..i]) && emitted == Emitted(h.requests[..i])
      invariant accepted == Accepted(subs, queued)
      invariant bus.queue == old(bus.queue) + accepted
      invariant |emitOrders| == |emitted|
      invariant OrderingsOf(emitOrders, subs.Keys)
      invariant bus.trace == old(bus.trace) + Drain(subs, emitted, emitOrders, run)
    {
      var rq := h.requests[i];
      assert h.requests[..i + 1] == h.requests[..i] + [rq];
      RequestSnoc(h.requests[..i], rq);
      if rq.Queue? {
        AcceptedSnoc(subs, queued, rq.ev);
        var _ := bus.AfterTransaction(rq.ev.topic, rq.ev.args);
        queued := queued + [rq.ev];
        accepted := Accepted(subs, queued);
      } else {
        var _, o := bus.Emit(rq.ev.topic, rq.ev.args, run);
        DrainSnoc(subs, emitted, emitOrders, rq.ev, o, run);
        OrderingsSnoc(emitOrders, o, subs.Keys);
        emitOrders := emitOrders + [o];
        emitted := emitted + [rq.ev];
      }
      i := i + 1;
    }
    assert h.requests[..i] == h.requests;
    OrderingsOfMeans(emitOrders, subs.Keys);
    outcome := HandlerOutcome(h);
  }

  /**
    One request through the middleware: the handler, with its immediate
    dispatches, then exactly one flush of everything queued so far. The
    outcome is the handler's.
  */
  method ServeWithSignals<A, R>(bus: Bus<A>, h: Handler<A, R>, run: (CallbackId, seq<A>) -> Option<string>)
    returns (outcome: Outcome<R>, ghost emitOrders: seq<seq<string>>, ghost orders: seq<seq<string>>)
    modifies bus
    ensures outcome == HandlerOutcome(h)
    ensures bus.subscriptions == old(bus.subscriptions) && bus.queue == []
    ensures bus.flushes == old(bus.flushes) + 1
    ensures |emitOrders| == |Emitted(h.requests)|
    ensures forall i :: 0 <= i < |emitOrders| ==> IsOrdering(emitOrders[i], bus.subscriptions.Keys)
    ensures |orders| == |old(bus.queue) + Accepted(old(bus.subscriptions), Queued(h.requests))|
    ensures forall i :: 0 <= i < |orders| ==> IsOrdering(orders[i], bus.subscriptions.Keys)
    ensures bus.trace == old(bus.trace)
      + Drain(bus.subscriptions, Emitted(h.requests), emitOrders, run)
      + Drain(bus.subscriptions, old(bus.queue) + Accepted(bus.subscriptions, Queued(h.requests)), orders, run)
  {
    outcome, emitOrders := RunHandler(bus, h, run);
    var _, o := bus.ProcessQueue(run);
    orders := o;
  }

  /**
    Every event the handler got queued is dispatched by that request's flush,
    after everything queued before it.
  */
  lemma {:induction false} HandlerEventsFlushed<A>(subs: map<string, seq<CallbackId>>, pending: seq<Event<A>>, requests: seq<Event<A>>,
                                orders: seq<seq<string>>, run: (CallbackId, seq<A>) -> Option<string>, i: nat)
    requires |orders| == |pending + Accepted(subs, requests)|
    requires i < |Accepted(subs, requests)|
    ensures var events := pending + Accepted(subs, requests);
      var k := |pending| + i;
      Drain(subs, events[..k], orders[..k], run)
        + Dispatch(subs, orders[k], Accepted(subs, requests)[i].topic, Accepted(subs, requests)[i].args, run).calls
        <= Drain(subs, events, orders, run)
  {
    var events := pending + Accepted(subs, requests);
    var k := |pending| + i;
    assert events[k] == Accepted(subs, requests)[i];
    EventDispatchedInTurn(subs, events, orders, run, k);
  }
}
