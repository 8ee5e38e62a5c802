/**
  The authentication module's listeners for user updates: two callbacks
  subscribed, one after the other, to "user:updated". Each only reports the
  call and succeeds.
*/
module AuthUserSignals {
  import opened Wrappers
  import opened TopicMatch
  import opened Signals

  /** Subscribes the two listeners in order. */
  method SubscribeUserUpdated(bus: Bus<string>, first: CallbackId, second: CallbackId)
    requires bus.Valid()
    modifies bus`subscriptions
    ensures bus.Valid()
    ensures bus.subscriptions == Subscribed(Subscribed(old(bus.subscriptions), "user:updated", first), "user:updated", second)
  {
    bus.Subscribe("user:updated", first);
    bus.Subscribe("user:updated", second);
  }

  /**
    Subscribing both listeners to a bus without a "user:updated" list gives
    that topic exactly the list [first, second] and leaves every other
    pattern as it was.
  */
  lemma {:induction false} SubscribedListenersAlone(subs: map<string, seq<CallbackId>>, first: CallbackId, second: CallbackId)
    requires "user:updated" !in subs
    ensures var s := Subscribed(Subscribed(subs, "user:updated", first), "user:updated", second);
      && s.Keys == subs.Keys + {"user:updated"}
      && s["user:updated"] == [first, second]
      && forall p :: p in subs ==> s[p] == subs[p]
  {
  }

  /**
    When no pattern other than `q` matches the topic, a dispatch in any
    iteration order of the patterns is exactly `q`'s list, or nothing.
  */
  lemma {:induction false} DispatchOneMatch<A>(subs: map<string, seq<CallbackId>>, order: seq<string>, keys: set<string>,
                                              topic: string, args: seq<A>, run: (CallbackId, seq<A>) -> Option<string>, q: string)
    requires IsOrdering(order, keys)
    requires forall p :: p in subs && p != q ==> !MatchTopic(p, topic)
    ensures Dispatch(subs, order, topic, args, run)
         == if q in keys && q in subs && MatchTopic(q, topic) then RunList(q, subs[q], args, run) else Dispatched([], None)
    decreases |order|
  {
    hide MatchTopic;
    if order != [] {
      var n := |order| - 1;
      var p := order[n];
      DispatchOneMatch(subs, order[..n], keys - {p}, topic, args, run, q);
      if p == q && p in subs && MatchTopic(p, topic) {
        assert [] + RunList(q, subs[q], args, run).calls == RunList(q, subs[q], args, run).calls;
      }
    }
  }

  /**
    On any bus where "user:updated" holds exactly these two listeners and no
    other pattern matches that topic, a "user:updated" event runs both, first
    before second, whatever the iteration order.
  */
  lemma {:induction false} BothListenersRunInOrder(subs: map<string, seq<CallbackId>>, first: CallbackId, second: CallbackId,
                                                  order: seq<string>, args: seq<string>, run: (CallbackId, seq<string>) -> Option<string>)
    requires "user:updated" in subs && subs["user:updated"] == [first, second]
    requires forall p :: p in subs && p != "user:updated" ==> !MatchTopic(p, "user:updated")
    requires run(first, args) == None && run(second, args) == None
    requires IsOrdering(order, subs.Keys)
    ensures Dispatch(subs, order, "user:updated", args, run)
         == Dispatched([Call("user:updated", 0, first, args), Call("user:updated", 1, second, args)], None)
  {
    hide MatchTopic;
    var topic := "user:updated";
    assert NoWildcards(topic);
    ExactMatchWithoutWildcards(topic, topic);
    DispatchOneMatch(subs, order, subs.Keys, topic, args, run, topic);
    var cbs := [first, second];
    assert cbs[..1] == [first] && [first][..0] == [];
    assert RunList(topic, [first], args, run) == Dispatched([Call(topic, 0, first, args)], None);
  }

  /** The worker's pattern "usuari:creat" is no listener of "user:updated". */
  lemma {:induction false} WorkerPatternIgnoresUserUpdated()
    ensures !MatchTopic("usuari:creat", "user:updated")
  {
    hide MatchTopic;
    assert NoWildcards("usuari:creat");
    ExactMatchWithoutWildcards("usuari:creat", "user:updated");
  }
}
